/**
 * The page as `$(document).ready` sets it up: the login state, the story list, and whether the
 * event handlers have been bound.  The page-load handler runs once.  The handlers are bound
 * only after it has finished its awaits; a load whose resume or fetch rejects stops before
 * that, and the page then answers no form or click at all.  Each awaited API call is an input
 * that either holds the call's result or no value when the call rejected; a rejection ends the
 * handler at that await, so nothing after it happens.
 */
module Page {
  import opened Wrappers
  import opened Stars
  import opened Session
  import opened Stories

  /** The page-load sequence runs to its end: the resume (when one is made) and the fetch resolve. */
  predicate LoadCompletes<User>(loggedIn: bool, resumed: Option<User>, fetched: Option<seq<Story>>)
  {
    (!loggedIn || resumed.Some?) && fetched.Some?
  }

  class App<User> {
    const login: LoginState<User>
    const board: StoryBoard
    /** The page-load handler has run. */
    var loaded: bool
    /** The login, create-account, "all stories", new-story and star handlers are in place. */
    var bound: bool

    /**
     * The handlers are only bound after a successful load, so a story list is there; without
     * them nothing has ever been displayed.
     */
    ghost predicate Valid()
      reads this, board
    {
      && board.Valid()
      && (bound ==> loaded && board.storyList.Some?)
      && (!bound ==> board.entries == [])
    }

    /** The script's start, before the page-load handler runs. */
    constructor (token: Option<string>, username: Option<string>)
      ensures Valid() && !loaded && !bound
      ensures fresh(login) && fresh(board)
      ensures login.loggedIn <==> Truthy(token) && Truthy(username)
      ensures login.user == None && board.storyList == None && board.entries == []
    {
      login := new LoginState(token, username);
      board := new StoryBoard();
      loaded := false;
      bound := false;
    }

    /**
     * The page-load handler.  With the flag set, `User.stayLoggedIn()` is awaited first: its
     * rejection ends the handler with nothing changed; its user object becomes `user` and the
     * stories are then generated.  With the flag clear, the stories are generated and `user`
     * is left alone.  The flag itself is never changed here.  The handlers are bound exactly
     * when the sequence reaches its end.  It runs once, when the document is ready.
     */
    method DocumentReady(resumed: Option<User>, fetched: Option<seq<Story>>)
      requires Valid() && !loaded
      modifies this, login, board
      ensures Valid() && loaded
      ensures bound == LoadCompletes(old(login.loggedIn), resumed, fetched)
      ensures login.loggedIn == old(login.loggedIn)
      ensures old(login.loggedIn) && resumed.None? ==>
        login.user == old(login.user) && board.storyList == old(board.storyList) && board.entries == old(board.entries)
      ensures old(login.loggedIn) && resumed.Some? ==> login.user == resumed
      ensures !old(login.loggedIn) ==> login.user == old(login.user)
      ensures (!old(login.loggedIn) || resumed.Some?) && fetched.Some? ==>
        board.storyList == fetched && board.entries == Entries(fetched.value)
      ensures (!old(login.loggedIn) || resumed.Some?) && fetched.None? ==>
        board.storyList == old(board.storyList) && board.entries == old(board.entries)
    {
      loaded := true;
      if login.loggedIn {
        if resumed.None? {
          return;
        }
        login.Resume(resumed);
      }
      board.GenerateStories(fetched);
      if fetched.Some? {
        bound := true;
      }
    }

    /** The login form: handled only once the handlers are bound. */
    method Login(loggedInUser: Option<User>)
      requires Valid()
      modifies login
      ensures Valid()
      ensures bound && loggedInUser.Some? ==> login.user == loggedInUser && login.loggedIn
      ensures !bound || loggedInUser.None? ==>
        login.user == old(login.user) && login.loggedIn == old(login.loggedIn)
    {
      if bound {
        login.Login(loggedInUser);
      }
    }

    /** The create-account form: handled only once the handlers are bound; the flag never changes. */
    method CreateAccount(newUser: Option<User>)
      requires Valid()
      modifies login
      ensures Valid()
      ensures login.loggedIn == old(login.loggedIn)
      ensures login.user == if bound && newUser.Some? then newUser else old(login.user)
    {
      if bound {
        login.CreateAccount(newUser);
      }
    }

    /** The "all stories" link: once bound, the stories are generated again from a fresh fetch. */
    method ShowAllStories(fetched: Option<seq<Story>>)
      requires Valid()
      modifies board
      ensures Valid()
      ensures bound && fetched.Some? ==> board.storyList == fetched && board.entries == Entries(fetched.value)
      ensures !bound || fetched.None? ==>
        board.storyList == old(board.storyList) && board.entries == old(board.entries)
    {
      if bound {
        board.GenerateStories(fetched);
      }
    }

    /**
     * The new-story form, given the outcome of `storyList.addStory(user, …)`.  Once the
     * handlers are bound a story list is loaded; a rejected call ends the handler, and
     * otherwise the new story is appended to the list.
     */
    method SubmitStory(created: Option<Story>)
      requires Valid()
      modifies board
      ensures Valid()
      ensures board.storyList == old(board.storyList)
      ensures bound && created.Some? ==> board.entries == old(board.entries) + [EntryOf(created.value)]
      ensures !bound || created.None? ==> board.entries == old(board.entries)
    {
      if bound && created.Some? {
        board.AppendStory(created.value);
      }
    }

    /**
     * A click on the star of entry `k`.  A star is only displayed after a successful load, so
     * the star handler is in place: it yields the favourite call it makes and toggles the star.
     */
    method ClickStar(k: nat) returns (call: FavoriteCall)
      requires Valid() && k < |board.entries|
      modifies board
      ensures Valid() && bound
      ensures call.AddFavorite? <==> Outlined in old(board.entries[k].starClasses)
      ensures call.storyId == ""
      ensures board.entries
        == old(board.entries)[k := old(board.entries[k]).(starClasses := ToggleStar(old(board.entries[k].starClasses)))]
      ensures Outlined in board.entries[k].starClasses <==> Solid in old(board.entries[k].starClasses)
      ensures StoriesOf(board.entries) == StoriesOf(old(board.entries))
      ensures board.storyList == old(board.storyList)
    {
      call := board.ClickStar(k);
    }
  }

  /**
   * A visit from a fresh page with no stored login: the load fetches one story, and its star
   * is clicked twice.  The first click adds the favourite and the second removes it.
   */
  method FirstVisit(story: Story) returns (first: FavoriteCall, second: FavoriteCall)
    ensures first == AddFavorite("") && second == RemoveFavorite("")
  {
    var app := new App<string>(None, None);
    app.DocumentReady(None, Some([story]));
    EntriesAt([story], 0);
    first := app.ClickStar(0);
    second := app.ClickStar(0);
  }
}

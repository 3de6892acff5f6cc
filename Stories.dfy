/**
 * The stories list of the page (`#all-articles-list`) and the global `storyList` behind it.
 * Every story is shown as one list entry carrying the story's fields, the host name of its
 * URL and the class list of its favourite star.
 */
module Stories {
  import opened Wrappers
  import opened HostNames
  import opened Stars

  /** A story as the API hands it out. */
  datatype Story = Story(storyId: string, url: string, title: string, author: string, username: string)

  /** One `<li>` of the list: what `generateStoryHTML` puts into the markup. */
  datatype Entry = Entry(
    storyId: string,
    url: string,
    title: string,
    author: string,
    hostName: string,
    username: string,
    starClasses: set<string>)

  /** An entry shows its URL's host name and a star with exactly one style. */
  predicate WellFormed(e: Entry)
  {
    e.hostName == GetHostName(e.url) && OneStyle(e.starClasses)
  }

  /** The story an entry shows. */
  function StoryOf(e: Entry): (story: Story)
  {
    Story(e.storyId, e.url, e.title, e.author, e.username)
  }

  /**
   * `generateStoryHTML(story)`: the entry shows every field of the story, the host name of
   * its URL and an outlined star.
   */
  function EntryOf(story: Story): (e: Entry)
    ensures StoryOf(e) == story
    ensures e.hostName == GetHostName(story.url)
    ensures e.starClasses == InitialStar
  {
    Entry(story.storyId, story.url, story.title, story.author, GetHostName(story.url),
      story.username, InitialStar)
  }

  /** An entry as rendered is well formed and its host name holds no `/`. */
  lemma EntryOfWellFormed(story: Story)
    ensures WellFormed(EntryOf(story)) && '/' !in EntryOf(story).hostName
  {
    FirstClickAdds("");
  }

  /** The list the `forEach` over the stories builds: one entry per story, in order. */
  function Entries(stories: seq<Story>): (es: seq<Entry>)
    ensures |es| == |stories|
  {
    if stories == [] then [] else Entries(stories[..|stories| - 1]) + [EntryOf(stories[|stories| - 1])]
  }

  /** Entry `i` of the list is the entry of story `i`. */
  lemma {:induction false} EntriesAt(stories: seq<Story>, i: nat)
    requires i < |stories|
    ensures Entries(stories)[i] == EntryOf(stories[i])
  {
    var init := stories[..|stories| - 1];
    if i < |init| {
      EntriesAt(init, i);
      assert Entries(stories)[i] == Entries(init)[i];
    }
  }

  /** The stories a list of entries shows. */
  function StoriesOf(es: seq<Entry>): (stories: seq<Story>)
    ensures |stories| == |es|
    ensures forall i :: 0 <= i < |es| ==> stories[i] == StoryOf(es[i])
  {
    if es == [] then [] else StoriesOf(es[..|es| - 1]) + [StoryOf(es[|es| - 1])]
  }

  /** Appending a story appends its entry. */
  lemma EntriesAppend(stories: seq<Story>, story: Story)
    ensures Entries(stories + [story]) == Entries(stories) + [EntryOf(story)]
  {
    assert (stories + [story])[..|stories|] == stories;
  }

  /** Building one more entry of a list under construction. */
  lemma EntriesPrefixStep(stories: seq<Story>, i: nat)
    requires i < |stories|
    ensures Entries(stories[..i + 1]) == Entries(stories[..i]) + [EntryOf(stories[i])]
  {
    assert stories[..i + 1] == stories[..i] + [stories[i]];
    EntriesAppend(stories[..i], stories[i]);
  }

  /** The list shows exactly the stories it was built from, in their order. */
  lemma StoriesOfEntries(stories: seq<Story>)
    ensures StoriesOf(Entries(stories)) == stories
  {
    var shown := StoriesOf(Entries(stories));
    forall i | 0 <= i < |stories|
      ensures shown[i] == stories[i]
    {
      EntriesAt(stories, i);
    }
  }

  /** Every entry of a list is well formed. */
  predicate AllWellFormed(es: seq<Entry>)
  {
    forall i :: 0 <= i < |es| ==> WellFormed(es[i])
  }

  /** Every entry of a freshly built list is well formed. */
  lemma EntriesWellFormed(stories: seq<Story>)
    ensures AllWellFormed(Entries(stories))
  {
    forall i | 0 <= i < |stories|
      ensures WellFormed(Entries(stories)[i])
    {
      EntriesAt(stories, i);
      EntryOfWellFormed(stories[i]);
    }
  }

  /** Appending an entry adds its story at the end. */
  lemma StoriesOfAppend(es: seq<Entry>, e: Entry)
    ensures StoriesOf(es + [e]) == StoriesOf(es) + [StoryOf(e)]
  {
    assert (es + [e])[..|es|] == es;
  }

  /** Replacing an entry by one that shows the same story keeps the stories shown. */
  lemma StoriesOfUpdate(es: seq<Entry>, k: nat, e: Entry)
    requires k < |es| && StoryOf(e) == StoryOf(es[k])
    ensures StoriesOf(es[k := e]) == StoriesOf(es)
  {
  }

  /** Replacing an entry by a well-formed one keeps the list well formed. */
  lemma UpdateWellFormed(es: seq<Entry>, k: nat, e: Entry)
    requires AllWellFormed(es) && k < |es| && WellFormed(e)
    ensures AllWellFormed(es[k := e])
  {
  }

  /**
   * The state the page keeps about stories: the global `storyList` (no value before the
   * first load) and the entries of `#all-articles-list`.
   */
  class StoryBoard {
    var storyList: Option<seq<Story>>
    var entries: seq<Entry>

    /** Every displayed entry shows its URL's host name and a star with one style. */
    ghost predicate Valid()
      reads this
    {
      AllWellFormed(entries)
    }

    /** The page before any story has been loaded. */
    constructor ()
      ensures Valid() && storyList == None && entries == []
    {
      storyList := None;
      entries := [];
    }

    /**
     * `generateStories()`, given the outcome of `StoryList.getStories()`.  When it rejects,
     * nothing changes.  Otherwise `storyList` is replaced, the previous entries are dropped
     * and the list shows one entry per fetched story, in order.
     */
    method GenerateStories(fetched: Option<seq<Story>>)
      requires Valid()
      modifies this
      ensures Valid()
      ensures fetched.None? ==> storyList == old(storyList) && entries == old(entries)
      ensures fetched.Some? ==> storyList == fetched && entries == Entries(fetched.value)
      ensures fetched.Some? ==> StoriesOf(entries) == fetched.value
    {
      if fetched.None? {
        return;
      }
      var stories := fetched.value;
      storyList := fetched;
      entries := [];
      var i := 0;
      while i < |stories|
        invariant 0 <= i <= |stories|
        invariant storyList == fetched
        invariant entries == Entries(stories[..i])
      {
        EntriesPrefixStep(stories, i);
        entries := entries + [EntryOf(stories[i])];
        i := i + 1;
      }
      assert stories[..i] == stories;
      EntriesWellFormed(stories);
      StoriesOfEntries(stories);
    }

    /**
     * `appendStory(story)`: one entry for `story` goes at the end of the list; the entries
     * already shown and `storyList` stay as they were.
     */
    method AppendStory(story: Story)
      requires Valid()
      modifies this
      ensures Valid()
      ensures entries == old(entries) + [EntryOf(story)]
      ensures |entries| == |old(entries)| + 1 && entries[..|old(entries)|] == old(entries)
      ensures StoriesOf(entries) == StoriesOf(old(entries)) + [story]
      ensures storyList == old(storyList)
    {
      var e := EntryOf(story);
      EntryOfWellFormed(story);
      StoriesOfAppend(entries, e);
      entries := entries + [e];
    }

    /**
     * A click on the star of entry `k`: the handler asks for the favourite to be added exactly
     * when the star is outlined, passing the clicked `<i>` element's id, which the markup
     * never sets (so it is empty); then `far` and `fas` are toggled on that star alone.
     */
    method ClickStar(k: nat) returns (call: FavoriteCall)
      requires Valid() && k < |entries|
      modifies this
      ensures Valid()
      ensures call.AddFavorite? <==> Outlined in old(entries[k].starClasses)
      ensures call.storyId == ""
      ensures entries == old(entries)[k := old(entries[k]).(starClasses := ToggleStar(old(entries[k].starClasses)))]
      ensures Outlined in entries[k].starClasses <==> Solid in old(entries[k].starClasses)
      ensures StoriesOf(entries) == StoriesOf(old(entries))
      ensures storyList == old(storyList)
    {
      var star := entries[k].starClasses;
      call := FavoriteCallFor(star, "");
      ToggleStarKeepsOneStyle(star);
      var clicked := entries[k].(starClasses := ToggleStar(star));
      StoriesOfUpdate(entries, k, clicked);
      UpdateWellFormed(entries, k, clicked);
      entries := entries[k := clicked];
    }
  }
}

# hack-or-snooze: the page script's story list, host names, stars and login flag

A model of `script.js`, the front-end script of the hack-or-snooze news site. The script keeps a
few globals: `LOGGED_IN`, `user` and `storyList`. It renders the fetched stories into
`#all-articles-list` and wires the forms and links to the API layer. The model covers four
parts of it:

- **Host names** (`HostNames`, `JsStrings`). `getHostName(url)` picks the host that is shown
  next to every story. It takes the third `/`-separated piece of a URL that contains "://"
  and the first piece of any other URL, then cuts off one leading "www.". `JsStrings` gives
  the JavaScript built-ins it uses their JavaScript meaning:
  - `indexOf` returns the first index or -1;
  - `split` on one character keeps empty pieces;
  - `slice` clamps both ends.
- **The story list** (`Stories`).
  - A `Story` becomes an `Entry`: the story's fields, its URL's host name and the class list
    of its favourite star.
  - The class `StoryBoard` holds the `storyList` global and the displayed entries.
  - `GenerateStories` replaces both; it builds the entries in a loop, as the `forEach` does.
  - `AppendStory` adds one entry at the end.
  - `ClickStar` is the star's click handler.
- **The star** (`Stars`).
  - Class lists are sets of class names.
  - A click asks for the story to be added to the favourites exactly when the star has
    `far`, then toggles `far` and `fas`.
- **The login flag** (`Session`, `Page`).
  - `LoginState` holds `LOGGED_IN` and `user`.
  - At start the flag is set exactly when the stored token and username are both truthy.
  - A login sets it; creating an account sets `user` but leaves the flag alone.
- **The page** (`Page`). The class `App` holds the login state, the story board and whether
  the event handlers are bound. `DocumentReady` is the page-load handler; it runs once. The
  login, create-account, "all stories", new-story and star handlers act only once it has run
  to its end.

Each awaited API call is an input of type `Option`: the call's result, or `None` when the call
rejected. A rejection ends the handler at that `await`. A rejection during page load also
means no handler is ever bound. The API layer (`User`, `StoryList`) is not part of this model.

## Model

| member | source | states |
|---|---|---|
| JsStrings.IndexOfFrom | script.js:200 | the result is -1 or an index at or after `from` where the pattern occurs, and the pattern occurs nowhere between `from` and that index |
| JsStrings.IndexOf | script.js:200 | `indexOf`: -1 exactly when the pattern occurs nowhere; otherwise its first occurrence |
| JsStrings.Split | script.js:201-203 | `split("/")` yields at least one piece, and no piece contains the separator |
| JsStrings.JoinSplit | script.js:201-203 | joining the pieces with the separator gives back the original string |
| JsStrings.SplitJoin | script.js:201-203 | splitting a join of separator-free pieces gives back those pieces, so `Split` keeps empty pieces and cuts at every separator |
| JsStrings.SplitLength | script.js:201-203 | there is exactly one more piece than there are separators |
| JsStrings.PieceAt | script.js:201-203 | piece k starts right after the k-th separator and runs to the next separator or to the end |
| JsStrings.SplitExample | script.js:201 | `"http://a.com/x"` splits into `"http:"`, `""`, `"a.com"`, `"x"` |
| JsStrings.Slice | script.js:205 | `slice(start, end)` is the substring when both ends are in range, the rest when `end` passes the end, and empty when `start >= end` or `start` is at or past the end |
| JsStrings.SliceFrom | script.js:206 | `slice(start)` is the rest of the string from `start`, or empty past the end |
| HostNames.SchemeYieldsThreeSegments | script.js:200-201 | a URL that contains "://" splits into at least three pieces, so piece 2 always exists |
| HostNames.PreStripHost | script.js:199-204 | the chosen piece contains no `/` and is no longer than the URL |
| HostNames.StripWww | script.js:205-207 | the result is a suffix of the host, no longer than it |
| HostNames.GetHostName | script.js:198-209 | the host name contains no `/` and is no longer than the URL |
| HostNames.HostAfterScheme | script.js:200-201 | with "://" present, the pre-strip host occurs in the URL right after a `/`, with exactly two `/` before it, and is followed by `/` or the end |
| HostNames.HostWithoutScheme | script.js:202-203 | without "://", the pre-strip host is the prefix before the first `/`, and the whole URL when it has no `/` |
| HostNames.StripWwwRemovesOnePrefix | script.js:205-207 | a host starting with "www." loses exactly those four characters; any other host, shorter ones included, is unchanged |
| HostNames.StripWwwAfterPrefix | script.js:205-207 | removing "www." undoes putting it in front |
| HostNames.StripWwwOnlyOnce | script.js:205-207 | "www.www.x" becomes "www.x", and only a second strip reaches "x": the strip is not idempotent |
| HostNames.HostNameIsSubstring | script.js:198-209 | the host name is a contiguous piece of the URL |
| HostNames.GetHostNameExample | script.js:198-209 | the host name of "http://a.com/x" is "a.com" |
| HostNames.EmptyHostExample | script.js:198-209 | with exactly one `/` before the "://", as in "a.com/r?u=http://x", piece 2 is the empty stretch inside "://", so the host name is empty |
| HostNames.EarlySlashesExample | script.js:198-209 | with two `/` before the "://", piece 2 lies before it: the host name of "a/b/c://x" is "c:" |
| Stars.ToggleClass | script.js:258 | toggling a class flips its membership and leaves every other class as it was |
| Stars.ToggleStar | script.js:258 | `toggleClass("far fas")` flips both `far` and `fas` and leaves every other class as it was |
| Stars.FavoriteCallFor | script.js:249-256 | the handler asks for an add exactly when `far` is present, and a remove otherwise, passing the clicked element's id |
| Stars.ToggleStarTwice | script.js:258 | two clicks restore the star's class list |
| Stars.ToggleStarKeepsOneStyle | script.js:258 | a star with exactly one of `far`/`fas` keeps exactly one, swapped, and stays a `fa-star` |
| Stars.FirstClickAdds | script.js:248-259 | a freshly rendered star (`far fa-star`, script.js:165) has exactly one style; its first click adds, leaves `fas fa-star`, and the next click removes |
| Stars.ClicksAlternate | script.js:251-258 | on any star, successive clicks alternate between add and remove |
| Stories.EntryOf | script.js:159-176 | an entry shows all of its story's fields, the host name of the story's URL and an outlined star |
| Stories.EntryOfWellFormed | script.js:160-165 | a rendered entry is well formed, and its host name holds no `/` |
| Stories.Entries | script.js:149-152 | the rendered list has one entry per story |
| Stories.EntriesAt | script.js:149-152 | entry i of the rendered list is the entry of story i, so the order is kept |
| Stories.StoriesOf | script.js:149-152 | the stories a list shows: one per entry, in order |
| Stories.EntriesAppend | script.js:149-152 | rendering one more story appends exactly its entry |
| Stories.EntriesPrefixStep | script.js:149-152 | one more turn of the `forEach` appends the next story's entry |
| Stories.StoriesOfEntries | script.js:149-152 | the rendered list shows exactly the stories it was built from, in their order |
| Stories.EntriesWellFormed | script.js:160-165 | every entry of a rendered list shows its URL's host name and a star with one style |
| Stories.StoriesOfAppend | script.js:243-246 | appending an entry appends its story to the stories shown |
| Stories.StoriesOfUpdate | script.js:258 | changing an entry's star leaves the stories shown unchanged |
| Stories.UpdateWellFormed | script.js:258 | replacing an entry by a well-formed one keeps the list well formed |
| Stories.StoryBoard.constructor | script.js:5 | before the first load there is no story list and nothing is displayed |
| Stories.StoryBoard.GenerateStories | script.js:140-153 | a rejected fetch changes nothing; otherwise `storyList` is replaced, the old entries are dropped and the list is exactly the entries of the fetched stories |
| Stories.StoryBoard.AppendStory | script.js:243-246 | the list grows by exactly the story's entry at the end, earlier entries and `storyList` unchanged |
| Stories.StoryBoard.ClickStar | script.js:248-259 | add exactly when the star was outlined, with an empty id; only that entry's star changes, by toggling `far` and `fas` |
| Session.LoginState.constructor | script.js:11-16 | logged in exactly when the stored token and username are both truthy; no user yet |
| Session.LoginState.Resume | script.js:35-37 | the resumed user object becomes `user`; a rejected call changes nothing; the flag is untouched |
| Session.LoginState.Login | script.js:61-64 | a successful login sets `user` and the flag; a rejected one changes nothing |
| Session.LoginState.CreateAccount | script.js:81-82 | a created account sets `user`, and the flag keeps its old value |
| Page.App.constructor | script.js:11-16 | the flag is set exactly when the stored token and username are both truthy; no user, no story list, nothing displayed, the page-load handler not yet run and no handler bound; the login state and the board are new objects |
| Page.App.DocumentReady | script.js:34-47 | runs once; logged in with the resume rejected: nothing else changes; otherwise `user` is set when resuming and the stories are generated from the fetch; the flag never changes; the handlers are bound exactly when the resume (if any) and the fetch both resolve |
| Page.App.Login | script.js:53-66 | once the handlers are bound, a successful login sets `user` and the flag; otherwise nothing changes |
| Page.App.CreateAccount | script.js:72-84 | once the handlers are bound, a created account sets `user`; the flag never changes |
| Page.App.ShowAllStories | script.js:110-114 | once the handlers are bound, the stories are generated again from the fetch; otherwise nothing changes |
| Page.App.SubmitStory | script.js:226-240 | once the handlers are bound, a created story's entry is appended; otherwise nothing changes; `storyList` is kept |
| Page.App.ClickStar | script.js:248-259 | a displayed star means the handlers are bound; the star handler runs: add exactly when outlined, with an empty id, and that star's `far`/`fas` toggled |
| Page.FirstVisit | script.js:248-259 | on a fresh page whose load fetches one story, the first click on its star adds the favourite and the second removes it |

## Left out

- Markup and DOM effects:
  - the HTML text of an entry, and the link target;
  - the host name used as a class of the `<small>` element;
  - showing, hiding and sliding the forms and the navigation (`loginAndSubmitForm`,
    `showNavForLoggedInUser`, `hideElements`, the login and create-story links), and resetting
    the forms.
  - Reason: they only change what is visible. An entry keeps the values the markup shows.
- HTML escaping: story fields go into the markup unescaped; the model keeps them as values.
- Logout (script.js:89-94): it clears `localStorage` and reloads the page, which is browser I/O.
  The model starts from the constructors instead.
- The API layer (`User.stayLoggedIn`, `User.login`, `User.create`, `StoryList.getStories`,
  `storyList.addStory`) is not part of this model. Its results are the handlers' `Option`
  inputs.
  - Page.App.SubmitStory: leaves `storyList` as it was. Whether `addStory` also adds the story to
    `storyList.stories` is decided in the API layer.
- Form fields: the username, password, name, author, title and url read from the forms only
  flow into API calls, so they are not modelled.
- `addFavorite` and `removeFavorite` (script.js:261-268) have empty bodies.
  - Stories.StoryBoard.ClickStar returns the call as a `FavoriteCall` value.
  - Its id argument is the clicked `<i>` element's `id`. The markup never sets that id, so it
    is the empty string, not the story's id.
- Handlers and a failed page load: the forms, links and stars get their handlers only after
  the page-load sequence has finished its awaits (script.js:34-47 come before every `.on` call).
  A rejected resume or fetch at page load leaves the page with no handlers and no stories
  shown. `Page.App` records this in its `bound` field, and every handler it models does nothing
  while `bound` is false. A star exists only once the stories are shown, so a click always finds
  its handler. `$(document).ready` fires once, so `DocumentReady` may be called only once
  (the `loaded` field).
  The class methods of `Session.LoginState` and `Stories.StoryBoard` are the handlers' bodies
  and do not check `bound` themselves.
- Concurrency: handlers that interleave at their `await`s are not modelled. Each handler runs
  as one step, with the results of its awaited calls fixed up front.
- Class lists are sets: the order of class names and repeated names are not modelled.
- JsStrings.Slice: the model takes only non-negative arguments; the script passes only 0 and 4.
- JsStrings.Split: the model covers only a one-character separator, the only one the script
  uses.
- Story fields are strings; a missing `url`, on which `indexOf` would throw, is not modelled.
- Strings are sequences of Unicode characters, while JavaScript strings are sequences of UTF-16
  code units. Lengths and `slice` indices therefore count differently for characters outside
  the Basic Multilingual Plane, and a lone surrogate cannot be represented. Every cut
  `getHostName` makes is next to an ASCII character (`/`, ":", "www."), so no host name
  differs.

What the script does not do:

- It has no per-story display variants (anonymous, unfavourited, favourited) and no ownership
  marker. Every star is rendered outlined, and a click only swaps the icon's classes.
- Its favourite calls do not reach the service: `addFavorite` and `removeFavorite` are empty.
  So nothing can fail, and the star is toggled on every click.
- Creating an account sets `user` but never sets `LOGGED_IN`.

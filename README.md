# Notes: session registry, note store and feed, in Dafny

A model of the core of a small note-taking web app. Users sign in with
GitHub, post short timestamped notes and read one feed of all notes. The
core has two versions, and both are modelled here:

- **Current version** (`notes/server.py`, `notes/db.py`, `notes/model.py`).
  A process-wide `session` dict maps session ids (`uuid4()`) to a user id.
  The GitHub callback resolves the profile to a `User` row and issues a
  session. `post_note` and `delete_note` are gated by `require_user_id`.
  `delete_note` checks, in order, that the note exists (404) and that the
  requester is its author (401). The SQL store is class `Db.DB`: two
  sequences of rows in query order, changed in place by `Add`/`Delete` and
  read by the `Get*` queries. The model keeps `.one()` (exactly one row or
  an error) apart from `.first()` (`None` when nothing matches).
- **Legacy version** (`notes/main.py`). The feed is a JSON list of
  `{timestamp, content}` records in `notes.json`. `load`/`save` sort it
  newest first with Python's stable sort. `add` appends and re-sorts.
  `delete_note` drops every note with a given timestamp and checks no
  authorization. This version has its own login dict.

Files:

- `wrappers.dfy`: `Option` and `Result`.
- `model.dfy`: UUIDs as 32 hex digits and their text form, `User`, `Note`
  and `User.link`. It also holds the Python view of a session dict, where a
  `UUID` key and a `str` key never compare equal.
- `db.dfy`: class `DB` and its queries, with lemmas about key uniqueness.
- `server.dfy`: class `App`, which holds the `session` map and the store,
  and the request handlers. `App.Valid()` is the invariant of every
  reachable state: the store's keys are unique, every note's `author_id` is
  a stored user, and every session names a stored user.
- `legacy.dfy`: `get_config`, the JSON feed (class `App` with the file as a
  field), its stable-sort specification, and the legacy sessions.

Nondeterminism is passed in. Fresh `uuid4()` values are parameters, and
their freshness is a precondition. `datetime.utcnow()` and
`datetime.now()` become an `Instant`/`int` parameter. The GitHub profile is
an input value.

Three behaviours of the code worth knowing:

- `get_notes` returns the reverse of the store's query order and never
  sorts by timestamp. The model takes query order to be insertion order.
  `Db.FeedNewestFirst` shows the feed is newest first only when notes were
  inserted with non-decreasing timestamps.
- Deleting another user's note answers 401, not 403.
- In the legacy feed, notes with equal timestamps keep their stored order.
  The sort is stable, so a newly added note comes after older notes with
  the same timestamp (`Legacy.AddedFeed`). It does not come first.

## Model

| member | source | states |
|---|---|---|
| `Model.NewUser` | notes/model.py:10-15 | a user made at login gets the supplied fresh id, no handle, and the profile's name, GitHub id and login |
| `Model.Link` | notes/model.py:18-22 | `/@<handle>` when the handle is non-empty, otherwise `/user/<str(id)>`; the second character tells which rule applied |
| `Model.LinkIdentifies` | notes/model.py:18-22 | equal links come from the same non-empty handle, or from two handle-less users with the same id |
| `Model.UuidTextInjective` | notes/model.py:22 | `str(id)` is injective: distinct UUIDs have distinct texts |
| `Model.SessionDict` | notes/server.py:95 | the Python `session` dict has a `UUID` key for each session id and no other keys |
| `Model.PopWithStrCookie` | notes/server.py:107 | `session.pop(session_id, None)` with a `str` cookie (also notes/main.py:252): it removes at most the `str` key named by the cookie; every `UUID` key and every kept value stay as they were |
| `Model.StrCookiePopKeepsSessions` | notes/server.py:101-108 | popping with the `str` cookie the callback set removes nothing: the session stays and still maps to its user |
| `Db.One` | notes/db.py:39-45 | `.one()` succeeds exactly when there is one row, and then gives that row; `NoResultFound` for none and `MultipleResultsFound` for two or more (used at lines 39 and 45) |
| `Db.First` | notes/db.py:59 | `.first()` gives `None` exactly when there is no row; otherwise a row of the result, the first one |
| `Db.DB.constructor` | notes/db.py:11-12 | the store opens holding exactly the rows it already has, with unique keys |
| `Db.DB.Add` | notes/db.py:18-22 | inserts the item with a fresh key, returns that same item, and changes only the table it belongs to |
| `Db.DB.Delete` | notes/db.py:24-26 | removes exactly the given row: the new table is the old one with the row at that row's position cut out, so the rest keep their order; the multiset loses exactly that row; keys stay unique |
| `Db.WithoutKeyAt` | notes/db.py:24-26 | when no other row has a row's key, deleting that key leaves exactly the rows before it followed by the rows after it |
| `Db.WithoutKeyAppend` | notes/db.py:24-26 | deletion works piece by piece, so the remaining rows keep their relative order |
| `Db.WithoutKeyRemovesOne` | notes/db.py:24-26 | with unique keys, deleting a present row's key removes that row and nothing else |
| `Db.DB.GetUserById` | notes/db.py:34-40 | `None` for a `None` id; for an id, success exactly when one user has it, and then that user; `NoResultFound` when none has it (never `None`) |
| `Db.UserLookupFinds` | notes/db.py:37-40 | in a valid store, looking up a stored user's id returns that user |
| `Db.DB.GetUserByGithubId` | notes/db.py:42-46 | success exactly when one user has the GitHub id; `NoResultFound` when no user has it |
| `Db.DB.GetNotes` | notes/db.py:48-52 | every stored note, none filtered out, in the reverse of query order |
| `Db.FeedNewestFirst` | notes/db.py:48-52 | if notes were inserted with non-decreasing timestamps, the feed is newest first |
| `Db.DB.GetNoteById` | notes/db.py:54-60 | `None` for a `None` id or an id no note has; otherwise a stored note with that id |
| `Db.NoteLookupFinds` | notes/db.py:57-60 | in a valid store, looking up a stored note's id returns that note |
| `Server.App.constructor` | notes/server.py:40 | the registry starts empty, and the reachable-state invariant holds for a store whose notes have existing authors |
| `Server.App.GetUserId` | notes/server.py:43-46 | `None` when the cookie is absent or names no session; otherwise exactly the stored user id |
| `Server.App.RequireUserId` | notes/server.py:49-56 | fails with 401 "Authentication required!" exactly when `get_user_id` gives `None`; otherwise the same id |
| `Server.App.GetIndex` | notes/server.py:111-126 | the whole feed for everyone; no user without a session; with one, the stored user with the session's id |
| `Server.IndexRenders` | notes/server.py:115-117 | in every reachable state the index page renders, with or without a session |
| `Server.App.GithubCallback` | notes/server.py:81-98 | as written: succeeds exactly when one user has the GitHub id, and then adds one session from the fresh id to that user's id; every other session is unchanged; it never creates a user; with no matching user it fails with `NoResultFound` and changes nothing |
| `Server.FirstWithGithubId` | notes/server.py:82 | the intended lookup: a user with the GitHub id, or `None` exactly when no user has it |
| `Server.LookupOrCreate` | notes/server.py:82-93 | the intended resolution: the user carries the GitHub id; at most one user is added, and only when none had the id; existing users are unchanged |
| `Server.LookupOrCreateIdempotent` | notes/server.py:82-95 | a second login with the same GitHub account resolves to the same user and creates none |
| `Server.App.GithubCallbackIntended` | notes/server.py:81-98 | the intended callback: the user table becomes what `LookupOrCreate` gives, and exactly one session from the fresh id to that user is added |
| `Server.App.Logout` | notes/server.py:101-108 | corrected (cookie read as `UUID`, see Findings): removes the cookie's session if present, never fails, leaves all other sessions unchanged; afterwards the cookie resolves to no user |
| `Server.App.PostNote` | notes/server.py:129-152 | 401 without a session and nothing changes; otherwise exactly one note is appended, with the fresh id, the current time, the submitted content and the requester as author; it heads the returned feed |
| `Server.App.DeleteNote` | notes/server.py:155-184 | 401 without a session; then 404 for an unknown id; then 401 for a non-author; the store is unchanged on each error; the author's delete removes exactly that note, keeps the rest in order, and the id is gone |
| `Legacy.GetConfig` | notes/main.py:32-57 | fails naming the first of DATA_PATH, GITHUB_CLIENT_ID, GITHUB_CLIENT_SECRET that is missing or empty; otherwise returns all five keys built from them |
| `Legacy.ParseIntDomain` | notes/main.py:89-91 | `int()` rejects the empty text, reads a run of digits as its value, accepts nothing but an optional sign followed by digits, and the result's sign follows the text's |
| `Legacy.ParseIntRoundTrip` | notes/main.py:89-91 | `int(str(n)) == n` for the text timestamps `int()` converts |
| `Legacy.SortDesc` | notes/main.py:89 | the sort's result is newest first and a permutation of its input |
| `Legacy.SortDescStable` | notes/main.py:89 | the sort is stable: notes with equal timestamps keep their relative order |
| `Legacy.SortDescOfSorted` | notes/main.py:95-96 | sorting a list that is already newest first leaves it unchanged |
| `Legacy.NormalizeSortDesc` | notes/main.py:89-91 | converting timestamps after the sort gives the same list as converting before it |
| `Legacy.Loaded` | notes/main.py:84-92 | `[]` without a file; an error exactly when some timestamp cannot be read by `int()`; otherwise a stable newest-first permutation of the stored notes with integer timestamps |
| `Legacy.App.Load` | notes/main.py:84-92 | the sort plus conversion loop computes `Loaded` of the file: sorted newest first, all timestamps integers, a permutation of the converted stored notes |
| `Legacy.App.Save` | notes/main.py:95-98 | the list becomes its stable newest-first sort, a permutation of itself, and the file holds exactly that list |
| `Legacy.App.Add` | notes/main.py:149-160 | a load error leaves the file alone; otherwise the result and the file are the loaded notes plus exactly one note with the content and time, sorted newest first |
| `Legacy.AddedFeed` | notes/main.py:150-160 | the added feed is sorted, is the old notes plus exactly the new one, and the new note follows older notes with its timestamp |
| `Legacy.Without` | notes/main.py:268 | keeps exactly the notes whose timestamp differs from the argument |
| `Legacy.WithoutSorted` | notes/main.py:268 | filtering a newest-first list leaves it newest first |
| `Legacy.WithoutAppend` | notes/main.py:268 | the filter works piece by piece, so the kept notes stay in their relative order |
| `Legacy.App.DeleteNote` | notes/main.py:265-272 | a load error leaves the file alone; otherwise the loaded notes without those with the timestamp, in order, are returned and written; no authorization is checked |
| `Legacy.App.GetUser` | notes/main.py:195-198 | corrected (cookie read as `UUID`, see Findings): `None` for a cookie that names no session, otherwise that session's GitHub login |
| `Legacy.App.Index` | notes/main.py:201-212 | corrected (cookie read as `UUID`, see Findings): renders exactly when loading succeeds, with the loaded feed and `get_user` of the cookie |
| `Legacy.App.Callback` | notes/main.py:236-245 | corrected (cookie read as `UUID`, see Findings): adds one session from the fresh id to the access token and profile; others are unchanged; the new cookie resolves to the profile's login |
| `Legacy.App.Logout` | notes/main.py:248-253 | corrected (cookie read as `UUID`, see Findings): pops the cookie's session if present, never fails, is idempotent; afterwards the cookie resolves to no user |
| `Legacy.GetUserAsWritten` | notes/main.py:195-198 | as written: a user is found exactly when the cookie is present and its `str` text is a key of the dict, and then it is that session's GitHub login |
| `Legacy.App.constructor` | notes/main.py:192 | the `session` dict starts empty and the notes file is as found on disk |
| `Legacy.GetUserAsWrittenNeverSignedIn` | notes/main.py:195-198 | as written, with `str` cookies and `UUID` keys, `get_user` returns `None` for every cookie |

## Left out

- The OAuth exchange with GitHub over `httpx` (notes/server.py:61-79, notes/main.py:217-235). It is network I/O, so the callback methods take the fetched profile (and, in the legacy version, the access token) as inputs. A failed exchange is not modelled.
- `uuid4()`, `datetime.utcnow()` and `datetime.now()`. Their values are parameters, and freshness of ids is a precondition. The legacy `int(datetime.now().timestamp())` is taken as an already-truncated integer.
- SQLAlchemy sessions, commits and the SQLite engine. The store is two sequences in insertion order. `Note`'s primary key is `(id, timestamp)`; the model keys notes by `id` alone, which fresh `uuid4()` ids make unique.
- `DB.get_users` (notes/db.py:28-32): no handler in the modelled core calls it.
- Foreign keys are not enforced by the store. "Every note's author exists" is instead the invariant `Server.App.Valid()`, which every server handler keeps.
- `Path.resolve()` in `get_config` depends on the file system and the working directory. `DbUrl` keeps the joined path unresolved.
- Reading and writing `notes.json` as JSON. The file is a sequence field; a missing file is `None`. Malformed JSON, encoding errors and non-number, non-string timestamps are not modelled.
- `Legacy.ParseInt`: covers an optional sign followed by ASCII digits. It leaves out the whitespace, underscores and non-ASCII digits that Python's `int()` also accepts, and the truncation of floats.
- Templates, routing, cookies, `Response` objects, static files and proxy middleware. A handler returns the data its template is rendered from, or the `HTTPException` it raises. A cookie that does not parse as a UUID (FastAPI's 422) is not modelled.
- notes/cli.py, notes/config.py, notes/utils.py and `Note.__str__`, and in notes/main.py the CalDAV `import` command, `populate`, the `server` command, the SQL `Note` table and `render_timestamp`. These are I/O, process launch, settings loading or formatting.
- The legacy `post_note` (notes/main.py:257-262) only calls `add`, so `Legacy.App.Add` covers it.
- `Server.App.Logout`, `Legacy.App.GetUser`, `Legacy.App.Index`, `Legacy.App.Callback`, `Legacy.App.Logout`: both `App` classes keep sessions keyed by `UUID` and read the cookie as a `UUID`, which is the corrected cookie type. The `str`-cookie behaviour of notes/server.py:103-107 and notes/main.py:195-198,249-252 is modelled only by `Model.PopWithStrCookie`, `Model.StrCookiePopKeepsSessions`, `Legacy.GetUserAsWritten` and `Legacy.GetUserAsWrittenNeverSignedIn` (see Findings).
- Concurrent requests: the model is sequential, so the race between two first logins is not represented.

## Findings

| source | as written | input that shows it | evidently intended | confidence | as-written member | corrected member |
|---|---|---|---|---|---|---|
| notes/db.py:45 (called at notes/server.py:82-93) | `get_user_by_github_id` uses `.one()`, which raises `NoResultFound` instead of returning `None`, so the callback's "create the user" branch never runs | the first login of any GitHub account that has no `User` row: the callback fails and no user or session is created | look the user up with `.first()` and create one when none exists | not executed; high | `Server.App.GithubCallback` | `Server.App.GithubCallbackIntended` |
| notes/server.py:103-107 | `get_logout` declares the cookie as `str`, but the session keys are `UUID` objects, so `session.pop` never finds the session | log in, then log out with the cookie the callback set: the session still maps to the user | declare the cookie as `UUID` (as `get_user_id` does) so the pop removes the session | not executed; high | `Model.StrCookiePopKeepsSessions` | `Server.App.Logout` |
| notes/main.py:195-198 (keys inserted at notes/main.py:236-241) | `get_user` and `get_logout` take the cookie as `str` while the keys are `UUID` objects, so no one is ever seen as signed in (the index always renders without a user, whatever the callback stored) and logout removes nothing (`Model.StrCookiePopKeepsSessions` holds for the legacy `Login` values too) | log in, then load `/` with the cookie the callback set: `get_user` returns `None` | look sessions up by the `UUID` the cookie carries | not executed; high | `Legacy.GetUserAsWrittenNeverSignedIn` | `Legacy.App.GetUser` |

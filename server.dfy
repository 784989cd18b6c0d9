/**
 * The request handlers of notes/server.py: the process-wide `session`
 * registry, identity resolution at the GitHub callback, and the feed
 * operations with their authorization checks, over the store of notes/db.py.
 */
module Server {
  import opened Wrappers
  import opened Model
  import opened Db

  /** `HTTPException(status_code, detail)`. */
  datatype HttpError = HttpError(status: nat, detail: string)

  const AuthenticationRequired := HttpError(401, "Authentication required!")
  const NoteDoesNotExist := HttpError(404, "Note does not exist!")
  const OnlyAuthorCanDelete := HttpError(401, "Only the author can delete the note!")

  /** What a handler renders: the feed and the signed-in user (if any). */
  datatype Page = Page(notes: seq<Note>, user: Option<User>)

  /** `.first()` over the users with a GitHub id. */
  function FirstWithGithubId(users: seq<User>, githubId: int): (r: Option<User>)
    ensures r.Some? ==> r.value in users && r.value.githubId == Some(githubId)
    ensures r.None? <==> forall u :: u in users ==> u.githubId != Some(githubId)
  {
    First(WithGithubId(users, githubId))
  }

  /**
   * The evidently intended identity resolution of the callback: the first
   * user with the profile's GitHub id, or else a new user built from the
   * profile. Returns that user and the user table afterwards.
   */
  function LookupOrCreate(users: seq<User>, profile: GithubProfile, newId: UserId): (res: (User, seq<User>))
    ensures res.0 in res.1 && res.0.githubId == Some(profile.id)
    ensures |users| <= |res.1| <= |users| + 1 && res.1[..|users|] == users
    ensures |res.1| == |users| + 1 <==> forall u :: u in users ==> u.githubId != Some(profile.id)
    ensures |res.1| == |users| + 1 ==> res.0 == NewUser(newId, profile)
  {
    match FirstWithGithubId(users, profile.id)
    case Some(u) => (u, users)
    case None => var u := NewUser(newId, profile); (u, users + [u])
  }

  /**
   * Logging in twice with the same GitHub account resolves to the same user
   * and creates no second one.
   */
  lemma LookupOrCreateIdempotent(users: seq<User>, profile: GithubProfile, id1: UserId, id2: UserId)
    ensures var (u, users') := LookupOrCreate(users, profile, id1);
            LookupOrCreate(users', profile, id2) == (u, users')
  {
    var (u, users') := LookupOrCreate(users, profile, id1);
    if FirstWithGithubId(users, profile.id).None? {
      assert users' == users + [u];
      WithGithubIdAppend(users, u, profile.id);
    }
  }

  lemma {:induction false} WithGithubIdAppend(users: seq<User>, u: User, githubId: int)
    requires forall v :: v in users ==> v.githubId != Some(githubId)
    requires u.githubId == Some(githubId)
    ensures WithGithubId(users + [u], githubId) == [u]
  {
    if users == [] {
      assert WithGithubId([u], githubId) == [u] + WithGithubId([], githubId);
    } else {
      assert (users + [u])[1..] == users[1..] + [u];
      WithGithubIdAppend(users[1..], u, githubId);
    }
  }

  class App {
    /** The module-level `db` store. */
    const db: DB
    /** The module-level `session` dict: session id to `{"user_id": ...}`. */
    var session: map<Token, UserId>

    /**
     * The states the handlers can reach: the store is valid, every note's
     * author is a stored user, and every session names a stored user.
     */
    ghost predicate Valid()
      reads this, db
    {
      && db.Valid()
      && (forall n :: n in db.notes ==> n.authorId in Keys(db.users, UserKey))
      && (forall t :: t in session ==> session[t] in Keys(db.users, UserKey))
    }

    /** Process start: the store as found on disk, and no sessions. */
    constructor (db: DB)
      requires db.Valid()
      requires forall n :: n in db.notes ==> n.authorId in Keys(db.users, UserKey)
      ensures Valid() && this.db == db && session == map[]
    {
      this.db := db;
      session := map[];
    }

    /**
     * `get_user_id`: `None` when there is no cookie or it names no session,
     * otherwise exactly the stored `user_id`.
     */
    function GetUserId(cookie: Option<Token>): (r: Option<UserId>)
      reads this
      ensures r.Some? <==> cookie.Some? && cookie.value in session
      ensures r.Some? ==> r.value == session[cookie.value]
    {
      if cookie.None? || cookie.value !in session then None else Some(session[cookie.value])
    }

    /** `require_user_id`: 401 exactly when `get_user_id` gives `None`, else the same id. */
    function RequireUserId(cookie: Option<Token>): (r: Result<UserId, HttpError>)
      reads this
      ensures r.Err? <==> GetUserId(cookie).None?
      ensures r.Err? ==> r.error == AuthenticationRequired && r.error.status == 401
      ensures r.Ok? ==> GetUserId(cookie) == Some(r.value)
    {
      var userId := GetUserId(cookie);
      if userId.None? then Err(AuthenticationRequired) else Ok(userId.value)
    }

    /**
     * `get_index`: the whole feed, public, and the signed-in user looked up
     * with `get_user_by_id`.
     */
    function GetIndex(cookie: Option<Token>): (r: Result<Page, QueryError>)
      reads this, db
      ensures r.Ok? ==> r.value.notes == db.GetNotes()
      ensures GetUserId(cookie).None? ==> r == Ok(Page(db.GetNotes(), None))
      ensures r.Ok? && GetUserId(cookie).Some? ==>
                r.value.user.Some? && r.value.user.value in db.users && r.value.user.value.id == GetUserId(cookie).value
    {
      match db.GetUserById(GetUserId(cookie))
      case Ok(user) => Ok(Page(db.GetNotes(), user))
      case Err(e) => Err(e)
    }

    /**
     * `github_callback` as written, once the profile is fetched: the user is
     * looked up with `.one()`, which raises instead of returning `None`, so
     * the branch that would create the user is never taken. On success one
     * session `token -> user.id` is added; nothing else changes.
     */
    method GithubCallback(profile: GithubProfile, token: Token) returns (r: Result<Token, QueryError>)
      requires Valid() && token !in session
      modifies this
      ensures Valid() && db.users == old(db.users) && db.notes == old(db.notes)
      ensures r.Ok? <==> |WithGithubId(db.users, profile.id)| == 1
      ensures r.Ok? ==> r.value == token
      ensures r.Ok? ==> session == old(session)[token := db.GetUserByGithubId(profile.id).value.id]
      ensures r.Err? ==> session == old(session)
      ensures (forall u :: u in db.users ==> u.githubId != Some(profile.id)) ==> r == Err(NoResultFound)
    {
      var found := db.GetUserByGithubId(profile.id);
      if found.Err? {
        return Err(found.error);
      }
      var user := found.value;
      assert user.id in Keys(db.users, UserKey);
      session := session[token := user.id];
      r := Ok(token);
    }

    /**
     * The callback as evidently intended: a returning user is found with
     * `.first()`, a new account gets a new user; either way one session
     * `token -> user.id` is added and existing sessions are unchanged.
     */
    method GithubCallbackIntended(profile: GithubProfile, token: Token, newUserId: UserId) returns (r: Token)
      requires Valid() && token !in session && newUserId !in Keys(db.users, UserKey)
      modifies this, db
      ensures Valid() && r == token && db.notes == old(db.notes)
      ensures db.users == LookupOrCreate(old(db.users), profile, newUserId).1
      ensures session == old(session)[token := LookupOrCreate(old(db.users), profile, newUserId).0.id]
    {
      var user;
      var existing := FirstWithGithubId(db.users, profile.id);
      if existing.Some? {
        user := existing.value;
      } else {
        var added := db.Add(UserItem(NewUser(newUserId, profile)));
        user := added.user;
      }
      assert user in db.users;
      session := session[token := user.id];
      r := token;
    }

    /**
     * `get_logout`, keyed by the session id: remove the cookie's session if
     * there is one, never fail, leave every other session alone.
     */
    method Logout(cookie: Option<Token>)
      requires Valid()
      modifies this
      ensures Valid()
      ensures session == if cookie.Some? then old(session) - {cookie.value} else old(session)
      ensures GetUserId(cookie).None? && RequireUserId(cookie) == Err(AuthenticationRequired)
    {
      if cookie.Some? {
        session := session - {cookie.value};
      }
    }

    /**
     * `post_note`: 401 without a session; otherwise exactly one note is
     * added, authored by the signed-in user with the submitted content,
     * and it heads the returned feed.
     */
    method PostNote(cookie: Option<Token>, content: string, noteId: NoteId, now: Instant) returns (r: Result<Page, HttpError>)
      requires Valid() && noteId !in Keys(db.notes, NoteKey)
      modifies db
      ensures Valid() && db.users == old(db.users)
      ensures r.Err? <==> GetUserId(cookie).None?
      ensures r.Err? ==> r.error == AuthenticationRequired && db.notes == old(db.notes)
      ensures r.Ok? ==>
                var note := Note(noteId, now, content, GetUserId(cookie).value);
                && db.notes == old(db.notes) + [note]
                && r.value.notes == db.GetNotes() && r.value.notes[0] == note
                && r.value.user.Some? && r.value.user.value.id == note.authorId
    {
      var auth := RequireUserId(cookie);
      if auth.Err? {
        return Err(auth.error);
      }
      var userId := auth.value;
      var lookup := db.GetUserById(Some(userId));
      ghost var author :| author in db.users && author.id == userId;
      UserLookupFinds(db, author);
      var _ := db.Add(NoteItem(Note(noteId, now, content, userId)));
      r := Ok(Page(db.GetNotes(), lookup.value));
    }

    /**
     * `delete_note`: 401 without a session, then 404 for an unknown note,
     * then 401 for a requester who is not the author; the store is
     * unchanged on every error. The author's delete removes exactly that
     * note and keeps the others in order.
     */
    method DeleteNote(cookie: Option<Token>, noteId: NoteId) returns (r: Result<Page, HttpError>)
      requires Valid()
      modifies db
      ensures Valid() && db.users == old(db.users)
      ensures GetUserId(cookie).None? ==> r == Err(AuthenticationRequired)
      ensures GetUserId(cookie).Some? && noteId !in old(Keys(db.notes, NoteKey)) ==> r == Err(NoteDoesNotExist)
      ensures (GetUserId(cookie).Some? && old(db.GetNoteById(Some(noteId))).Some?
               && old(db.GetNoteById(Some(noteId))).value.authorId != GetUserId(cookie).value) ==> r == Err(OnlyAuthorCanDelete)
      ensures r.Err? ==> db.notes == old(db.notes)
      ensures r.Ok? <==> GetUserId(cookie).Some? && old(db.GetNoteById(Some(noteId))).Some?
                         && old(db.GetNoteById(Some(noteId))).value.authorId == GetUserId(cookie).value
      ensures r.Ok? ==>
                && db.notes == WithoutKey(old(db.notes), NoteKey, noteId)
                && multiset(db.notes) == multiset(old(db.notes)) - multiset{old(db.GetNoteById(Some(noteId))).value}
                && noteId !in Keys(db.notes, NoteKey)
                && r.value.notes == db.GetNotes()
    {
      var auth := RequireUserId(cookie);
      if auth.Err? {
        return Err(auth.error);
      }
      var userId := auth.value;
      var note := db.GetNoteById(Some(noteId));
      if note.None? {
        return Err(NoteDoesNotExist);
      }
      if userId != note.value.authorId {
        return Err(OnlyAuthorCanDelete);
      }
      db.Delete(NoteItem(note.value));
      var lookup := db.GetUserById(Some(userId));
      ghost var requester :| requester in db.users && requester.id == userId;
      UserLookupFinds(db, requester);
      r := Ok(Page(db.GetNotes(), lookup.value));
    }
  }

  /** In every reachable state the index page renders, signed in or not. */
  lemma IndexRenders(app: App, cookie: Option<Token>)
    requires app.Valid()
    ensures app.GetIndex(cookie).Ok?
  {
    if app.GetUserId(cookie).Some? {
      var userId := app.GetUserId(cookie).value;
      var u :| u in app.db.users && u.id == userId;
      UserLookupFinds(app.db, u);
    }
  }
}

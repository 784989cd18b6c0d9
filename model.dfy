/**
 * The record shapes of notes/model.py: `User` and `Note`, their identifiers,
 * and the `User.link` property.
 */
module Model {
  import opened Wrappers

  /** One hexadecimal digit of a UUID. */
  newtype Nibble = x: int | 0 <= x < 16

  /** A UUID as its 32 hexadecimal digits, most significant first. */
  type Uuid = s: seq<Nibble> | |s| == 32 witness seq(32, _ => 0 as Nibble)

  type UserId = Uuid
  type NoteId = Uuid

  /** A session id: `uuid4()` issued at login and sent back as the `session_id` cookie. */
  type Token = Uuid

  /** A server-side clock reading (`datetime.utcnow()`); only its order matters here. */
  type Instant = int

  /**
   * A `user` row. `handle` has no default and is `None` for users created
   * at login; `github_id` and `github_login` come from the GitHub profile.
   */
  datatype User = User(
    id: UserId,
    handle: Option<string>,
    name: string,
    githubId: Option<int>,
    githubLogin: Option<string>)

  /** A `note` row; `author_id` is a foreign key to `user.id`. */
  datatype Note = Note(id: NoteId, timestamp: Instant, content: string, authorId: UserId)

  /** The fields of the GitHub `/user` profile the login uses. */
  datatype GithubProfile = GithubProfile(id: int, login: string, name: string)

  /**
   * `User(name=..., github_id=..., github_login=...)`: the `id` default
   * factory supplies `id` (a fresh `uuid4()`, passed in here) and `handle`
   * defaults to `None`.
   */
  function NewUser(id: UserId, profile: GithubProfile): (u: User)
    ensures u.id == id && u.handle == None
    ensures u.name == profile.name
    ensures u.githubId == Some(profile.id) && u.githubLogin == Some(profile.login)
  {
    User(id, None, profile.name, Some(profile.id), Some(profile.login))
  }

  /** Lower-case hexadecimal digit, as `str(UUID)` writes it. */
  function HexChar(d: Nibble): char
  {
    if d < 10 then ('0' as int + d as int) as char else ('a' as int + d as int - 10) as char
  }

  lemma HexCharInjective(d: Nibble, e: Nibble)
    requires HexChar(d) == HexChar(e)
    ensures d == e
  {
  }

  function HexText(s: seq<Nibble>): (r: string)
    ensures |r| == |s|
    ensures forall i :: 0 <= i < |s| ==> r[i] == HexChar(s[i])
  {
    seq(|s|, i requires 0 <= i < |s| => HexChar(s[i]))
  }

  /** `str(UUID)`: 32 hex digits in groups of 8-4-4-4-12 separated by dashes. */
  function UuidText(u: Uuid): (r: string)
    ensures |r| == 36
    ensures r[8] == '-' && r[13] == '-' && r[18] == '-' && r[23] == '-'
  {
    var h := HexText(u);
    h[..8] + "-" + h[8..12] + "-" + h[12..16] + "-" + h[16..20] + "-" + h[20..]
  }

  /** Where the i-th hex digit of a UUID lands in its text. */
  function TextPosition(i: nat): nat
  {
    if i < 8 then i else if i < 12 then i + 1 else if i < 16 then i + 2 else if i < 20 then i + 3 else i + 4
  }

  lemma UuidTextAt(u: Uuid, i: nat)
    requires i < 32
    ensures TextPosition(i) < 36 && UuidText(u)[TextPosition(i)] == HexChar(u[i])
  {
    var h := HexText(u);
    assert UuidText(u) == h[..8] + "-" + h[8..12] + "-" + h[12..16] + "-" + h[16..20] + "-" + h[20..];
  }

  /** Distinct UUIDs have distinct texts, so `str(id)` identifies the id. */
  lemma {:induction false} UuidTextInjective(u: Uuid, v: Uuid)
    requires UuidText(u) == UuidText(v)
    ensures u == v
  {
    forall i | 0 <= i < 32
      ensures u[i] == v[i]
    {
      UuidTextAt(u, i);
      UuidTextAt(v, i);
      HexCharInjective(u[i], v[i]);
    }
  }

  /** Python truthiness of `self.handle`: present and non-empty. */
  predicate HasHandle(u: User)
  {
    u.handle.Some? && u.handle.value != ""
  }

  /**
   * `User.link`: `/@<handle>` for a user with a non-empty handle, otherwise
   * `/user/<id>`. The second character tells which rule applied.
   */
  function Link(u: User): (r: string)
    ensures |r| >= 2 && (HasHandle(u) <==> r[1] == '@')
    ensures HasHandle(u) ==> r[..2] == "/@" && r[2..] == u.handle.value
    ensures !HasHandle(u) ==> |r| == 42 && r[..6] == "/user/" && r[6..] == UuidText(u.id)
  {
    if HasHandle(u) then "/@" + u.handle.value else "/user/" + UuidText(u.id)
  }

  /**
   * A link identifies the user it was made for: equal links come from the
   * same non-empty handle, or from two handle-less users with the same id.
   */
  lemma LinkIdentifies(u: User, v: User)
    requires Link(u) == Link(v)
    ensures HasHandle(u) == HasHandle(v)
    ensures HasHandle(u) ==> u.handle == v.handle
    ensures !HasHandle(u) ==> u.id == v.id
  {
    if !HasHandle(u) && !HasHandle(v) {
      assert UuidText(u.id) == Link(u)[6..] == Link(v)[6..] == UuidText(v.id);
      UuidTextInjective(u.id, v.id);
    }
  }

  /**
   * A key of a Python `session` dict: the `UUID` object `uuid4()` returns,
   * or a `str`. The two never compare equal.
   */
  datatype DictKey = UuidKey(uuid: Uuid) | StrKey(text: string)

  /** A session registry as the Python dict holds it, keyed by `UUID` objects. */
  function SessionDict<V>(session: map<Token, V>): (d: map<DictKey, V>)
    ensures forall t :: t in session <==> UuidKey(t) in d
    ensures forall k :: k in d ==> k.UuidKey? && k.uuid in session && d[k] == session[k.uuid]
  {
    map t | t in session :: UuidKey(t) := session[t]
  }

  /**
   * `session.pop(session_id, None)` with the cookie declared `str`: the key
   * looked for is a `str`, whatever the dict holds.
   */
  function PopWithStrCookie<V>(d: map<DictKey, V>, cookie: Option<string>): (r: map<DictKey, V>)
    ensures cookie.Some? ==> StrKey(cookie.value) !in r
    ensures forall k :: k in r <==> k in d && (cookie.None? || k != StrKey(cookie.value))
    ensures forall k :: k in r ==> r[k] == d[k]
    ensures forall t :: UuidKey(t) in r <==> UuidKey(t) in d
  {
    if cookie.Some? then d - {StrKey(cookie.value)} else d
  }

  /**
   * A `str` cookie never matches a `UUID` key: popping with the text the
   * callback put in the cookie leaves every session, that one included, in
   * place.
   */
  lemma StrCookiePopKeepsSessions<V>(session: map<Token, V>, t: Token)
    requires t in session
    ensures var d := PopWithStrCookie(SessionDict(session), Some(UuidText(t)));
            d == SessionDict(session) && UuidKey(t) in d && d[UuidKey(t)] == session[t]
  {
  }
}

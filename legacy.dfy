/**
 * The earlier single-file version of the app, notes/main.py: configuration
 * checking, a feed kept as a JSON list in `notes.json` sorted newest first,
 * and its own login registry. The JSON file is the `file` field of class
 * `App`; `None` stands for a file that does not exist.
 */
module Legacy {
  import opened Wrappers
  import opened Model

  // ---------------------------------------------------------------- config

  /** `Path(dir) / name`. */
  datatype Path = Joined(dir: string, name: string)

  /** `f"sqlite:///{path.resolve()}"`. */
  datatype DbUrl = SqliteUrl(path: Path)

  /** The five keys `get_config` returns. */
  datatype Config = Config(
    dbUrl: DbUrl,
    notesDataPath: Path,
    usersDataPath: Path,
    githubClientId: string,
    githubClientSecret: string)

  /** The `EnvironmentError` raised for a variable that is not set. */
  datatype ConfigError = MissingVariable(name: string)

  const DataPath := "DATA_PATH"
  const GithubClientId := "GITHUB_CLIENT_ID"
  const GithubClientSecret := "GITHUB_CLIENT_SECRET"

  /** `os.getenv(name)` is truthy: present and not empty. */
  predicate IsSet(env: map<string, string>, name: string)
  {
    name in env && env[name] != ""
  }

  /**
   * `get_config`: refuses, naming the first variable in the order
   * DATA_PATH, GITHUB_CLIENT_ID, GITHUB_CLIENT_SECRET that is missing or
   * empty; otherwise all five keys, built from the variables.
   */
  function GetConfig(env: map<string, string>): (r: Result<Config, ConfigError>)
    ensures r.Ok? <==> IsSet(env, DataPath) && IsSet(env, GithubClientId) && IsSet(env, GithubClientSecret)
    ensures !IsSet(env, DataPath) ==> r == Err(MissingVariable(DataPath))
    ensures IsSet(env, DataPath) && !IsSet(env, GithubClientId) ==> r == Err(MissingVariable(GithubClientId))
    ensures IsSet(env, DataPath) && IsSet(env, GithubClientId) && !IsSet(env, GithubClientSecret) ==>
              r == Err(MissingVariable(GithubClientSecret))
    ensures r.Ok? ==>
              && r.value.githubClientId == env[GithubClientId]
              && r.value.githubClientSecret == env[GithubClientSecret]
              && r.value.notesDataPath == Joined(env[DataPath], "notes.json")
              && r.value.usersDataPath == Joined(env[DataPath], "users.json")
              && r.value.dbUrl == SqliteUrl(Joined(env[DataPath], "notes.db"))
  {
    if !IsSet(env, DataPath) then Err(MissingVariable(DataPath))
    else
      var dataPath := env[DataPath];
      if !IsSet(env, GithubClientId) then Err(MissingVariable(GithubClientId))
      else if !IsSet(env, GithubClientSecret) then Err(MissingVariable(GithubClientSecret))
      else Ok(Config(
        SqliteUrl(Joined(dataPath, "notes.db")),
        Joined(dataPath, "notes.json"),
        Joined(dataPath, "users.json"),
        env[GithubClientId],
        env[GithubClientSecret]))
  }

  // ------------------------------------------------------------ int(text)

  predicate IsDigit(c: char) { '0' <= c <= '9' }

  predicate AllDigits(s: string)
  {
    forall i :: 0 <= i < |s| ==> IsDigit(s[i])
  }

  /** The value of a string of decimal digits. */
  function DigitsValue(s: string): nat
    requires AllDigits(s)
  {
    if s == [] then 0 else DigitsValue(s[..|s| - 1]) * 10 + (s[|s| - 1] as int - '0' as int)
  }

  /** `int(text)` for an optional sign followed by ASCII digits; `None` where Python raises `ValueError`. */
  function ParseInt(s: string): Option<int>
  {
    if |s| >= 2 && s[0] == '-' && AllDigits(s[1..]) then Some(-(DigitsValue(s[1..]) as int))
    else if |s| >= 2 && s[0] == '+' && AllDigits(s[1..]) then Some(DigitsValue(s[1..]))
    else if |s| >= 1 && AllDigits(s) then Some(DigitsValue(s))
    else None
  }

  /**
   * What `int()` accepts and what it gives: nothing for the empty text, the
   * plain value for a run of digits, and otherwise only a sign followed by
   * digits, with the sign of the result following the text's.
   */
  lemma ParseIntDomain(s: string)
    ensures s == [] ==> ParseInt(s) == None
    ensures |s| >= 1 && AllDigits(s) ==> ParseInt(s) == Some(DigitsValue(s))
    ensures ParseInt(s).Some? ==> |s| >= 1 && AllDigits(s[1..]) && (IsDigit(s[0]) || s[0] == '-' || s[0] == '+')
    ensures ParseInt(s).Some? && s[0] == '-' ==> ParseInt(s).value <= 0
    ensures ParseInt(s).Some? && s[0] != '-' ==> ParseInt(s).value >= 0
  {
  }

  function DigitChar(d: nat): char
    requires d < 10
  {
    ('0' as int + d) as char
  }

  function NatText(n: nat): (r: string)
    ensures |r| >= 1 && AllDigits(r)
  {
    if n < 10 then [DigitChar(n)] else NatText(n / 10) + [DigitChar(n % 10)]
  }

  /** `str(n)` for an integer. */
  function DecimalText(n: int): string
  {
    if n < 0 then "-" + NatText(-n) else NatText(n)
  }

  lemma {:induction false} NatTextValue(n: nat)
    ensures DigitsValue(NatText(n)) == n
  {
    if n >= 10 {
      NatTextValue(n / 10);
      var s := NatText(n);
      assert s[..|s| - 1] == NatText(n / 10);
    }
  }

  /** `int(str(n)) == n`: a timestamp written as text reads back as the same integer. */
  lemma ParseIntRoundTrip(n: int)
    ensures ParseInt(DecimalText(n)) == Some(n)
  {
    if n < 0 {
      NatTextValue(-n);
      assert DecimalText(n)[1..] == NatText(-n);
    } else {
      NatTextValue(n);
    }
  }

  // ------------------------------------------------------------ the feed

  /** A JSON `timestamp` value: a number, or a string that `int()` may read. */
  datatype JsonTimestamp = JInt(n: int) | JText(text: string)

  /** One `{"timestamp": ..., "content": ...}` record of `notes.json`. */
  datatype JsonNote = JsonNote(timestamp: JsonTimestamp, content: string)

  /** `int(note["timestamp"])`, or `None` where it raises. */
  function IntOf(t: JsonTimestamp): Option<int>
  {
    match t
    case JInt(n) => Some(n)
    case JText(s) => ParseInt(s)
  }

  /** Every timestamp can be read by `int()`. */
  predicate Convertible(notes: seq<JsonNote>)
  {
    forall n :: n in notes ==> IntOf(n.timestamp).Some?
  }

  /** Every timestamp is already an integer. */
  predicate AllInt(notes: seq<JsonNote>)
  {
    forall n :: n in notes ==> n.timestamp.JInt?
  }

  /** The sort key's timestamp (`-key` is what the source sorts on ascending). */
  function Key(n: JsonNote): int
  {
    match IntOf(n.timestamp)
    case Some(k) => k
    case None => 0
  }

  /** Newest first. */
  predicate SortedDesc(s: seq<JsonNote>)
  {
    forall i, j :: 0 <= i < j < |s| ==> Key(s[i]) >= Key(s[j])
  }

  /** The notes with timestamp `k`, in their order in `s`. */
  function WithTimestamp(s: seq<JsonNote>, k: int): seq<JsonNote>
  {
    if s == [] then [] else (if Key(s[0]) == k then [s[0]] else []) + WithTimestamp(s[1..], k)
  }

  /** Put `x` in front of the first note that is not newer than it. */
  function Insert(x: JsonNote, s: seq<JsonNote>): (r: seq<JsonNote>)
    ensures multiset(r) == multiset(s) + multiset{x}
  {
    if s == [] then [x]
    else if Key(s[0]) <= Key(x) then [x] + s
    else
      assert s == [s[0]] + s[1..];
      [s[0]] + Insert(x, s[1..])
  }

  /** In a newest-first list, no later note is newer than the first. */
  lemma HeadBound(s: seq<JsonNote>)
    requires SortedDesc(s) && s != []
    ensures forall y :: y in s[1..] ==> Key(y) <= Key(s[0])
  {
    forall y | y in s[1..]
      ensures Key(y) <= Key(s[0])
    {
      var k :| 0 <= k < |s[1..]| && s[1..][k] == y;
      assert s[k + 1] == y;
    }
  }

  /** A note no older than every note of a newest-first list can go in front. */
  lemma SortedCons(x: JsonNote, s: seq<JsonNote>)
    requires SortedDesc(s)
    requires forall y :: y in s ==> Key(y) <= Key(x)
    ensures SortedDesc([x] + s)
  {
    var r := [x] + s;
    forall i, j | 0 <= i < j < |r|
      ensures Key(r[i]) >= Key(r[j])
    {
      assert r[j] == s[j - 1];
      if i == 0 {
        assert s[j - 1] in s;
      } else {
        assert r[i] == s[i - 1];
      }
    }
  }

  lemma {:induction false} InsertSorted(x: JsonNote, s: seq<JsonNote>)
    requires SortedDesc(s)
    ensures SortedDesc(Insert(x, s))
  {
    if s == [] {
      assert Insert(x, s) == [x];
    } else if Key(s[0]) <= Key(x) {
      HeadBound(s);
      assert s == [s[0]] + s[1..];
      SortedCons(x, s);
    } else {
      var tail := s[1..];
      InsertSorted(x, tail);
      HeadBound(s);
      var rest := Insert(x, tail);
      forall y | y in rest
        ensures Key(y) <= Key(s[0])
      {
        assert y in multiset(rest);
      }
      SortedCons(s[0], rest);
    }
  }

  /**
   * `notes.sort(key=lambda note: -int(note["timestamp"]))`: Python's sort is
   * stable, so this is the stable sort newest first.
   */
  function SortDesc(s: seq<JsonNote>): (r: seq<JsonNote>)
    ensures SortedDesc(r) && multiset(r) == multiset(s)
  {
    if s == [] then []
    else
      assert s == [s[0]] + s[1..];
      InsertSorted(s[0], SortDesc(s[1..]));
      Insert(s[0], SortDesc(s[1..]))
  }

  lemma {:induction false} InsertWithTimestamp(x: JsonNote, s: seq<JsonNote>, k: int)
    ensures WithTimestamp(Insert(x, s), k) == if Key(x) == k then [x] + WithTimestamp(s, k) else WithTimestamp(s, k)
  {
    if s == [] {
      assert WithTimestamp([x], k) == (if Key(x) == k then [x] else []) + WithTimestamp([], k);
    } else if Key(s[0]) <= Key(x) {
      assert ([x] + s)[1..] == s;
    } else {
      assert ([s[0]] + Insert(x, s[1..]))[1..] == Insert(x, s[1..]);
      InsertWithTimestamp(x, s[1..], k);
    }
  }

  /** The sort is stable: notes with equal timestamps keep their order. */
  lemma {:induction false} SortDescStable(s: seq<JsonNote>, k: int)
    ensures WithTimestamp(SortDesc(s), k) == WithTimestamp(s, k)
  {
    if s != [] {
      var sortedTail := SortDesc(s[1..]);
      SortDescStable(s[1..], k);
      InsertWithTimestamp(s[0], sortedTail, k);
      assert SortDesc(s) == Insert(s[0], sortedTail);
    }
  }

  /** Sorting a list that is already newest first changes nothing. */
  lemma {:induction false} SortDescOfSorted(s: seq<JsonNote>)
    requires SortedDesc(s)
    ensures SortDesc(s) == s
  {
    if s != [] {
      SortDescOfSorted(s[1..]);
      assert s == [s[0]] + s[1..];
    }
  }

  lemma {:induction false} WithTimestampAppend(a: seq<JsonNote>, b: seq<JsonNote>, k: int)
    ensures WithTimestamp(a + b, k) == WithTimestamp(a, k) + WithTimestamp(b, k)
  {
    if a == [] {
      assert a + b == b;
    } else {
      assert (a + b)[1..] == a[1..] + b;
      WithTimestampAppend(a[1..], b, k);
    }
  }

  /** `note["timestamp"] = int(note["timestamp"])`. */
  function NormalizeNote(n: JsonNote): JsonNote
  {
    n.(timestamp := JInt(Key(n)))
  }

  function Normalize(s: seq<JsonNote>): (r: seq<JsonNote>)
    ensures |r| == |s| && forall i :: 0 <= i < |s| ==> r[i] == NormalizeNote(s[i])
  {
    seq(|s|, i requires 0 <= i < |s| => NormalizeNote(s[i]))
  }

  lemma {:induction false} NormalizeInsert(x: JsonNote, s: seq<JsonNote>)
    ensures Normalize(Insert(x, s)) == Insert(NormalizeNote(x), Normalize(s))
  {
    if s != [] && Key(s[0]) > Key(x) {
      NormalizeInsert(x, s[1..]);
      assert Normalize(s)[1..] == Normalize(s[1..]);
      assert Normalize([s[0]] + Insert(x, s[1..])) == [NormalizeNote(s[0])] + Normalize(Insert(x, s[1..]));
    } else if s != [] {
      assert Normalize([x] + s) == [NormalizeNote(x)] + Normalize(s);
    } else {
      assert Normalize([x]) == [NormalizeNote(x)];
    }
  }

  /** Converting the timestamps after sorting is the same as before sorting. */
  lemma {:induction false} NormalizeSortDesc(s: seq<JsonNote>)
    ensures Normalize(SortDesc(s)) == SortDesc(Normalize(s))
  {
    if s != [] {
      NormalizeSortDesc(s[1..]);
      NormalizeInsert(s[0], SortDesc(s[1..]));
      assert Normalize(s)[1..] == Normalize(s[1..]);
    }
  }

  lemma SortDescConvertible(s: seq<JsonNote>)
    requires Convertible(s)
    ensures Convertible(SortDesc(s))
  {
    forall n | n in SortDesc(s)
      ensures IntOf(n.timestamp).Some?
    {
      assert n in multiset(SortDesc(s));
    }
  }

  lemma NormalizedLoop(notes: seq<JsonNote>, sorted: seq<JsonNote>)
    requires |notes| == |sorted|
    requires forall j :: 0 <= j < |notes| ==> notes[j] == NormalizeNote(sorted[j])
    ensures notes == Normalize(sorted)
  {
  }

  /** `int()` raised while loading. */
  datatype LoadError = InvalidTimestamp

  /**
   * What `load` returns for the file's contents: `[]` for a missing file,
   * an error if some timestamp cannot be read by `int()`, otherwise the
   * stored notes sorted newest first (stable for ties) with integer
   * timestamps.
   */
  function Loaded(file: Option<seq<JsonNote>>): (r: Result<seq<JsonNote>, LoadError>)
    ensures file.None? ==> r == Ok([])
    ensures file.Some? ==> (r.Ok? <==> Convertible(file.value))
    ensures r.Ok? ==> SortedDesc(r.value) && AllInt(r.value)
    ensures r.Ok? && file.Some? ==> multiset(r.value) == multiset(Normalize(file.value))
    ensures r.Ok? && file.Some? ==> forall k :: WithTimestamp(r.value, k) == WithTimestamp(Normalize(file.value), k)
  {
    if file.None? then Ok([])
    else if !Convertible(file.value) then Err(InvalidTimestamp)
    else
      var sorted := SortDesc(Normalize(file.value));
      assert forall n :: n in sorted ==> n in multiset(Normalize(file.value));
      assert forall k :: WithTimestamp(sorted, k) == WithTimestamp(Normalize(file.value), k) by {
        forall k ensures WithTimestamp(sorted, k) == WithTimestamp(Normalize(file.value), k) {
          SortDescStable(Normalize(file.value), k);
        }
      }
      Ok(sorted)
  }

  /** `filter(lambda note: note["timestamp"] != timestamp, notes)`. */
  function Without(s: seq<JsonNote>, timestamp: int): (r: seq<JsonNote>)
    ensures forall n :: n in r <==> n in s && n.timestamp != JInt(timestamp)
  {
    if s == [] then []
    else (if s[0].timestamp != JInt(timestamp) then [s[0]] else []) + Without(s[1..], timestamp)
  }

  /** Filtering a newest-first list leaves it newest first. */
  lemma {:induction false} WithoutSorted(s: seq<JsonNote>, timestamp: int)
    requires SortedDesc(s)
    ensures SortedDesc(Without(s, timestamp))
  {
    if s != [] {
      var tail := s[1..];
      WithoutSorted(tail, timestamp);
      var rest := Without(tail, timestamp);
      if s[0].timestamp != JInt(timestamp) {
        HeadBound(s);
        SortedCons(s[0], rest);
      } else {
        assert Without(s, timestamp) == rest;
      }
    }
  }

  /** The filter keeps the others in their relative order: it works piece by piece. */
  lemma {:induction false} WithoutAppend(a: seq<JsonNote>, b: seq<JsonNote>, timestamp: int)
    ensures Without(a + b, timestamp) == Without(a, timestamp) + Without(b, timestamp)
  {
    if a == [] {
      assert a + b == b;
    } else {
      assert (a + b)[1..] == a[1..] + b;
      WithoutAppend(a[1..], b, timestamp);
    }
  }

  /**
   * Adding a note to a loaded feed and sorting: the feed is the old notes
   * plus exactly the new one, newest first, and the new note comes after
   * the older notes that share its timestamp.
   */
  lemma AddedFeed(prev: seq<JsonNote>, x: JsonNote)
    ensures SortedDesc(SortDesc(prev + [x]))
    ensures multiset(SortDesc(prev + [x])) == multiset(prev) + multiset{x}
    ensures WithTimestamp(SortDesc(prev + [x]), Key(x)) == WithTimestamp(prev, Key(x)) + [x]
  {
    SortDescStable(prev + [x], Key(x));
    WithTimestampAppend(prev, [x], Key(x));
    assert WithTimestamp([x], Key(x)) == [x] + WithTimestamp([], Key(x));
  }

  // -------------------------------------------------------------- sessions

  /** A `session` value: `{"access_token": ..., "user": <GitHub profile>}`. */
  datatype Login = Login(accessToken: string, user: GithubProfile)

  /** What `get_index` renders: the feed and the signed-in login. */
  datatype Page = Page(notes: seq<JsonNote>, user: Option<string>)

  /**
   * `get_user` as written: the cookie is declared `str`, so the lookup is
   * by a `str` key in a dict whose keys are `UUID` objects.
   */
  function GetUserAsWritten(d: map<DictKey, Login>, cookie: Option<string>): (r: Option<string>)
    ensures r.Some? <==> cookie.Some? && StrKey(cookie.value) in d
    ensures r.Some? ==> r.value == d[StrKey(cookie.value)].user.login
  {
    if cookie.None? || StrKey(cookie.value) !in d then None else Some(d[StrKey(cookie.value)].user.login)
  }

  /** With the keys the callback inserts, `get_user` as written never finds anyone. */
  lemma GetUserAsWrittenNeverSignedIn(session: map<Token, Login>, cookie: Option<string>)
    ensures GetUserAsWritten(SessionDict(session), cookie) == None
  {
  }

  class App {
    /** The contents of `notes.json`, `None` when the file does not exist. */
    var file: Option<seq<JsonNote>>
    /** The module-level `session` dict. */
    var session: map<Token, Login>

    constructor (file: Option<seq<JsonNote>>)
      ensures this.file == file && session == map[]
    {
      this.file := file;
      session := map[];
    }

    /**
     * `load`: `[]` without a file; otherwise sort the stored notes newest
     * first and rewrite each timestamp as an integer.
     */
    method Load() returns (r: Result<seq<JsonNote>, LoadError>)
      ensures r == Loaded(file)
      ensures r.Ok? ==> SortedDesc(r.value) && AllInt(r.value)
      ensures r.Ok? && file.Some? ==> multiset(r.value) == multiset(Normalize(file.value))
    {
      if file.None? {
        return Ok([]);
      }
      var notes := file.value;
      if !Convertible(notes) {
        return Err(InvalidTimestamp);
      }
      notes := SortDesc(notes);
      ghost var sorted := notes;
      SortDescConvertible(file.value);
      var i := 0;
      while i < |notes|
        invariant 0 <= i <= |notes| == |sorted|
        invariant forall j :: 0 <= j < i ==> notes[j] == NormalizeNote(sorted[j])
        invariant forall j :: i <= j < |notes| ==> notes[j] == sorted[j]
      {
        assert sorted[i] in sorted;
        var t := IntOf(notes[i].timestamp).value;
        notes := notes[i := notes[i].(timestamp := JInt(t))];
        i := i + 1;
      }
      NormalizedLoop(notes, sorted);
      NormalizeSortDesc(file.value);
      r := Ok(notes);
    }

    /** `save`: sort the caller's list newest first and write it to the file. */
    method Save(notes: seq<JsonNote>) returns (sorted: seq<JsonNote>)
      requires Convertible(notes)
      modifies this
      ensures sorted == SortDesc(notes) && file == Some(sorted) && session == old(session)
      ensures SortedDesc(sorted) && multiset(sorted) == multiset(notes)
    {
      sorted := SortDesc(notes);
      file := Some(sorted);
    }

    /**
     * `add`: load, append `{"content": content, "timestamp": now}`, save
     * and return the list. A load error leaves the file untouched.
     */
    method Add(content: string, now: int) returns (r: Result<seq<JsonNote>, LoadError>)
      modifies this
      ensures session == old(session)
      ensures Loaded(old(file)).Err? ==> r == Loaded(old(file)) && file == old(file)
      ensures Loaded(old(file)).Ok? ==>
                && r == Ok(SortDesc(Loaded(old(file)).value + [JsonNote(JInt(now), content)]))
                && file == Some(r.value)
      ensures r.Ok? ==>
                && SortedDesc(r.value)
                && multiset(r.value) == multiset(Loaded(old(file)).value) + multiset{JsonNote(JInt(now), content)}
    {
      var loaded := Load();
      if loaded.Err? {
        return loaded;
      }
      var note := JsonNote(JInt(now), content);
      var notes := loaded.value + [note];
      assert forall n :: n in notes ==> n in loaded.value || n == note;
      notes := Save(notes);
      r := Ok(notes);
    }

    /**
     * `delete_note`: load, drop every note with the given timestamp, save
     * and return the rest. There is no authorization check.
     */
    method DeleteNote(timestamp: int) returns (r: Result<seq<JsonNote>, LoadError>)
      modifies this
      ensures session == old(session)
      ensures Loaded(old(file)).Err? ==> r == Loaded(old(file)) && file == old(file)
      ensures Loaded(old(file)).Ok? ==>
                && r == Ok(Without(Loaded(old(file)).value, timestamp))
                && file == Some(r.value)
      ensures r.Ok? ==> forall n :: n in r.value ==> Key(n) != timestamp
    {
      var loaded := Load();
      if loaded.Err? {
        return loaded;
      }
      var notes := Without(loaded.value, timestamp);
      WithoutSorted(loaded.value, timestamp);
      SortDescOfSorted(notes);
      notes := Save(notes);
      r := Ok(notes);
    }

    /** `get_user`: `None` unless the cookie names a session, then that user's login. */
    function GetUser(cookie: Option<Token>): (r: Option<string>)
      reads this
      ensures r.Some? <==> cookie.Some? && cookie.value in session
      ensures r.Some? ==> r.value == session[cookie.value].user.login
    {
      if cookie.None? || cookie.value !in session then None else Some(session[cookie.value].user.login)
    }

    /** `get_index`: the loaded feed and the signed-in login. */
    method Index(cookie: Option<Token>) returns (r: Result<Page, LoadError>)
      ensures r.Ok? <==> Loaded(file).Ok?
      ensures r.Ok? ==> r.value == Page(Loaded(file).value, GetUser(cookie))
    {
      var user := GetUser(cookie);
      var notes := Load();
      if notes.Err? {
        return Err(notes.error);
      }
      r := Ok(Page(notes.value, user));
    }

    /** The callback, once the token and profile are fetched: one new session. */
    method Callback(accessToken: string, profile: GithubProfile, token: Token)
      requires token !in session
      modifies this
      ensures session == old(session)[token := Login(accessToken, profile)] && file == old(file)
      ensures GetUser(Some(token)) == Some(profile.login)
    {
      session := session[token := Login(accessToken, profile)];
    }

    /** `get_logout`, keyed by the session id: pop it if present, never fail. */
    method Logout(cookie: Option<Token>)
      modifies this
      ensures session == (if cookie.Some? then old(session) - {cookie.value} else old(session))
      ensures file == old(file) && GetUser(cookie) == None
    {
      if cookie.Some? {
        session := session - {cookie.value};
      }
    }
  }
}

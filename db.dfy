/**
 * The store of notes/db.py. The SQLite database is abstracted as two
 * sequences of rows held by class `DB`, in the order a plain `select`
 * returns them (insertion order). `add` and `delete` change the rows in
 * place; the `get_*` methods are queries over them.
 */
module Db {
  import opened Wrappers
  import opened Model

  /** `add` and `delete` take either kind of row (`item: Note | User`). */
  datatype Item = UserItem(user: User) | NoteItem(note: Note)

  /** The two ways SQLAlchemy's `Result.one()` fails. */
  datatype QueryError = NoResultFound | MultipleResultsFound

  /** `Result.one()`: exactly one row, otherwise an error. */
  function One<T>(rows: seq<T>): (r: Result<T, QueryError>)
    ensures r.Ok? <==> |rows| == 1
    ensures r.Ok? ==> rows == [r.value]
    ensures r == Err(NoResultFound) <==> rows == []
    ensures r == Err(MultipleResultsFound) <==> |rows| >= 2
  {
    if |rows| == 0 then Err(NoResultFound)
    else if |rows| == 1 then Ok(rows[0])
    else Err(MultipleResultsFound)
  }

  /** `Result.first()`: the first row, or `None` when there is none. */
  function First<T>(rows: seq<T>): (r: Option<T>)
    ensures r.None? <==> rows == []
    ensures r.Some? ==> r.value in rows && r.value == rows[0]
  {
    if rows == [] then None else Some(rows[0])
  }

  function UserKey(u: User): UserId { u.id }
  function NoteKey(n: Note): NoteId { n.id }

  /** The primary keys present among `rows`. */
  ghost function Keys<T>(rows: seq<T>, key: T -> Uuid): set<Uuid>
  {
    set x | x in rows :: key(x)
  }

  /** No two rows share a primary key. */
  ghost predicate UniqueKeys<T>(rows: seq<T>, key: T -> Uuid)
  {
    forall i, j :: 0 <= i < j < |rows| ==> key(rows[i]) != key(rows[j])
  }

  /** The rows of `select(X).where(X.id == id)`, in query order. */
  function WithKey<T(!new)>(rows: seq<T>, key: T -> Uuid, id: Uuid): (r: seq<T>)
    ensures forall x :: x in r <==> x in rows && key(x) == id
    ensures r == [] <==> forall x :: x in rows ==> key(x) != id
  {
    if rows == [] then []
    else (if key(rows[0]) == id then [rows[0]] else []) + WithKey(rows[1..], key, id)
  }

  /** The rows left after deleting the row whose primary key is `id`. */
  function WithoutKey<T(!new)>(rows: seq<T>, key: T -> Uuid, id: Uuid): (r: seq<T>)
    ensures forall x :: x in r <==> x in rows && key(x) != id
  {
    if rows == [] then []
    else (if key(rows[0]) != id then [rows[0]] else []) + WithoutKey(rows[1..], key, id)
  }

  /** Deleting works piece by piece, so the remaining rows keep their relative order. */
  lemma {:induction false} WithoutKeyAppend<T(!new)>(a: seq<T>, b: seq<T>, key: T -> Uuid, id: Uuid)
    ensures WithoutKey(a + b, key, id) == WithoutKey(a, key, id) + WithoutKey(b, key, id)
  {
    if a == [] {
      assert a + b == b;
    } else {
      assert (a + b)[1..] == a[1..] + b;
      WithoutKeyAppend(a[1..], b, key, id);
    }
  }

  /** The rows of `select(User).where(User.github_id == github_id)`. */
  function WithGithubId(users: seq<User>, githubId: int): (r: seq<User>)
    ensures forall u :: u in r <==> u in users && u.githubId == Some(githubId)
    ensures r == [] <==> forall u :: u in users ==> u.githubId != Some(githubId)
  {
    if users == [] then []
    else (if users[0].githubId == Some(githubId) then [users[0]] else []) + WithGithubId(users[1..], githubId)
  }

  /** `reversed(rows)`. */
  function Reverse<T>(s: seq<T>): (r: seq<T>)
    ensures |r| == |s|
    ensures forall i :: 0 <= i < |s| ==> r[i] == s[|s| - 1 - i]
    ensures multiset(r) == multiset(s)
  {
    if s == [] then []
    else
      assert s == [s[0]] + s[1..];
      Reverse(s[1..]) + [s[0]]
  }

  /** With unique keys, the lookup by a present row's key finds exactly that row. */
  lemma {:induction false} UniqueWithKey<T(!new)>(rows: seq<T>, key: T -> Uuid, x: T)
    requires UniqueKeys(rows, key) && x in rows
    ensures WithKey(rows, key, key(x)) == [x]
  {
    if rows[0] == x {
      assert forall y :: y in rows[1..] ==> key(y) != key(x);
    } else {
      assert key(rows[0]) != key(x);
      UniqueWithKey(rows[1..], key, x);
    }
  }

  /** Deleting a row keeps the remaining keys unique. */
  lemma {:induction false} UniqueWithoutKey<T(!new)>(rows: seq<T>, key: T -> Uuid, id: Uuid)
    requires UniqueKeys(rows, key)
    ensures UniqueKeys(WithoutKey(rows, key, id), key)
  {
    if rows != [] {
      UniqueWithoutKey(rows[1..], key, id);
      var rest := WithoutKey(rows[1..], key, id);
      assert forall y :: y in rest ==> key(y) != key(rows[0]);
    }
  }

  /** With unique keys, deleting a present row removes that row and nothing else. */
  lemma {:induction false} WithoutKeyRemovesOne<T(!new)>(rows: seq<T>, key: T -> Uuid, x: T)
    requires UniqueKeys(rows, key) && x in rows
    ensures multiset(WithoutKey(rows, key, key(x))) == multiset(rows) - multiset{x}
  {
    assert rows == [rows[0]] + rows[1..];
    if rows[0] == x {
      assert forall y :: y in rows[1..] ==> key(y) != key(x);
      WithoutAbsentKey(rows[1..], key, key(x));
    } else {
      assert key(rows[0]) != key(x);
      WithoutKeyRemovesOne(rows[1..], key, x);
    }
  }

  /** Deleting a key no row has changes nothing. */
  lemma {:induction false} WithoutAbsentKey<T(!new)>(rows: seq<T>, key: T -> Uuid, id: Uuid)
    requires forall y :: y in rows ==> key(y) != id
    ensures WithoutKey(rows, key, id) == rows
  {
    if rows != [] {
      WithoutAbsentKey(rows[1..], key, id);
      assert rows == [rows[0]] + rows[1..];
    }
  }

  /**
   * When no other row has the key of the row at position `i` (as unique
   * keys guarantee), deleting that key leaves exactly the rows before it
   * followed by the rows after it.
   */
  lemma {:induction false} WithoutKeyAt<T(!new)>(rows: seq<T>, key: T -> Uuid, i: nat)
    requires i < |rows|
    requires forall j :: 0 <= j < |rows| && j != i ==> key(rows[j]) != key(rows[i])
    ensures WithoutKey(rows, key, key(rows[i])) == rows[..i] + rows[i + 1..]
  {
    var id := key(rows[i]);
    var tail := rows[1..];
    if i == 0 {
      forall y | y in tail ensures key(y) != id {
        var j :| 0 <= j < |tail| && tail[j] == y;
        assert rows[j + 1] == y;
      }
      WithoutAbsentKey(tail, key, id);
    } else {
      assert tail[i - 1] == rows[i];
      forall j | 0 <= j < |tail| && j != i - 1 ensures key(tail[j]) != id {
        assert tail[j] == rows[j + 1];
      }
      WithoutKeyAt(tail, key, i - 1);
      assert WithoutKey(rows, key, id) == [rows[0]] + WithoutKey(tail, key, id);
      assert rows[..i] == [rows[0]] + tail[..i - 1];
      assert rows[i + 1..] == tail[i..];
    }
  }

  /** Keys are unique after appending a row with a fresh key. */
  lemma AppendFreshKey<T>(rows: seq<T>, key: T -> Uuid, x: T)
    requires UniqueKeys(rows, key) && key(x) !in Keys(rows, key)
    ensures UniqueKeys(rows + [x], key)
  {
    forall i | 0 <= i < |rows|
      ensures key(rows[i]) != key(x)
    {
      assert rows[i] in rows;
    }
  }

  class DB {
    /** The `user` table, in query order. */
    var users: seq<User>
    /** The `note` table, in query order (the order rows were inserted). */
    var notes: seq<Note>

    /** Primary keys are unique in both tables. */
    ghost predicate Valid()
      reads this
    {
      UniqueKeys(users, UserKey) && UniqueKeys(notes, NoteKey)
    }

    /** `DB()` opens the database with whatever rows it already holds. */
    constructor (users: seq<User>, notes: seq<Note>)
      requires UniqueKeys(users, UserKey) && UniqueKeys(notes, NoteKey)
      ensures Valid() && this.users == users && this.notes == notes
    {
      this.users := users;
      this.notes := notes;
    }

    /**
     * `add`: insert the row, commit, and return the same item. The caller
     * supplies a fresh primary key (the `uuid4()` default).
     */
    method Add(item: Item) returns (r: Item)
      requires Valid()
      requires item.UserItem? ==> item.user.id !in Keys(users, UserKey)
      requires item.NoteItem? ==> item.note.id !in Keys(notes, NoteKey)
      modifies this
      ensures Valid() && r == item
      ensures users == if item.UserItem? then old(users) + [item.user] else old(users)
      ensures notes == if item.NoteItem? then old(notes) + [item.note] else old(notes)
    {
      match item {
        case UserItem(u) =>
          AppendFreshKey(users, UserKey, u);
          users := users + [u];
        case NoteItem(n) =>
          AppendFreshKey(notes, NoteKey, n);
          notes := notes + [n];
      }
      r := item;
    }

    /** `delete`: remove the given persisted row and commit. */
    method Delete(item: Item)
      requires Valid()
      requires item.UserItem? ==> item.user in users
      requires item.NoteItem? ==> item.note in notes
      modifies this
      ensures Valid()
      ensures users == if item.UserItem? then WithoutKey(old(users), UserKey, item.user.id) else old(users)
      ensures notes == if item.NoteItem? then WithoutKey(old(notes), NoteKey, item.note.id) else old(notes)
      ensures item.UserItem? ==> multiset(users) == multiset(old(users)) - multiset{item.user}
      ensures item.NoteItem? ==> multiset(notes) == multiset(old(notes)) - multiset{item.note}
      ensures item.UserItem? ==> exists i :: 0 <= i < |old(users)| && old(users)[i] == item.user && users == old(users)[..i] + old(users)[i + 1..]
      ensures item.NoteItem? ==> exists i :: 0 <= i < |old(notes)| && old(notes)[i] == item.note && notes == old(notes)[..i] + old(notes)[i + 1..]
    {
      match item
      case UserItem(u) =>
        UniqueWithoutKey(users, UserKey, u.id);
        WithoutKeyRemovesOne(users, UserKey, u);
        var i :| 0 <= i < |users| && users[i] == u;
        WithoutKeyAt(users, UserKey, i);
        users := WithoutKey(users, UserKey, u.id);
      case NoteItem(n) =>
        UniqueWithoutKey(notes, NoteKey, n.id);
        WithoutKeyRemovesOne(notes, NoteKey, n);
        var i :| 0 <= i < |notes| && notes[i] == n;
        WithoutKeyAt(notes, NoteKey, i);
        notes := WithoutKey(notes, NoteKey, n.id);
    }

    /**
     * `get_user_by_id`: `None` for a `None` id without querying; otherwise
     * `.one()`, so an error unless exactly one user has that id.
     */
    function GetUserById(id: Option<UserId>): (r: Result<Option<User>, QueryError>)
      reads this
      ensures id.None? ==> r == Ok(None)
      ensures id.Some? ==> (r.Ok? <==> |WithKey(users, UserKey, id.value)| == 1)
      ensures id.Some? && r.Ok? ==> r.value.Some? && r.value.value in users && r.value.value.id == id.value
      ensures id.Some? && id.value !in Keys(users, UserKey) ==> r == Err(NoResultFound)
    {
      if id.None? then Ok(None)
      else
        match One(WithKey(users, UserKey, id.value))
        case Ok(u) => Ok(Some(u))
        case Err(e) => Err(e)
    }

    /**
     * `get_user_by_github_id`: `.one()` over the users with that GitHub id,
     * so an error (never `None`) when no user has it.
     */
    function GetUserByGithubId(githubId: int): (r: Result<User, QueryError>)
      reads this
      ensures r.Ok? <==> |WithGithubId(users, githubId)| == 1
      ensures r.Ok? ==> r.value in users && r.value.githubId == Some(githubId)
      ensures (forall u :: u in users ==> u.githubId != Some(githubId)) ==> r == Err(NoResultFound)
    {
      One(WithGithubId(users, githubId))
    }

    /** `get_notes`: every stored note, in the reverse of query order. */
    function GetNotes(): (r: seq<Note>)
      reads this
      ensures |r| == |notes| && multiset(r) == multiset(notes)
      ensures forall i :: 0 <= i < |notes| ==> r[i] == notes[|notes| - 1 - i]
    {
      Reverse(notes)
    }

    /**
     * `get_note_by_id`: `None` for a `None` id or when no note has the id
     * (`.first()`), otherwise a note with that id.
     */
    function GetNoteById(id: Option<NoteId>): (r: Option<Note>)
      reads this
      ensures id.None? ==> r.None?
      ensures r.Some? ==> r.value in notes && r.value.id == id.value
      ensures id.Some? ==> (r.None? <==> id.value !in Keys(notes, NoteKey))
    {
      if id.None? then None else First(WithKey(notes, NoteKey, id.value))
    }
  }

  /** In a valid store, looking up a stored user's id finds that user. */
  lemma UserLookupFinds(db: DB, u: User)
    requires db.Valid() && u in db.users
    ensures db.GetUserById(Some(u.id)) == Ok(Some(u))
  {
    UniqueWithKey(db.users, UserKey, u);
  }

  /** In a valid store, looking up a stored note's id finds that note. */
  lemma NoteLookupFinds(db: DB, n: Note)
    requires db.Valid() && n in db.notes
    ensures db.GetNoteById(Some(n.id)) == Some(n)
  {
    UniqueWithKey(db.notes, NoteKey, n);
  }

  /**
   * Notes inserted with non-decreasing timestamps come back from
   * `get_notes` newest first.
   */
  lemma FeedNewestFirst(db: DB)
    requires forall i, j :: 0 <= i < j < |db.notes| ==> db.notes[i].timestamp <= db.notes[j].timestamp
    ensures forall i, j :: 0 <= i < j < |db.notes| ==> db.GetNotes()[i].timestamp >= db.GetNotes()[j].timestamp
  {
  }
}

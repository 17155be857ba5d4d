/**
 * The UserDBO record and the Users table it is stored in, as values.
 * The table is a sequence of rows in store order: nothing in the schema makes
 * UserId unique, so several rows may carry the same UserId, while the identity
 * column Id is assigned by the store from a counter. `WHERE UserId = @userId`
 * compares as SQL Server does: trailing spaces do not count, and under the
 * server's default case-insensitive collation neither does letter case.
 */
module Users {
  import opened Wrappers
  import opened Text

  /** One row of the Users table. */
  datatype UserDbo = UserDbo(
    id: int,
    userId: string,
    isAdmin: bool,
    isRoot: bool,
    userName: string,
    isLockedOut: bool)

  /** `new UserDBO()`: every property at its initialiser. */
  function NewUserDbo(): (u: UserDbo)
    ensures u.id == 0 && u.userId == "" && u.userName == ""
    ensures !u.isAdmin && !u.isRoot && !u.isLockedOut
  {
    UserDbo(0, "", false, false, "", false)
  }

  /** The width of the UserId and UserName columns, NVARCHAR(255). */
  const MaxColumnLength := 255

  /** Whether the store accepts `u`'s string columns; a longer value makes
      the INSERT fail rather than be cut short. */
  predicate FitsColumns(u: UserDbo) {
    |u.userId| <= MaxColumnLength && |u.userName| <= MaxColumnLength
  }

  /** What `UserId = @userId` compares: the value without trailing spaces,
      with letter case folded. Two UserIds match when their keys are equal. */
  function Key(userId: string): string {
    ToLower(TrimEnd(userId))
  }

  /** A UserId already in lower case and not ending in a space is its own
      key, so two such UserIds match exactly when they are equal. */
  lemma KeyOfPlain(userId: string)
    requires |userId| == 0 || userId[|userId| - 1] != ' '
    requires forall i :: 0 <= i < |userId| ==> !('A' <= userId[i] <= 'Z')
    ensures Key(userId) == userId
  {
  }

  /** Trailing spaces and letter case do not tell UserIds apart. */
  lemma KeyExamples()
    ensures Key("admin001 ") == Key("admin001")
    ensures Key("ADMIN001") == Key("admin001")
    ensures Key("ADMIN001 ") == Key("admin001")
    ensures Key("admin001") != Key("admin002")
    ensures Key("user001") != Key("admin001")
  {
    TrimEndIgnoresSpace("admin001");
    TrimEndIgnoresSpace("ADMIN001");
    assert TrimEnd("admin001") == "admin001";
    assert TrimEnd("ADMIN001") == "ADMIN001";
    assert TrimEnd("admin002") == "admin002";
    assert TrimEnd("user001") == "user001";
    assert Key("admin001")[7] == '1' && Key("admin002")[7] == '2';
    assert Key("user001")[0] == 'u' && Key("admin001")[0] == 'a';
  }

  /** The row an UPDATE ... WHERE UserId = @id writes over `row`: the four
      updatable columns come from `values`; Id and UserId stay. */
  function Patched(row: UserDbo, values: UserDbo): UserDbo {
    row.(isAdmin := values.isAdmin, isRoot := values.isRoot,
         userName := values.userName, isLockedOut := values.isLockedOut)
  }

  /** Position of the first row whose UserId is `userId`, or |rows| if none. */
  function FirstIndex(rows: seq<UserDbo>, userId: string): (i: nat)
    ensures i <= |rows|
    ensures i < |rows| ==> Key(rows[i].userId) == Key(userId)
    ensures forall j :: 0 <= j < i ==> Key(rows[j].userId) != Key(userId)
  {
    if |rows| == 0 then 0
    else if Key(rows[0].userId) == Key(userId) then 0
    else 1 + FirstIndex(rows[1..], userId)
  }

  /** `SELECT * FROM Users WHERE UserId = @id` read with FirstOrDefault. */
  function FirstMatch(rows: seq<UserDbo>, userId: string): (r: Option<UserDbo>)
    ensures r.Some? <==> exists i :: 0 <= i < |rows| && Key(rows[i].userId) == Key(userId)
    ensures r.Some? ==> r.value in rows && Key(r.value.userId) == Key(userId)
  {
    var i := FirstIndex(rows, userId);
    if i < |rows| then Some(rows[i]) else None
  }

  /** Every row whose UserId is `userId`, patched; all other rows as they were. */
  function UpdateMatching(rows: seq<UserDbo>, userId: string, values: UserDbo): (r: seq<UserDbo>)
    ensures |r| == |rows|
    ensures forall i :: 0 <= i < |rows| ==>
      r[i] == if Key(rows[i].userId) == Key(userId) then Patched(rows[i], values) else rows[i]
  {
    if |rows| == 0 then []
    else
      var head := if Key(rows[0].userId) == Key(userId) then Patched(rows[0], values) else rows[0];
      [head] + UpdateMatching(rows[1..], userId, values)
  }

  /** The rows whose UserId is not `userId`, in their original order. */
  function RemoveMatching(rows: seq<UserDbo>, userId: string): (r: seq<UserDbo>)
    ensures |r| <= |rows|
    ensures forall u :: u in r <==> u in rows && Key(u.userId) != Key(userId)
  {
    if |rows| == 0 then []
    else if Key(rows[0].userId) == Key(userId) then RemoveMatching(rows[1..], userId)
    else [rows[0]] + RemoveMatching(rows[1..], userId)
  }

  /** Identities increase along the rows. */
  ghost predicate IdsIncreasing(rows: seq<UserDbo>) {
    forall i, j :: 0 <= i < j < |rows| ==> rows[i].id < rows[j].id
  }

  /** The Users table: its rows in store order and the next identity value. */
  datatype Table = Table(rows: seq<UserDbo>, nextId: int) {

    /** The identity column: every Id is below the counter, and Ids increase
        along the rows (so no two rows share an Id). */
    ghost predicate Valid() {
      && (forall i :: 0 <= i < |rows| ==> rows[i].id < nextId)
      && IdsIncreasing(rows)
    }

    /** INSERT of UserId, IsAdmin, IsRoot, UserName, IsLockedOut: the old
        rows stay as a prefix and one row follows, carrying the caller's five
        columns and an Id the store supplies, above every Id already there;
        no duplicate check. */
    function Insert(u: UserDbo): (t: Table)
      ensures |t.rows| == |rows| + 1 && t.rows[..|rows|] == rows
      ensures t.rows[|rows|].(id := u.id) == u
      ensures Valid() ==> forall v :: v in rows ==> v.id < t.rows[|rows|].id
      ensures Valid() ==> t.Valid()
    {
      var t := Table(rows + [u.(id := nextId)], nextId + 1);
      assert t.rows[..|rows|] == rows;
      t
    }

    /** UPDATE Users SET IsAdmin, IsRoot, UserName, IsLockedOut WHERE UserId =
        @userId: no row is added or removed, Id and UserId stay on every row,
        and the lookup of that UserId now finds its first row patched. */
    function Update(userId: string, values: UserDbo): (t: Table)
      ensures t.nextId == nextId && |t.rows| == |rows|
      ensures forall i :: 0 <= i < |rows| ==> t.rows[i].id == rows[i].id && t.rows[i].userId == rows[i].userId
      ensures forall i :: 0 <= i < |rows| && Key(rows[i].userId) != Key(userId) ==> t.rows[i] == rows[i]
      ensures forall i :: 0 <= i < |rows| && Key(rows[i].userId) == Key(userId) ==> t.rows[i] == Patched(rows[i], values)
      ensures FirstMatch(t.rows, userId) ==
        if FirstMatch(rows, userId).Some? then Some(Patched(FirstMatch(rows, userId).value, values)) else None
      ensures Valid() ==> t.Valid()
    {
      var t := Table(UpdateMatching(rows, userId, values), nextId);
      assert forall i :: 0 <= i < |rows| ==> t.rows[i].id == rows[i].id && t.rows[i].userId == rows[i].userId;
      SameIdsKeepValid(this, t);
      FirstMatchAfterUpdate(rows, userId, values, userId);
      t
    }

    /** DELETE FROM Users WHERE UserId = @userId: afterwards nothing answers
        that UserId, and the counter is not wound back. */
    function Delete(userId: string): (t: Table)
      ensures t.nextId == nextId && |t.rows| <= |rows|
      ensures FirstMatch(t.rows, userId) == None
      ensures forall u :: u in rows && Key(u.userId) != Key(userId) ==> u in t.rows
      ensures forall u :: u in t.rows ==> u in rows
      ensures Valid() ==> t.Valid()
    {
      FirstMatchAfterRemove(rows, userId, userId);
      RemoveMatchingIncreasing(rows, userId);
      Table(RemoveMatching(rows, userId), nextId)
    }
  }

  /** The identity invariant depends only on the Ids and the counter. */
  lemma SameIdsKeepValid(a: Table, b: Table)
    requires |a.rows| == |b.rows| && a.nextId == b.nextId
    requires forall i :: 0 <= i < |a.rows| ==> a.rows[i].id == b.rows[i].id
    ensures a.Valid() ==> b.Valid()
  {
    if a.Valid() {
      forall i, j | 0 <= i < j < |b.rows| ensures b.rows[i].id < b.rows[j].id {
        assert a.rows[i].id < a.rows[j].id;
      }
    }
  }

  /** The lookup after an insert sees an older match first, else the new row. */
  lemma {:induction false} FirstMatchAfterAppend(rows: seq<UserDbo>, u: UserDbo, userId: string)
    ensures FirstMatch(rows + [u], userId) ==
      if FirstMatch(rows, userId).Some? then FirstMatch(rows, userId)
      else if Key(u.userId) == Key(userId) then Some(u)
      else None
  {
    var i := FirstIndex(rows, userId);
    if i < |rows| {
      assert (rows + [u])[i] == rows[i];
    } else {
      assert (rows + [u])[|rows|] == u;
    }
  }

  /** After an update, the lookup of the updated UserId finds the first match
      patched, and the lookup of any other UserId is unaffected. */
  lemma {:induction false} FirstMatchAfterUpdate(rows: seq<UserDbo>, userId: string, values: UserDbo, other: string)
    ensures FirstMatch(UpdateMatching(rows, userId, values), userId) ==
      match FirstMatch(rows, userId)
      case Some(row) => Some(Patched(row, values))
      case None => None
    ensures Key(other) != Key(userId) ==>
      FirstMatch(UpdateMatching(rows, userId, values), other) == FirstMatch(rows, other)
  {
    var r := UpdateMatching(rows, userId, values);
    FirstIndexPointwise(rows, r, userId);
    if Key(other) != Key(userId) {
      FirstIndexPointwise(rows, r, other);
    }
  }

  /** Two row sequences of equal length whose rows agree on UserId have the
      same first-match position. */
  lemma {:induction false} FirstIndexPointwise(a: seq<UserDbo>, b: seq<UserDbo>, userId: string)
    requires |a| == |b|
    requires forall i :: 0 <= i < |a| ==> a[i].userId == b[i].userId
    ensures FirstIndex(a, userId) == FirstIndex(b, userId)
  {
    if |a| > 0 && Key(a[0].userId) != Key(userId) {
      FirstIndexPointwise(a[1..], b[1..], userId);
    }
  }

  /** After a delete no row answers the deleted UserId, and every other
      UserId resolves exactly as before. */
  lemma FirstMatchAfterRemove(rows: seq<UserDbo>, userId: string, other: string)
    ensures FirstMatch(RemoveMatching(rows, userId), userId) == None
    ensures Key(other) != Key(userId) ==>
      FirstMatch(RemoveMatching(rows, userId), other) == FirstMatch(rows, other)
  {
    if Key(other) != Key(userId) {
      RemoveKeepsOtherMatch(rows, userId, other);
    }
  }

  /** The lookup looks at the first row, then at the rest. */
  lemma FirstMatchUnfold(rows: seq<UserDbo>, userId: string)
    requires |rows| > 0
    ensures FirstMatch(rows, userId) ==
      if Key(rows[0].userId) == Key(userId) then Some(rows[0]) else FirstMatch(rows[1..], userId)
  {
    if Key(rows[0].userId) != Key(userId) {
      assert FirstIndex(rows, userId) == 1 + FirstIndex(rows[1..], userId);
    }
  }

  /** A delete does not change which row another UserId resolves to. */
  lemma {:induction false} RemoveKeepsOtherMatch(rows: seq<UserDbo>, userId: string, other: string)
    requires Key(other) != Key(userId)
    ensures FirstMatch(RemoveMatching(rows, userId), other) == FirstMatch(rows, other)
  {
    if |rows| > 0 {
      var tail := rows[1..];
      var rest := RemoveMatching(tail, userId);
      RemoveKeepsOtherMatch(tail, userId, other);
      FirstMatchUnfold(rows, other);
      if Key(rows[0].userId) == Key(userId) {
        assert RemoveMatching(rows, userId) == rest;
      } else {
        var r := [rows[0]] + rest;
        assert RemoveMatching(rows, userId) == r;
        assert r[1..] == rest;
        FirstMatchUnfold(r, other);
      }
    }
  }

  /** Removing rows from a sequence of rows taken in order keeps that order:
      removing from `s + [x]` is removing from `s`, then keeping or dropping `x`. */
  lemma {:induction false} RemoveMatchingAppend(s: seq<UserDbo>, x: UserDbo, userId: string)
    ensures RemoveMatching(s + [x], userId) ==
      RemoveMatching(s, userId) + (if Key(x.userId) == Key(userId) then [] else [x])
  {
    if |s| == 0 {
      assert s + [x] == [x];
    } else {
      assert (s + [x])[1..] == s[1..] + [x];
      RemoveMatchingAppend(s[1..], x, userId);
    }
  }

  /** A delete drops every copy of a matching row and keeps every copy of
      any other row: the multiplicities, not only membership, are exact. */
  lemma {:induction false} RemoveMatchingCounts(rows: seq<UserDbo>, userId: string, u: UserDbo)
    ensures multiset(RemoveMatching(rows, userId))[u] ==
      if Key(u.userId) == Key(userId) then 0 else multiset(rows)[u]
  {
    if |rows| > 0 {
      var tail := rows[1..];
      RemoveMatchingCounts(tail, userId, u);
      assert rows == [rows[0]] + tail;
      assert multiset(rows) == multiset([rows[0]]) + multiset(tail);
      var rest := RemoveMatching(tail, userId);
      if Key(rows[0].userId) != Key(userId) {
        assert RemoveMatching(rows, userId) == [rows[0]] + rest;
        assert multiset(RemoveMatching(rows, userId)) == multiset([rows[0]]) + multiset(rest);
      } else {
        assert RemoveMatching(rows, userId) == rest;
      }
    }
  }

  /** Removing rows keeps the Ids increasing. */
  lemma {:induction false} RemoveMatchingIncreasing(rows: seq<UserDbo>, userId: string)
    ensures IdsIncreasing(rows) ==> IdsIncreasing(RemoveMatching(rows, userId))
  {
    if |rows| > 0 && IdsIncreasing(rows) {
      var tail := rows[1..];
      RemoveMatchingIncreasing(tail, userId);
      var rest := RemoveMatching(tail, userId);
      if Key(rows[0].userId) != Key(userId) {
        forall x | x in rest ensures rows[0].id < x.id {
          assert x in tail;
        }
        var r := [rows[0]] + rest;
        forall i, j | 0 <= i < j < |r| ensures r[i].id < r[j].id {
          assert r[j] == rest[j - 1];
          if i > 0 { assert r[i] == rest[i - 1]; }
        }
      }
    }
  }
}

/**
 * UserDataService: the Users table behind one connection. Each method runs one
 * query; `reachable` says whether the connection factory yields a working
 * connection, and when it does not every call throws and nothing changes. A
 * write that would put more than 255 characters in a string column throws
 * too, and also changes nothing.
 */
module UserStore {
  import opened Wrappers
  import opened Users
  import opened Http

  class UserDataService {
    var rows: seq<UserDbo>
    var nextId: int
    const reachable: bool

    /** The table as a value. */
    function State(): Table
      reads this
    {
      Table(rows, nextId)
    }

    /** The identity column's invariant, which every write keeps. */
    ghost predicate Valid()
      reads this
    {
      State().Valid()
    }

    constructor(initial: Table, reachable: bool)
      requires initial.Valid()
      ensures State() == initial && this.reachable == reachable && Valid()
    {
      rows := initial.rows;
      nextId := initial.nextId;
      this.reachable := reachable;
    }

    /** The scan behind `WHERE UserId = @userId` read with FirstOrDefault:
        the first row with that UserId, or |rows| when there is none. */
    method FindFirst(userId: string) returns (i: nat)
      ensures i <= |rows|
      ensures i < |rows| ==> Key(rows[i].userId) == Key(userId)
      ensures forall j :: 0 <= j < i ==> Key(rows[j].userId) != Key(userId)
      ensures i == FirstIndex(rows, userId)
    {
      i := 0;
      while i < |rows| && Key(rows[i].userId) != Key(userId)
        invariant i <= |rows|
        invariant forall j :: 0 <= j < i ==> Key(rows[j].userId) != Key(userId)
      {
        i := i + 1;
      }
    }

    /** GetUserById: the first row with that UserId, or null. */
    method GetUserById(userId: string) returns (r: Outcome<Option<UserDbo>>)
      ensures !reachable ==> r == Threw(StoreException)
      ensures reachable ==> r.Returned? && r.value == FirstMatch(rows, userId)
      ensures reachable ==> (r.value.Some? <==> exists u :: u in rows && Key(u.userId) == Key(userId))
    {
      if !reachable {
        return Threw(StoreException);
      }
      var i := FindFirst(userId);
      r := Returned(if i < |rows| then Some(rows[i]) else None);
    }

    /** GetUserDisplayName: the first matching row's UserName, else
        "UnknownUser_" followed by the UserId. */
    method GetUserDisplayName(userId: string) returns (r: Outcome<string>)
      ensures !reachable ==> r == Threw(StoreException)
      ensures reachable && FirstMatch(rows, userId).Some? ==>
        r == Returned(FirstMatch(rows, userId).value.userName)
      ensures reachable && (forall u :: u in rows ==> Key(u.userId) != Key(userId)) ==>
        r == Returned("UnknownUser_" + userId)
    {
      if !reachable {
        return Threw(StoreException);
      }
      var i := FindFirst(userId);
      r := Returned(if i < |rows| then rows[i].userName else "UnknownUser_" + userId);
    }

    /** GetAllUsers: every row, in store order. */
    method GetAllUsers() returns (r: Outcome<seq<UserDbo>>)
      ensures !reachable ==> r == Threw(StoreException)
      ensures reachable ==> r == Returned(rows)
    {
      if !reachable {
        return Threw(StoreException);
      }
      r := Returned(rows);
    }

    /** CreateUser: appends one row with the given UserId, IsAdmin, IsRoot,
        UserName and IsLockedOut and a store-assigned Id; no duplicate check.
        A UserId or UserName longer than its column is refused. */
    method CreateUser(user: UserDbo) returns (r: Outcome<()>)
      requires Valid()
      modifies this
      ensures Valid()
      ensures !reachable || !FitsColumns(user) ==> r == Threw(StoreException) && State() == old(State())
      ensures reachable && FitsColumns(user) ==> r == Returned(()) && State() == old(State()).Insert(user)
    {
      if !reachable || !FitsColumns(user) {
        return Threw(StoreException);
      }
      rows := rows + [user.(id := nextId)];
      nextId := nextId + 1;
      r := Returned(());
    }

    /** The rows as `UPDATE ... WHERE UserId = @userId` leaves them: a scan
        that patches each matching row and keeps every other one. */
    method PatchedRows(userId: string, values: UserDbo) returns (patched: seq<UserDbo>)
      ensures patched == UpdateMatching(rows, userId, values)
    {
      patched := rows;
      var i := 0;
      while i < |rows|
        invariant i <= |rows| == |patched|
        invariant forall k :: 0 <= k < i ==>
          patched[k] == if Key(rows[k].userId) == Key(userId) then Patched(rows[k], values) else rows[k]
        invariant forall k :: i <= k < |rows| ==> patched[k] == rows[k]
      {
        if Key(rows[i].userId) == Key(userId) {
          patched := patched[i := Patched(rows[i], values)];
        }
        i := i + 1;
      }
    }

    /** The rows as `DELETE ... WHERE UserId = @userId` leaves them: a scan
        that keeps, in order, every row that does not match. */
    method KeptRows(userId: string) returns (kept: seq<UserDbo>)
      ensures kept == RemoveMatching(rows, userId)
    {
      kept := [];
      var i := 0;
      while i < |rows|
        invariant i <= |rows|
        invariant kept == RemoveMatching(rows[..i], userId)
      {
        RemoveMatchingAppend(rows[..i], rows[i], userId);
        assert rows[..i + 1] == rows[..i] + [rows[i]];
        if Key(rows[i].userId) != Key(userId) {
          kept := kept + [rows[i]];
        }
        i := i + 1;
      }
      assert rows[..i] == rows;
    }

    /** UpdateUser: every row with that UserId takes IsAdmin, IsRoot, UserName
        and IsLockedOut from `user`; Id, UserId and all other rows stay. A
        UserName longer than its column is refused when some row would take it. */
    method UpdateUser(userId: string, user: UserDbo) returns (r: Outcome<()>)
      requires Valid()
      modifies this
      ensures Valid()
      ensures !reachable || (|user.userName| > MaxColumnLength && FirstMatch(old(rows), userId).Some?) ==>
        r == Threw(StoreException) && State() == old(State())
      ensures reachable && (|user.userName| <= MaxColumnLength || FirstMatch(old(rows), userId).None?) ==>
        r == Returned(()) && State() == old(State()).Update(userId, user)
    {
      if !reachable {
        return Threw(StoreException);
      }
      var first := FindFirst(userId);
      if |user.userName| > MaxColumnLength && first < |rows| {
        return Threw(StoreException);
      }
      var patched := PatchedRows(userId, user);
      ghost var updated := old(State()).Update(userId, user);
      assert old(State()).Valid() ==> updated.Valid();
      rows := patched;
      assert State() == updated;
      r := Returned(());
    }

    /** DeleteUser: removes exactly the rows with that UserId; the others
        remain in order. */
    method DeleteUser(userId: string) returns (r: Outcome<()>)
      requires Valid()
      modifies this
      ensures Valid()
      ensures !reachable ==> r == Threw(StoreException) && State() == old(State())
      ensures reachable ==> r == Returned(()) && State() == old(State()).Delete(userId)
    {
      if !reachable {
        return Threw(StoreException);
      }
      var kept := KeptRows(userId);
      ghost var deleted := old(State()).Delete(userId);
      assert old(State()).Valid() ==> deleted.Valid();
      rows := kept;
      assert State() == deleted;
      r := Returned(());
    }
  }
}

/**
 * UserEnrichmentMiddleware: runs once per request after authentication and
 * resolves the caller's row in the Users table, creating it on first sight,
 * or answers the request itself (401 without a `sub`, 403 when locked out).
 * `Enrich` is the decision as a value; `InvokeAsync` carries it out on the
 * request context and the table.
 */
module Enrichment {
  import opened Wrappers
  import opened Claims
  import opened Users
  import opened Http
  import opened UserStore

  const MissingSubMessage := "Missing 'sub' claim"
  const LockedOutMessage := "User is locked out"

  /** What the middleware does with the request: call the next stage (with the
      row it attached, or none for an anonymous request), answer it, or throw. */
  datatype Verdict =
    | Continue(attached: Option<UserDbo>)
    | Respond(status: int, message: string)
    | Fail(error: Exception)

  /** The verdict, the principal afterwards and the table afterwards. */
  datatype Enrichment = Enrichment(verdict: Verdict, user: ClaimsPrincipal, table: Table)

  /** The row built for a `sub` seen for the first time: the first `name`
      claim (even an empty one) or else the `sub` as UserName, no privileges. */
  function Newcomer(user: ClaimsPrincipal, sub: string): UserDbo {
    NewUserDbo().(userId := sub, userName := FindFirstValue(user, "name").GetOr(sub))
  }

  /** The `sub` the middleware resolves: the first `sub` claim, when not empty. */
  function Subject(user: ClaimsPrincipal): Option<string> {
    match FindFirstValue(user, "sub")
    case Some(s) => if s == "" then None else Some(s)
    case None => None
  }

  /** The enrichment decision for one request on a non-null context. A row
      is attached only for the caller's own `sub` and never a locked-out one;
      the table gains at most one row, and only when the request goes on with
      that row attached; and the identity invariant is kept. */
  function Enrich(user: ClaimsPrincipal, t: Table, reachable: bool): (e: Enrichment)
    ensures e.verdict.Continue? && e.verdict.attached.Some? ==>
      && Subject(user).Some?
      && Key(e.verdict.attached.value.userId) == Key(Subject(user).value)
      && !e.verdict.attached.value.isLockedOut
    ensures e.verdict.Continue? ==> (e.verdict.attached.Some? <==> IsAuthenticated(user))
    ensures || e.table == t
            || (e.verdict.Continue? && e.verdict.attached.Some? && e.table == t.Insert(e.verdict.attached.value))
    ensures t.Valid() ==> e.table.Valid()
  {
    if !IsAuthenticated(user) then
      Enrichment(Continue(None), AddIdentity(user, EmptyIdentity), t)
    else if Subject(user).None? then
      Enrichment(Respond(Status401Unauthorized, MissingSubMessage), user, t)
    else if !reachable then
      Enrichment(Fail(StoreException), user, t)
    else
      var sub := Subject(user).value;
      var found := FirstMatch(t.rows, sub);
      if found.None? && !FitsColumns(Newcomer(user, sub)) then
        Enrichment(Fail(StoreException), user, t)
      else
        var resolved := if found.Some? then found.value else Newcomer(user, sub);
        var t' := if found.Some? then t else t.Insert(resolved);
        if resolved.isLockedOut then
          Enrichment(Respond(Status403Forbidden, LockedOutMessage), user, t')
        else
          Enrichment(Continue(Some(resolved)), user, t')
  }

  /** Whether the middleware handed the request on to the next stage. */
  datatype Flow = InvokedNext | Responded

  class UserEnrichmentMiddleware {

    constructor() {
    }

    method InvokeAsync(context: HttpContext?, userDataService: UserDataService) returns (r: Outcome<Flow>)
      requires userDataService.Valid()
      modifies context, userDataService
      ensures userDataService.Valid()
      ensures context == null ==>
        r == Threw(ArgumentNullException("context")) && userDataService.State() == old(userDataService.State())
      ensures context != null ==>
        var e := Enrich(old(context.user), old(userDataService.State()), userDataService.reachable);
        && context.user == e.user
        && userDataService.State() == e.table
        && match e.verdict
           case Continue(attached) =>
             && r == Returned(InvokedNext)
             && context.userDbo == (if attached.Some? then attached else old(context.userDbo))
             && context.statusCode == old(context.statusCode)
             && context.responseBody == old(context.responseBody)
           case Respond(status, message) =>
             && r == Returned(Responded)
             && context.userDbo == old(context.userDbo)
             && context.statusCode == status
             && context.responseBody == old(context.responseBody) + message
           case Fail(error) =>
             && r == Threw(error)
             && context.userDbo == old(context.userDbo)
             && context.statusCode == old(context.statusCode)
             && context.responseBody == old(context.responseBody)
    {
      if context == null {
        return Threw(ArgumentNullException("context"));
      }
      if !IsAuthenticated(context.user) {
        context.user := AddIdentity(context.user, EmptyIdentity);
        return Returned(InvokedNext);
      }
      var userId := FindFirstValue(context.user, "sub");
      if userId.None? || userId.value == "" {
        context.statusCode := Status401Unauthorized;
        context.responseBody := context.responseBody + MissingSubMessage;
        return Returned(Responded);
      }
      var found :- userDataService.GetUserById(userId.value);
      var user: UserDbo;
      if found.None? {
        user := NewUserDbo().(userId := userId.value,
                              userName := FindFirstValue(context.user, "name").GetOr(userId.value));
        var created :- userDataService.CreateUser(user);
      } else {
        user := found.value;
      }
      if user.isLockedOut {
        context.statusCode := Status403Forbidden;
        context.responseBody := context.responseBody + LockedOutMessage;
        return Returned(Responded);
      }
      context.userDbo := Some(user);
      r := Returned(InvokedNext);
    }
  }

  /** An unauthenticated request goes on to the next stage with no row
      attached and the table untouched; the added identity is empty, so the
      principal stays unauthenticated and keeps exactly its claims. */
  lemma UnauthenticatedPassesThrough(user: ClaimsPrincipal, t: Table, reachable: bool)
    requires !IsAuthenticated(user)
    ensures var e := Enrich(user, t, reachable);
      && e.verdict == Continue(None)
      && e.table == t
      && !IsAuthenticated(e.user)
      && AllClaims(e.user) == AllClaims(user)
  {
    AddEmptyIdentityInvisible(user);
  }

  /** An authenticated request whose first `sub` claim is missing or empty is
      answered 401 "Missing 'sub' claim" without touching the table. */
  lemma MissingSubRejected(user: ClaimsPrincipal, t: Table, reachable: bool)
    requires IsAuthenticated(user)
    requires FindFirstValue(user, "sub").None? || FindFirstValue(user, "sub") == Some("")
    ensures Enrich(user, t, reachable) == Enrichment(Respond(401, "Missing 'sub' claim"), user, t)
  {
  }

  /** A failing table is re-thrown, not masked: the request fails with the
      store's exception and nothing is written. */
  lemma StoreFailureRethrown(user: ClaimsPrincipal, t: Table)
    requires IsAuthenticated(user) && Subject(user).Some?
    ensures Enrich(user, t, false) == Enrichment(Fail(StoreException), user, t)
  {
  }

  /** A `sub` with no row gets exactly one new row: UserId = sub, UserName =
      the first `name` claim or else the sub, no admin, root or lock-out
      flag, Id from the store. The row attached to the request is the one
      built before the insert, whose Id is still 0. */
  lemma FirstSeenCreatesOneRow(user: ClaimsPrincipal, t: Table, sub: string)
    requires IsAuthenticated(user) && Subject(user) == Some(sub)
    requires FirstMatch(t.rows, sub).None?
    requires |sub| <= MaxColumnLength && |FindFirstValue(user, "name").GetOr(sub)| <= MaxColumnLength
    ensures var built := UserDbo(0, sub, false, false, FindFirstValue(user, "name").GetOr(sub), false);
      var e := Enrich(user, t, true);
      && e.verdict == Continue(Some(built))
      && e.table.rows == t.rows + [built.(id := t.nextId)]
      && e.table.nextId == t.nextId + 1
  {
  }

  /** A newcomer whose `sub`, or the name it would be stored under, is longer
      than its column makes the insert throw: the request fails and the
      table is unchanged. */
  lemma OversizedNewcomerFails(user: ClaimsPrincipal, t: Table, sub: string)
    requires IsAuthenticated(user) && Subject(user) == Some(sub)
    requires FirstMatch(t.rows, sub).None?
    requires |sub| > MaxColumnLength || |FindFirstValue(user, "name").GetOr(sub)| > MaxColumnLength
    ensures Enrich(user, t, true) == Enrichment(Fail(StoreException), user, t)
  {
  }

  /** A `sub` that already has a row reuses the first such row unchanged and
      inserts nothing. */
  lemma KnownUserReused(user: ClaimsPrincipal, t: Table, sub: string, row: UserDbo)
    requires IsAuthenticated(user) && Subject(user) == Some(sub)
    requires FirstMatch(t.rows, sub) == Some(row)
    ensures var e := Enrich(user, t, true);
      && e.table == t
      && e.verdict == if row.isLockedOut then Respond(403, "User is locked out") else Continue(Some(row))
  {
  }

  /** The 403 "User is locked out" answer only ever comes from a row that was
      already in the table: a freshly created row is never locked out. */
  lemma LockedOutOnlyPreexisting(user: ClaimsPrincipal, t: Table, reachable: bool)
    requires Enrich(user, t, reachable).verdict.Respond?
    requires Enrich(user, t, reachable).verdict.status == 403
    ensures Subject(user).Some?
    ensures var found := FirstMatch(t.rows, Subject(user).value);
      found.Some? && found.value.isLockedOut
    ensures Enrich(user, t, reachable).table == t
  {
  }

  /** Enrichment is idempotent: running it again on the principal and table
      it produced writes nothing and reaches the same verdict; a row created
      by the first run is attached by the second with its store-assigned Id. */
  lemma {:induction false} EnrichIdempotent(user: ClaimsPrincipal, t: Table, reachable: bool)
    ensures var e1 := Enrich(user, t, reachable);
      var e2 := Enrich(e1.user, e1.table, reachable);
      && e2.table == e1.table
      && (|| e2.verdict == e1.verdict
          || (e1.table != t && e1.verdict.Continue? && e1.verdict.attached.Some? &&
              e2.verdict == Continue(Some(e1.verdict.attached.value.(id := t.nextId)))))
  {
    var e1 := Enrich(user, t, reachable);
    if !IsAuthenticated(user) {
      AddEmptyIdentityInvisible(user);
    } else if Subject(user).Some? && reachable {
      var sub := Subject(user).value;
      if FirstMatch(t.rows, sub).None? {
        var built := Newcomer(user, sub);
        FirstMatchAfterAppend(t.rows, built.(id := t.nextId), sub);
      }
    }
  }

  /** The table as the first migration seeds it: three rows with Ids 1 to 3. */
  const SeedTable := Table([
    UserDbo(1, "user001", false, false, "john_doe", false),
    UserDbo(2, "admin001", true, false, "admin_user", false),
    UserDbo(3, "root001", true, true, "root_user", false)], 4)

  /** The seeded table keeps the identity invariant. */
  lemma SeedTableValid()
    ensures SeedTable.Valid()
  {
  }

  /** On the seeded table the seeded admin is resolved to its row with no write. */
  lemma SeedAdminResolved(authenticationType: string)
    requires authenticationType != ""
    ensures var admin := ClaimsPrincipal([ClaimsIdentity(authenticationType, [Claim("sub", "admin001")])]);
      Enrich(admin, SeedTable, true) == Enrichment(Continue(Some(SeedTable.rows[1])), admin, SeedTable)
  {
    assert ClaimsOf([]) == [];
    var admin := ClaimsPrincipal([ClaimsIdentity(authenticationType, [Claim("sub", "admin001")])]);
    assert admin.identities[1..] == [];
    assert AllClaims(admin) == [Claim("sub", "admin001")];
    assert Subject(admin) == Some("admin001");
    SeedResolvesAdmin("admin001");
  }

  /** Any UserId matching "admin001" resolves to the seeded admin row. */
  lemma SeedResolvesAdmin(sub: string)
    requires Key(sub) == Key("admin001")
    ensures FirstMatch(SeedTable.rows, sub) == Some(SeedTable.rows[1])
  {
    KeyExamples();
    FirstMatchUnfold(SeedTable.rows, sub);
    FirstMatchUnfold(SeedTable.rows[1..], sub);
    assert SeedTable.rows[1..][0] == SeedTable.rows[1];
  }

  /** No seeded row answers "user002". */
  lemma SeedLacksUser002()
    ensures FirstMatch(SeedTable.rows, "user002") == None
  {
    KeyOfPlain("user001");
    KeyOfPlain("admin001");
    KeyOfPlain("root001");
    KeyOfPlain("user002");
  }

  /** On the seeded table, a newcomer carrying a `name` claim gets row 4 with
      that name and no privileges. */
  lemma SeedNewcomerCreated(authenticationType: string)
    requires authenticationType != ""
    ensures var newcomer := ClaimsPrincipal([ClaimsIdentity(authenticationType,
        [Claim("sub", "user002"), Claim("name", "jane_doe")])]);
      var e := Enrich(newcomer, SeedTable, true);
      && e.verdict == Continue(Some(UserDbo(0, "user002", false, false, "jane_doe", false)))
      && e.table.rows == SeedTable.rows + [UserDbo(4, "user002", false, false, "jane_doe", false)]
  {
    assert ClaimsOf([]) == [];
    var newcomer := ClaimsPrincipal([ClaimsIdentity(authenticationType,
        [Claim("sub", "user002"), Claim("name", "jane_doe")])]);
    assert newcomer.identities[1..] == [];
    assert AllClaims(newcomer) == [Claim("sub", "user002"), Claim("name", "jane_doe")];
    assert Subject(newcomer) == Some("user002");
    assert FindFirstValue(newcomer, "name") == Some("jane_doe");
    SeedLacksUser002();
    assert FitsColumns(Newcomer(newcomer, "user002"));
  }

  /** The lookup compares as the store does: a `sub` that differs from the
      seeded admin's UserId only by letter case and a trailing space resolves
      to the admin row, with no new row. */
  lemma PaddedSubResolvesSeededAdmin(authenticationType: string)
    requires authenticationType != ""
    ensures var caller := ClaimsPrincipal([ClaimsIdentity(authenticationType, [Claim("sub", "ADMIN001 ")])]);
      Enrich(caller, SeedTable, true) == Enrichment(Continue(Some(SeedTable.rows[1])), caller, SeedTable)
  {
    assert ClaimsOf([]) == [];
    var caller := ClaimsPrincipal([ClaimsIdentity(authenticationType, [Claim("sub", "ADMIN001 ")])]);
    assert caller.identities[1..] == [];
    assert AllClaims(caller) == [Claim("sub", "ADMIN001 ")];
    assert Subject(caller) == Some("ADMIN001 ");
    KeyExamples();
    SeedResolvesAdmin("ADMIN001 ");
  }
}

/**
 * One request through the host's pipeline, in the order the host registers
 * the stages: authentication has produced the principal in the context; the
 * enrichment middleware runs; the endpoint's HasClaim filters run; the
 * handler runs. An exception anywhere ends the request with that exception.
 */
module Pipeline {
  import opened Wrappers
  import opened Claims
  import opened Users
  import opened Http
  import opened UserStore
  import opened Enrichment
  import opened ClaimGuard
  import opened UserApi
  import opened HelloApi

  /** The routed endpoints. */
  datatype Endpoint =
    | GetMe
    | GetUser(userId: string)
    | PostUser(payload: UserDbo)
    | PutUser(userId: string, payload: UserDbo)
    | DeleteUserRoute(userId: string)
    | GetHello

  /** The HasClaim attributes on each endpoint: every one needs `sub`. */
  function EndpointGuards(endpoint: Endpoint): (g: seq<HasClaimAttribute>)
    ensures |g| > 0 && g[0] == HasClaimAttribute("sub", None)
  {
    if endpoint.GetHello? then HelloGuards else [HasClaimAttribute("sub", None)]
  }

  /** Whether the endpoint's handler may write to the table. */
  predicate Writes(endpoint: Endpoint) {
    endpoint.PostUser? || endpoint.PutUser? || endpoint.DeleteUserRoute?
  }

  /** Runs the endpoint's handler once the filters have let the request
      through. Only the three admin endpoints can write, and only for an
      admin caller. */
  method Dispatch(context: HttpContext, endpoint: Endpoint, controller: UserController)
    returns (r: Outcome<ActionResult>)
    requires controller.userDataService.Valid()
    modifies controller.userDataService
    ensures controller.userDataService.Valid()
    ensures !Writes(endpoint) || !IsAdminCaller(context.userDbo) ==>
      controller.userDataService.State() == old(controller.userDataService.State())
    ensures endpoint == GetMe && context.userDbo.Some? ==>
      r == Returned(StatusCodeResult(200, Json(context.userDbo.value)))
    ensures endpoint == GetMe && context.userDbo.None? ==>
      r == Returned(StatusCodeResult(500, Text("User data not found in context")))
    ensures endpoint == GetHello ==> r == Returned(ClownsWorld(context.user))
  {
    match endpoint {
      case GetMe =>
        var result := controller.GetCurrentUser(context);
        r := Returned(result);
      case GetUser(userId) =>
        r := controller.GetUserById(context, userId);
      case PostUser(payload) =>
        r := controller.CreateUser(context, payload);
      case PutUser(userId, payload) =>
        r := controller.UpdateUser(context, userId, payload);
      case DeleteUserRoute(userId) =>
        r := controller.DeleteUser(context, userId);
      case GetHello =>
        r := Returned(ClownsWorld(context.user));
    }
  }

  /** The action invoker: the endpoint's HasClaim filters run in order, and
      the handler runs only when none of them answered. A refused request
      gets 401 with nothing written; `hello` answers as its guards and its
      handler decide; `me` behind an admitting guard answers with the
      attached row. */
  method InvokeAction(context: HttpContext, endpoint: Endpoint, controller: UserController)
    returns (r: Outcome<ActionResult>)
    requires controller.userDataService.Valid()
    modifies controller.userDataService
    ensures controller.userDataService.Valid()
    ensures !AllAdmit(EndpointGuards(endpoint), context.user) ==>
      r == Returned(Unauthorized()) &&
      controller.userDataService.State() == old(controller.userDataService.State())
    ensures !IsAuthenticated(context.user) ==> r == Returned(Unauthorized())
    ensures !Writes(endpoint) || !IsAdminCaller(context.userDbo) ==>
      controller.userDataService.State() == old(controller.userDataService.State())
    ensures endpoint == GetMe && context.userDbo.Some? && HasClaimAttribute("sub", None).Admits(context.user) ==>
      r == Returned(StatusCodeResult(200, Json(context.userDbo.value)))
    ensures endpoint == GetMe && context.userDbo.None? && HasClaimAttribute("sub", None).Admits(context.user) ==>
      r == Returned(StatusCodeResult(500, Text("User data not found in context")))
    ensures endpoint == GetHello ==> r == Returned(HelloEndpoint(context.user))
  {
    var filterContext := new AuthorizationFilterContext(context);
    var guards := EndpointGuards(endpoint);
    RunAuthorizationFilters(guards, filterContext);
    if !IsAuthenticated(context.user) {
      UnauthenticatedNeverAdmitted(guards[0], context.user);
    }
    if filterContext.result.Some? {
      return Returned(filterContext.result.value);
    }
    r := Dispatch(context, endpoint, controller);
  }

  /** Handles one request on a fresh response. Whatever the endpoint:
      the enrichment middleware's answers (401, 403) and failures end the
      request with nothing written beyond what it wrote; an unauthenticated
      caller gets 401 and writes nothing; a locked-out caller gets 403 even
      when an admin; `hello` answers as its two guards and its handler
      decide; a request the endpoint's guards refuse gets 401 (possibly
      after its row was created); a caller who is not an admin changes the
      table at most by the lazy creation of its own row; and `me`, once its
      guard admits, answers with the attached row, so its 500 branch is
      never reached. The table's identity invariant is kept throughout. */
  method HandleRequest(context: HttpContext, endpoint: Endpoint,
                       middleware: UserEnrichmentMiddleware, controller: UserController)
    returns (r: Outcome<ActionResult>)
    requires context.userDbo == None && context.responseBody == ""
    requires controller.userDataService.Valid()
    modifies context, controller.userDataService
    ensures controller.userDataService.Valid()
    ensures var store := controller.userDataService;
      var e := Enrich(old(context.user), old(store.State()), store.reachable);
      && (e.verdict.Respond? ==>
            r == Returned(StatusCodeResult(e.verdict.status, Text(e.verdict.message))) &&
            store.State() == old(store.State()))
      && (e.verdict.Fail? ==> r == Threw(e.verdict.error) && store.State() == old(store.State()))
      && (e.verdict.Continue? && !IsAdminCaller(e.verdict.attached) ==> store.State() == e.table)
      && (!Writes(endpoint) ==> store.State() == e.table)
      && (e.verdict.Continue? && !AllAdmit(EndpointGuards(endpoint), e.user) ==>
            r == Returned(Unauthorized()) && store.State() == e.table)
      && (endpoint == GetMe && e.verdict.Continue? && HasClaimAttribute("sub", None).Admits(e.user) ==>
            e.verdict.attached.Some? &&
            r == Returned(StatusCodeResult(200, Json(e.verdict.attached.value))))
      && (endpoint == GetHello && e.verdict.Continue? ==> r == Returned(HelloEndpoint(e.user)))
    ensures var store := controller.userDataService;
      !IsAuthenticated(old(context.user)) ==>
        r == Returned(StatusCodeResult(401, NoBody)) && store.State() == old(store.State())
    ensures var store := controller.userDataService;
      var u := old(context.user);
      IsAuthenticated(u) && Subject(u).Some? && store.reachable &&
      FirstMatch(old(store.rows), Subject(u).value).Some? &&
      FirstMatch(old(store.rows), Subject(u).value).value.isLockedOut ==>
        r == Returned(StatusCodeResult(403, Text("User is locked out"))) && store.State() == old(store.State())
  {
    var store := controller.userDataService;
    ghost var user0 := context.user;
    ghost var table0 := store.State();
    ghost var e := Enrich(user0, table0, store.reachable);
    if !IsAuthenticated(user0) {
      UnauthenticatedPassesThrough(user0, table0, store.reachable);
    } else if Subject(user0).Some? && store.reachable && FirstMatch(table0.rows, Subject(user0).value).Some? {
      KnownUserReused(user0, table0, Subject(user0).value, FirstMatch(table0.rows, Subject(user0).value).value);
    }
    var outcome := middleware.InvokeAsync(context, store);
    if outcome.Threw? {
      assert e.verdict.Fail?;
      return Threw(outcome.error);
    }
    if outcome.value == Responded {
      assert e.verdict.Respond?;
      assert context.responseBody == "" + e.verdict.message;
      assert "" + e.verdict.message == e.verdict.message;
      return Returned(StatusCodeResult(context.statusCode, Text(context.responseBody)));
    }
    assert e.verdict.Continue? && context.user == e.user;
    r := InvokeAction(context, endpoint, controller);
  }

  /** A token whose subject claim is typed `SUB` passes the enrichment
      middleware, which finds the `sub` ignoring case and creates the caller's
      row, but every endpoint's exact `[HasClaim("sub")]` then refuses it: the
      request gets 401 after a write. */
  lemma UpperCaseSubCreatedThenRefused(authenticationType: string, sub: string, t: Table, endpoint: Endpoint)
    requires authenticationType != "" && sub != "" && |sub| <= MaxColumnLength
    requires FirstMatch(t.rows, sub).None?
    ensures var user := ClaimsPrincipal([ClaimsIdentity(authenticationType, [Claim("SUB", sub)])]);
      var e := Enrich(user, t, true);
      && e.verdict == Continue(Some(Newcomer(user, sub)))
      && e.table == t.Insert(Newcomer(user, sub))
      && !AllAdmit(EndpointGuards(endpoint), e.user)
  {
    var user := ClaimsPrincipal([ClaimsIdentity(authenticationType, [Claim("SUB", sub)])]);
    TypeGuardIsCaseSensitive(authenticationType, sub);
    assert user.identities[1..] == [] && ClaimsOf([]) == [];
    assert AllClaims(user) == [Claim("SUB", sub)];
    assert FindFirstValue(user, "name") == None by {
      assert !SameType("SUB", "name");
    }
    assert !EndpointGuards(endpoint)[0].Admits(user);
  }
}

/**
 * HasClaim: an authorization filter that lets a request through when the
 * caller is authenticated and carries a claim of the configured type (and,
 * when one is configured, of the configured value). Attributes stack: every
 * one of them must pass.
 */
module ClaimGuard {
  import opened Wrappers
  import opened Text
  import opened Claims
  import opened Http

  /** `[HasClaim(claimType, claimValue = null)]` */
  datatype HasClaimAttribute = HasClaimAttribute(claimType: string, claimValue: Option<string>) {

    /** The check OnAuthorization makes. With no value (null or empty) any
        claim of exactly that type will do; otherwise the principal must hold
        that type (in any letter case) with that value. Either way an admitted
        principal is authenticated and FindFirst finds a claim of that type,
        so a handler behind the guard reads a claim that is there. */
    predicate Admits(user: ClaimsPrincipal): (b: bool)
      ensures b ==> IsAuthenticated(user) && FindFirstValue(user, claimType).Some?
    {
      ExactTypeIsFound(claimType, user);
      && IsAuthenticated(user)
      && if claimValue.None? || claimValue.value == "" then
           exists c :: c in AllClaims(user) && c.claimType == claimType
         else
           HasClaim(user, claimType, claimValue.value)
    }

    /** Sets the filter context's result to 401 when the check fails, and
        leaves it unset (the request proceeds) when it passes. */
    method OnAuthorization(context: AuthorizationFilterContext)
      modifies context
      ensures context.result ==
        if Admits(context.httpContext.user) then old(context.result) else Some(Unauthorized())
    {
      var user := context.httpContext.user;
      if Identity(user).None? || !Identity(user).value.IsAuthenticated() {
        context.result := Some(Unauthorized());
        return;
      }
      var hasClaim: bool;
      if claimValue.None? || claimValue.value == "" {
        hasClaim := exists c :: c in AllClaims(user) && c.claimType == claimType;
      } else {
        hasClaim := HasClaim(user, claimType, claimValue.value);
      }
      if !hasClaim {
        context.result := Some(Unauthorized());
        return;
      }
    }
  }

  /** The filter context: the request and the short-circuit result. */
  class AuthorizationFilterContext {
    const httpContext: HttpContext
    var result: Option<ActionResult>

    constructor(httpContext: HttpContext)
      ensures this.httpContext == httpContext && result == None
    {
      this.httpContext := httpContext;
      result := None;
    }
  }

  /** Stacked guards: all of them admit the principal. */
  predicate AllAdmit(guards: seq<HasClaimAttribute>, user: ClaimsPrincipal) {
    forall g :: g in guards ==> g.Admits(user)
  }

  /** Runs the endpoint's filters in order until one sets a result: the
      request proceeds (no result) exactly when every guard admits it, and is
      otherwise answered 401. */
  method RunAuthorizationFilters(guards: seq<HasClaimAttribute>, context: AuthorizationFilterContext)
    requires context.result == None
    modifies context
    ensures context.result ==
      if AllAdmit(guards, context.httpContext.user) then None else Some(Unauthorized())
  {
    var i := 0;
    while i < |guards| && context.result == None
      invariant i <= |guards|
      invariant context.result == None ==> forall k :: 0 <= k < i ==> guards[k].Admits(context.httpContext.user)
      invariant context.result != None ==>
        context.result == Some(Unauthorized()) && !AllAdmit(guards, context.httpContext.user)
    {
      guards[i].OnAuthorization(context);
      i := i + 1;
    }
  }

  /** A claim whose type is exactly `claimType` is one FindFirst finds. */
  lemma ExactTypeIsFound(claimType: string, user: ClaimsPrincipal)
    ensures (exists c :: c in AllClaims(user) && c.claimType == claimType) ==>
      FindFirstValue(user, claimType).Some?
  {
    if c :| c in AllClaims(user) && c.claimType == claimType {
      assert SameType(c.claimType, claimType);
    }
  }

  /** The type-only check compares types exactly, while FindFirst and
      HasClaim ignore case: an authenticated token whose only claim is
      `SUB` gives FindFirst("sub") a value and satisfies HasClaim("sub", v),
      yet `[HasClaim("sub")]` refuses it. */
  lemma TypeGuardIsCaseSensitive(authenticationType: string, v: string)
    requires authenticationType != ""
    ensures var user := ClaimsPrincipal([ClaimsIdentity(authenticationType, [Claim("SUB", v)])]);
      && FindFirstValue(user, "sub") == Some(v)
      && HasClaimAttribute("sub", Some(v)).Admits(user) == (v != "")
      && !HasClaimAttribute("sub", None).Admits(user)
  {
    var user := ClaimsPrincipal([ClaimsIdentity(authenticationType, [Claim("SUB", v)])]);
    assert user.identities[1..] == [] && ClaimsOf([]) == [];
    assert AllClaims(user) == [Claim("SUB", v)];
    assert ToLower("SUB") == "sub";
    assert SameType("SUB", "sub");
  }

  /** A configured empty value behaves as no value at all. */
  lemma EmptyValueIsNoValue(claimType: string, user: ClaimsPrincipal)
    ensures HasClaimAttribute(claimType, Some("")).Admits(user) == HasClaimAttribute(claimType, None).Admits(user)
  {
  }

  /** No guard admits an unauthenticated principal, whatever its claims. */
  lemma UnauthenticatedNeverAdmitted(g: HasClaimAttribute, user: ClaimsPrincipal)
    requires !IsAuthenticated(user)
    ensures !g.Admits(user)
  {
  }

  /** Stacking guards is conjunction. */
  lemma StackedGuardsConjoin(first: seq<HasClaimAttribute>, rest: seq<HasClaimAttribute>, user: ClaimsPrincipal)
    ensures AllAdmit(first + rest, user) <==> AllAdmit(first, user) && AllAdmit(rest, user)
  {
  }
}

/**
 * The caller's identity as the authentication layer leaves it: a principal
 * made of identities, each with an authentication type and its claims.
 */
module Claims {
  import opened Wrappers
  import opened Text

  datatype Claim = Claim(claimType: string, value: string)

  /** An identity is authenticated when its authentication type is not empty;
      `new ClaimsIdentity()` has none. */
  datatype ClaimsIdentity = ClaimsIdentity(authenticationType: string, claims: seq<Claim>) {
    predicate IsAuthenticated() {
      authenticationType != ""
    }
  }

  const EmptyIdentity := ClaimsIdentity("", [])

  datatype ClaimsPrincipal = ClaimsPrincipal(identities: seq<ClaimsIdentity>)

  /** `principal.Identity`: the primary (first) identity, if any. */
  function Identity(p: ClaimsPrincipal): Option<ClaimsIdentity> {
    if |p.identities| == 0 then None else Some(p.identities[0])
  }

  /** `principal.Identity?.IsAuthenticated == true` */
  predicate IsAuthenticated(p: ClaimsPrincipal) {
    Identity(p).Some? && Identity(p).value.IsAuthenticated()
  }

  /** The claims of a list of identities, identity by identity. */
  function ClaimsOf(ids: seq<ClaimsIdentity>): (r: seq<Claim>)
    ensures forall k :: 0 <= k < |ids| ==> forall c :: c in ids[k].claims ==> c in r
    ensures forall c :: c in r ==> exists k :: 0 <= k < |ids| && c in ids[k].claims
  {
    if |ids| == 0 then [] else ids[0].claims + ClaimsOf(ids[1..])
  }

  /** `principal.Claims` */
  function AllClaims(p: ClaimsPrincipal): seq<Claim> {
    ClaimsOf(p.identities)
  }

  /** How the framework's FindFirst and HasClaim compare claim types:
      ordinally, ignoring case. */
  predicate SameType(a: string, b: string) {
    ToLower(a) == ToLower(b)
  }

  /** Position of the first claim of the given type, or |claims| if none. */
  function FirstIndexOfType(claims: seq<Claim>, claimType: string): (i: nat)
    ensures i <= |claims|
    ensures i < |claims| ==> SameType(claims[i].claimType, claimType)
    ensures forall j :: 0 <= j < i ==> !SameType(claims[j].claimType, claimType)
  {
    if |claims| == 0 then 0
    else if SameType(claims[0].claimType, claimType) then 0
    else 1 + FirstIndexOfType(claims[1..], claimType)
  }

  /** The first claim of the given type, whatever the case of its type. */
  function FirstOfType(claims: seq<Claim>, claimType: string): (r: Option<Claim>)
    ensures r.Some? <==> exists c :: c in claims && SameType(c.claimType, claimType)
    ensures r.Some? ==> r.value in claims && SameType(r.value.claimType, claimType)
  {
    var i := FirstIndexOfType(claims, claimType);
    if i < |claims| then Some(claims[i]) else None
  }

  /** `principal.FindFirst(claimType)?.Value` */
  function FindFirstValue(p: ClaimsPrincipal, claimType: string): Option<string> {
    match FirstOfType(AllClaims(p), claimType)
    case Some(c) => Some(c.value)
    case None => None
  }

  /** `principal.HasClaim(claimType, value)`: the type compared ignoring
      case, the value exactly. */
  predicate HasClaim(p: ClaimsPrincipal, claimType: string, value: string) {
    exists c :: c in AllClaims(p) && SameType(c.claimType, claimType) && c.value == value
  }

  /** `principal.AddIdentity(identity)` */
  function AddIdentity(p: ClaimsPrincipal, identity: ClaimsIdentity): ClaimsPrincipal {
    ClaimsPrincipal(p.identities + [identity])
  }

  lemma {:induction false} ClaimsOfAppend(ids: seq<ClaimsIdentity>, identity: ClaimsIdentity)
    ensures ClaimsOf(ids + [identity]) == ClaimsOf(ids) + identity.claims
  {
    if |ids| == 0 {
      assert ids + [identity] == [identity];
    } else {
      assert (ids + [identity])[1..] == ids[1..] + [identity];
      ClaimsOfAppend(ids[1..], identity);
    }
  }

  /** Adding an empty, unauthenticated identity changes neither the claims
      nor whether the principal is authenticated. */
  lemma AddEmptyIdentityInvisible(p: ClaimsPrincipal)
    ensures AllClaims(AddIdentity(p, EmptyIdentity)) == AllClaims(p)
    ensures IsAuthenticated(AddIdentity(p, EmptyIdentity)) == IsAuthenticated(p)
    ensures forall t :: FindFirstValue(AddIdentity(p, EmptyIdentity), t) == FindFirstValue(p, t)
  {
    ClaimsOfAppend(p.identities, EmptyIdentity);
    assert EmptyIdentity.claims == [];
    assert AllClaims(p) + [] == AllClaims(p);
  }
}

/**
 * HelloController: `GET /hello`, behind two stacked guards (`sub` and
 * `userFart`), greets the caller from two claims and touches nothing else.
 */
module HelloApi {
  import opened Wrappers
  import opened Claims
  import opened Http
  import opened ClaimGuard

  /** `[HasClaim("sub")] [HasClaim("userFart")]` */
  const HelloGuards := [HasClaimAttribute("sub", None), HasClaimAttribute("userFart", None)]

  /** `$"Hello, {userFart}! (UserID: {userId})"` */
  function Greeting(userFart: string, userId: string): string {
    "Hello, " + userFart + "! (UserID: " + userId + ")"
  }

  /** ClownsWorld: 200 with a text body greeting the first `userFart` value
      after "Hello, " and carrying the first `sub` value after it (an absent
      claim interpolates as empty). */
  function ClownsWorld(user: ClaimsPrincipal): (r: ActionResult)
    ensures r.StatusCodeResult? && r.statusCode == 200 && r.body.Text?
    ensures var userFart := FindFirstValue(user, "userFart").GetOr("");
      var userId := FindFirstValue(user, "sub").GetOr("");
      var at := 7 + |userFart| + 11;
      && |r.body.text| == at + |userId| + 1
      && r.body.text[..7] == "Hello, "
      && r.body.text[7..7 + |userFart|] == userFart
      && r.body.text[at..at + |userId|] == userId
  {
    var userFart := FindFirstValue(user, "userFart").GetOr("");
    var userId := FindFirstValue(user, "sub").GetOr("");
    GreetingContainsUserId(userFart, userId);
    OkText(Greeting(userFart, userId))
  }

  /** The endpoint behind its filters: 401 unless both guards admit. */
  function HelloEndpoint(user: ClaimsPrincipal): ActionResult {
    if AllAdmit(HelloGuards, user) then ClownsWorld(user) else Unauthorized()
  }

  /** The greeting carries the caller's id at a fixed place, after the
      userFart value, so the response contains the `sub`. */
  lemma GreetingContainsUserId(userFart: string, userId: string)
    ensures var g := Greeting(userFart, userId);
      var at := 7 + |userFart| + 11;
      && |g| == at + |userId| + 1
      && g[..7] == "Hello, "
      && g[7..7 + |userFart|] == userFart
      && g[at..at + |userId|] == userId
  {
    var g := Greeting(userFart, userId);
    assert g == ("Hello, " + userFart + "! (UserID: ") + userId + ")";
    assert |"Hello, "| == 7 && |"! (UserID: "| == 11;
  }

  /** /hello needs both claims under exactly those type names: missing
      either one gives 401, and with both present the answer is 200 with the
      greeting from their first values (found ignoring case). */
  lemma HelloNeedsBothClaims(user: ClaimsPrincipal)
    ensures HelloEndpoint(user).StatusCode() == 200 <==>
      && IsAuthenticated(user)
      && (exists c :: c in AllClaims(user) && c.claimType == "sub")
      && (exists c :: c in AllClaims(user) && c.claimType == "userFart")
    ensures HelloEndpoint(user).StatusCode() == 200 ==>
      FindFirstValue(user, "sub").Some? && FindFirstValue(user, "userFart").Some?
    ensures HelloEndpoint(user).StatusCode() != 200 ==> HelloEndpoint(user) == Unauthorized()
    ensures HelloEndpoint(user).StatusCode() == 200 ==>
      HelloEndpoint(user) == OkText(Greeting(FindFirstValue(user, "userFart").value, FindFirstValue(user, "sub").value))
  {
    assert AllAdmit(HelloGuards, user) <==>
      HelloGuards[0].Admits(user) && HelloGuards[1].Admits(user);
  }

  /** A token carrying only `sub` and `iss` is refused with 401 by the
      `userFart` guard, whichever identity type authenticated it. */
  lemma SubAndIssTokenRefused(authenticationType: string, userId: string)
    requires authenticationType != ""
    ensures HelloEndpoint(ClaimsPrincipal([ClaimsIdentity(authenticationType,
      [Claim("sub", userId), Claim("iss", "test-issuer")])])) == Unauthorized()
  {
    var user := ClaimsPrincipal([ClaimsIdentity(authenticationType, [Claim("sub", userId), Claim("iss", "test-issuer")])]);
    assert user.identities[1..] == [] && ClaimsOf([]) == [];
    assert AllClaims(user) == [Claim("sub", userId), Claim("iss", "test-issuer")];
    assert !HelloGuards[1].Admits(user);
  }
}

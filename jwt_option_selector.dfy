/**
 * JWTOptionSelector.GetJwtBearerOptions: in a development environment it
 * switches off claim mapping and every token check on the options it is
 * given; then, on every path, it throws.
 */
module JwtOptions {
  import opened Wrappers
  import opened Http
  import opened Environments

  /** Which signature validator the parameters carry: the library's own, or
      one that accepts any token by parsing it without checking. */
  datatype SignatureValidator = LibraryValidator | ParseWithoutChecking

  datatype TokenValidationParameters = TokenValidationParameters(
    validateIssuer: bool,
    validateAudience: bool,
    validateLifetime: bool,
    validateIssuerSigningKey: bool,
    requireSignedTokens: bool,
    requireExpirationTime: bool,
    signatureValidator: SignatureValidator)

  /** The parameters the development branch installs: no check at all. */
  const NoValidation := TokenValidationParameters(false, false, false, false, false, false, ParseWithoutChecking)

  const NullEnvironmentParam := "[STARTUP] environment is null when deciding on JWT Bearer options"
  const NoEnvironmentMessage := "[STARTUP] no Environment defined !"

  class JwtBearerOptions {
    var mapInboundClaims: bool
    var tokenValidationParameters: TokenValidationParameters

    constructor(mapInboundClaims: bool, parameters: TokenValidationParameters)
      ensures this.mapInboundClaims == mapInboundClaims && tokenValidationParameters == parameters
    {
      this.mapInboundClaims := mapInboundClaims;
      tokenValidationParameters := parameters;
    }
  }

  /** A null environment throws ArgumentNullException (whose one-string
      constructor takes the text as the parameter name) and touches nothing.
      In development the options lose claim mapping and all six checks, then
      the method throws anyway; elsewhere it throws with the options
      untouched. It never returns normally. */
  method GetJwtBearerOptions(options: JwtBearerOptions?, env: Option<HostEnvironment>)
    returns (r: Outcome<JwtBearerOptions>)
    modifies options
    ensures r.Threw?
    ensures env.None? ==>
      && r == Threw(ArgumentNullException("[STARTUP] environment is null when deciding on JWT Bearer options"))
      && (options != null ==> unchanged(options))
    ensures env.Some? && IsDev(env.value) && options == null ==> r == Threw(NullReferenceException)
    ensures env.Some? && IsDev(env.value) && options != null ==>
      && r == Threw(StartupException("[STARTUP] no Environment defined !"))
      && !options.mapInboundClaims
      && options.tokenValidationParameters == NoValidation
    ensures env.Some? && !IsDev(env.value) ==>
      && r == Threw(StartupException("[STARTUP] no Environment defined !"))
      && (options != null ==> unchanged(options))
  {
    if env.None? {
      return Threw(ArgumentNullException(NullEnvironmentParam));
    }
    if IsDev(env.value) {
      if options == null {
        return Threw(NullReferenceException);
      }
      options.mapInboundClaims := false;
      options.tokenValidationParameters := NoValidation;
    }
    r := Threw(StartupException(NoEnvironmentMessage));
  }
}

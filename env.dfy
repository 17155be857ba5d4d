/**
 * The environment-name predicates IsDev, IsProd and IsPreview. The host's
 * own IsDevelopment, IsProduction and IsStaging compare the name with
 * "Development", "Production" and "Staging" ignoring case; case is folded
 * here for ASCII letters only.
 */
module Environments {
  import opened Text

  datatype HostEnvironment = HostEnvironment(environmentName: string)

  /** The host's checks: the name equals "development", "production" or
      "staging" once folded. */
  predicate IsDevelopment(env: HostEnvironment) { ToLower(env.environmentName) == "development" }
  predicate IsProduction(env: HostEnvironment) { ToLower(env.environmentName) == "production" }
  predicate IsStaging(env: HostEnvironment) { ToLower(env.environmentName) == "staging" }

  /** The host's development check, or exactly "Development" or "Local".
      The "Development" test adds nothing to the host's check; "Local"
      counts in that exact case only. */
  predicate IsDev(env: HostEnvironment): (b: bool)
    ensures b <==> ToLower(env.environmentName) == "development" || env.environmentName == "Local"
  {
    assert env.environmentName == "Development" ==> ToLower(env.environmentName) == "development";
    IsDevelopment(env) || env.environmentName == "Development" || env.environmentName == "Local"
  }

  /** The host's production check, or "prod" in any case ("Prod" folded).
      A production name is never a development name. */
  predicate IsProd(env: HostEnvironment): (b: bool)
    ensures b ==> !IsDev(env)
  {
    DevNames(env);
    IsProduction(env) || ToLower(env.environmentName) == "prod"
  }

  /** The host's staging check, or "prev" in any case ("Prev" folded).
      A preview name is neither a development nor a production name. */
  predicate IsPreview(env: HostEnvironment): (b: bool)
    ensures b ==> !IsDev(env) && !IsProd(env)
  {
    DevNames(env);
    IsStaging(env) || ToLower(env.environmentName) == "prev"
  }

  /** The names IsDev accepts are "development" and "local" once folded. */
  lemma DevNames(env: HostEnvironment)
    ensures IsDev(env) ==>
      ToLower(env.environmentName) == "development" || ToLower(env.environmentName) == "local"
  {
    var name := env.environmentName;
    if name == "Development" {
      assert ToLower(name) == "development";
    } else if name == "Local" {
      assert ToLower(name) == "local";
    }
  }

  /** At most one of IsDev, IsProd and IsPreview holds for any name: the
      folded names each accepts are pairwise distinct. */
  lemma AtMostOneEnvironment(env: HostEnvironment)
    ensures !(IsDev(env) && IsProd(env))
    ensures !(IsDev(env) && IsPreview(env))
    ensures !(IsProd(env) && IsPreview(env))
  {
    DevNames(env);
  }

  /** The added names: "Local" counts as development only with that exact
      case, while "PROD" and "pReV" count like "prod" and "prev". */
  lemma NameCases()
    ensures IsDev(HostEnvironment("Local")) && !IsDev(HostEnvironment("local"))
    ensures IsDev(HostEnvironment("DEVELOPMENT"))
    ensures IsProd(HostEnvironment("PROD")) && IsPreview(HostEnvironment("pReV"))
  {
    assert ToLower("local") != "development" by {
      assert |ToLower("local")| == 5;
    }
    assert ToLower("DEVELOPMENT") == "development";
    assert ToLower("PROD") == "prod";
    assert ToLower("pReV") == "prev";
  }
}

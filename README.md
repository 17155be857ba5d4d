# User-management web API: request pipeline, claim guard and user table

This project models the core of a small ASP.NET user-management API.

- **The Users table.** This is a sequence of `UserDBO` rows in store order. `UserId` is not unique, and `Id` comes from an identity counter. `WHERE UserId = @userId` compares as SQL Server does under its default collation: trailing spaces and letter case do not count (`Users.Key`). A value longer than its 255-character column makes the write throw. It is held by `UserDataService`, a class whose methods look up, insert, update-all-matching and delete-all-matching rows. Each of these methods is proved against a pure operation on the `Table` value.
- **`UserEnrichmentMiddleware`.**
  - An unauthenticated request passes through with an empty identity added.
  - An authenticated request without a `sub` gets 401.
  - An unseen `sub` gets exactly one new row.
  - A locked-out row gets 403.
  - Otherwise the row is attached to the request.

  `Enrich` is this decision as a value. `InvokeAsync` carries it out on the request context and the table.
- **The `HasClaim` authorization filter.** It answers 401 unless the caller is authenticated and holds the claim. Stacked attributes form a conjunction.
- **The five `UserController` handlers.** The four handlers other than `me` are admin-gated. Each handler ends in an exact status and body, and makes at most one table write.
- **`HelloController`'s greeting** behind its two stacked guards.
- **The environment-name predicates.**
- **`JWTOptionSelector`**, which throws on every path.
- **The migrations runner:** the connection-string priority and the exit code.
- **The pipeline.** `Pipeline.HandleRequest` composes the stages in the host's order (`WebApi/Startup.cs:62-71`): authentication (its principal is an input), then the enrichment middleware, then the endpoint's `HasClaim` filters, then the handler. It proves these guarantees across the stages:
  - a locked-out caller gets 403 on every endpoint, admin or not;
  - a request the middleware answers (401, 403) or fails writes nothing; a request that the endpoint's guards refuse (401), or that a non-admin makes of an admin endpoint (403), writes at most the caller's lazily created row;
  - a caller who is not an admin changes the table at most by the lazy creation of their own row.

Facts of the code that shape the model:

- **Order of guard and middleware.** `HasClaim` is an MVC filter, so it runs after the enrichment middleware (`WebApi/Startup.cs:64-66`).
- **IsRoot on create.** `CreateUser` inserts the payload's `IsRoot` as given (`WebApi/Controllers/UserController.cs:77`). Only `UpdateUser` keeps the stored `IsRoot` (`WebApi/Controllers/UserController.cs:100`).
- **401 from the guard.** A failed `HasClaim` check answers 401 (`UnauthorizedResult`), although the comment on that line says 403 (`WebApi/HasClaimAttribute.cs:44`).
- **Claim type comparisons.** `FindFirst` and `HasClaim(type, value)` compare claim types ignoring case. The guard's type-only test compares exactly (`WebApi/HasClaimAttribute.cs:34`). A token whose subject claim is typed `SUB` therefore gets its row created by the middleware, and every endpoint then refuses it with 401 (`Pipeline.UpperCaseSubCreatedThenRefused`).
- **Hello integration test.** The happy-path test (`WebApi.Tests/HelloControllerIntegrationTests.cs:30-44`) sends a token with only `sub` and `iss` and expects 200. The `userFart` guard answers such a token with 401, and no code adds a `userFart` claim; only the comments at `WebApi/Startup.cs:65` and `WebApi/ZHost/Startup.cs:63` say the middleware does. `HelloApi.SubAndIssTokenRefused` states the code's answer.

Two consequences of the code are kept as they are:

- On first sight, the middleware attaches the row object it built, whose Id is 0. It does not attach the row with the Id the store assigned.
- When several rows share a UserId, an update gives all of them the first row's IsRoot.

Exceptions are values: `Outcome` is `Returned(v)` or `Threw(e)`. A store whose connection fails throws `StoreException` on every call and changes nothing.

## Model

| member | source | states |
|---|---|---|
| Users.NewUserDbo | WebApi/Models/UserDBO.cs:7-12 | a fresh record has Id 0, empty UserId and UserName, and IsAdmin, IsRoot and IsLockedOut all false |
| Users.KeyOfPlain | WebApi.Migrations/Migraitions/001_CreateUsersTable.cs:21 | a lower-case UserId not ending in a space is its own comparison key, so such UserIds match exactly when equal |
| Users.KeyExamples | WebApi/Services/UserDataService.cs:37 | "admin001 " and "ADMIN001" match "admin001"; "admin002" and "user001" do not |
| Users.FirstIndex | WebApi/Services/UserDataService.cs:37-38 | the position found is within the rows, holds a UserId matching the one asked for under the store's comparison, and no earlier row matches |
| Users.FirstMatch | WebApi/Services/UserDataService.cs:34-39 | the lookup finds a row exactly when some row's UserId matches (trailing spaces and case ignored), and what it returns is such a row of the table |
| Users.UpdateMatching | WebApi/Services/UserDataService.cs:62-73 | same length; every row whose UserId matches gets the four updated columns with its Id and UserId kept, and every other row is unchanged |
| Users.RemoveMatching | WebApi/Services/UserDataService.cs:75-80 | a row survives exactly when it was in the table with a UserId that does not match; the result is never longer |
| Users.Table.Insert | WebApi/Services/UserDataService.cs:48-60 | the old rows stay as a prefix and exactly one row follows, carrying the caller's five columns and an Id above every Id already there; the identity invariant is kept |
| Users.Table.Update | WebApi/Services/UserDataService.cs:62-73 | no row is added or removed, every row keeps its Id and UserId, each matching row is patched and every other row is left exactly as it was, the counter stays, the lookup of that UserId finds its first row patched, and the identity invariant is kept |
| Users.Table.Delete | WebApi/Services/UserDataService.cs:75-80 | afterwards no row matches that UserId, every row with another UserId is still there and no row is new, the table is never longer, the counter is not wound back, and the identity invariant is kept |
| Users.FirstMatchAfterAppend | WebApi/Services/UserDataService.cs:48-60 | after an insert, a lookup still returns an older match first; otherwise it returns the new row if its UserId matches |
| Users.FirstMatchAfterUpdate | WebApi/Services/UserDataService.cs:62-73 | after an update, the updated UserId resolves to its first row patched, and every other UserId resolves as before |
| Users.FirstMatchAfterRemove | WebApi/Services/UserDataService.cs:75-80 | after a delete, the UserId resolves to nothing, and every other UserId resolves as before |
| Users.RemoveMatchingAppend | WebApi/Services/UserDataService.cs:75-80 | a delete keeps the surviving rows in their order: deleting from `s + [x]` is deleting from `s`, then keeping `x` exactly when it does not match |
| Users.RemoveMatchingCounts | WebApi/Services/UserDataService.cs:75-80 | a delete drops every copy of a matching row and keeps every copy of any other row, with its multiplicity |
| Users.RemoveMatchingIncreasing | WebApi.Migrations/Migraitions/001_CreateUsersTable.cs:20 | a delete keeps the identity column's Ids increasing along the rows |
| Claims.FirstOfType | WebApi/UserEnrichmentMiddleware.cs:41 | `FindFirst` finds a claim exactly when one of that type exists, types compared ignoring case, and returns such a claim |
| Claims.AddEmptyIdentityInvisible | WebApi/UserEnrichmentMiddleware.cs:33-37 | adding the empty identity changes neither the claims, nor whether the principal is authenticated, nor any `FindFirst` result |
| UserStore.UserDataService.FindFirst | WebApi/Services/UserDataService.cs:34-39 | the scan stops at the first row with the UserId, or at the end when there is none |
| UserStore.UserDataService.GetUserById | WebApi/Services/UserDataService.cs:34-39 | returns the first row with the UserId, or null exactly when no row has it; throws when the store fails |
| UserStore.UserDataService.GetUserDisplayName | WebApi/Services/UserDataService.cs:26-32 | the first matching row's UserName, else "UnknownUser_" + userId; throws when the store fails |
| UserStore.UserDataService.GetAllUsers | WebApi/Services/UserDataService.cs:41-46 | every row in store order; throws when the store fails |
| UserStore.UserDataService.CreateUser | WebApi/Services/UserDataService.cs:48-60 | the new table is the old one with exactly one row inserted, with no duplicate check; a failing store, or a UserId or UserName longer than 255, throws and changes nothing; the identity invariant is kept |
| UserStore.UserDataService.UpdateUser | WebApi/Services/UserDataService.cs:62-73 | the new rows are exactly `UpdateMatching` of the old rows; a failing store, or a UserName longer than 255 when some row matches, throws and changes nothing; the identity invariant is kept |
| UserStore.UserDataService.PatchedRows | WebApi/Services/UserDataService.cs:62-73 | the scan behind the update yields exactly `UpdateMatching` of the rows, proved by loop invariants |
| UserStore.UserDataService.KeptRows | WebApi/Services/UserDataService.cs:75-80 | the scan behind the delete keeps exactly `RemoveMatching` of the rows, in order, proved by a loop invariant |
| UserStore.UserDataService.DeleteUser | WebApi/Services/UserDataService.cs:75-80 | the new rows are exactly `RemoveMatching` of the old rows, kept in order; a failing store changes nothing; the identity invariant is kept |
| Enrichment.Enrich | WebApi/UserEnrichmentMiddleware.cs:33-79 | a row is attached only for the caller's own `sub` and is never locked out; a request that goes on carries a row exactly when its caller is authenticated; the table is unchanged or gains exactly the attached row, and only when the request goes on; the identity invariant is kept |
| Enrichment.UserEnrichmentMiddleware.InvokeAsync | WebApi/UserEnrichmentMiddleware.cs:22-86 | a null context throws ArgumentNullException("context") with nothing changed; otherwise the principal, the table, the attached row, the status, the body and whether `next` runs are all as `Enrich` decides; the identity invariant is kept |
| Enrichment.UnauthenticatedPassesThrough | WebApi/UserEnrichmentMiddleware.cs:33-39 | an unauthenticated request continues with no row attached and the table untouched; the principal stays unauthenticated with the same claims |
| Enrichment.MissingSubRejected | WebApi/UserEnrichmentMiddleware.cs:41-48 | an authenticated request whose first `sub` is missing or empty gets 401 "Missing 'sub' claim", and the table is untouched |
| Enrichment.StoreFailureRethrown | WebApi/UserEnrichmentMiddleware.cs:81-85 | a failing store's exception is re-thrown, and nothing is written |
| Enrichment.FirstSeenCreatesOneRow | WebApi/UserEnrichmentMiddleware.cs:51-67 | an unseen `sub` whose row fits its columns adds exactly one row: UserId = sub, UserName = the first `name` claim or else the sub, all three flags false; that row is attached |
| Enrichment.OversizedNewcomerFails | WebApi/UserEnrichmentMiddleware.cs:65 | an unseen `sub` whose UserId or UserName would exceed 255 characters makes the insert throw: the request fails and nothing is written |
| Enrichment.KnownUserReused | WebApi/UserEnrichmentMiddleware.cs:51-53 | an existing `sub` reuses its first row unchanged, writes nothing, and answers 403 exactly when that row is locked out |
| Enrichment.LockedOutOnlyPreexisting | WebApi/UserEnrichmentMiddleware.cs:56-75 | a 403 "User is locked out" only ever comes from a row already in the table, and writes nothing |
| Enrichment.EnrichIdempotent | WebApi/UserEnrichmentMiddleware.cs:51-79 | a second enrichment on the resulting principal and table writes nothing and reaches the same verdict; a row created by the first run is attached with its store-assigned Id |
| Enrichment.SeedTableValid | WebApi.Migrations/Migraitions/001_CreateUsersTable.cs:28-31 | the seeded table satisfies the identity invariant |
| Enrichment.SeedAdminResolved | WebApi.Migrations/Migraitions/001_CreateUsersTable.cs:28-31 | on the seeded table, the seeded admin resolves to its row with no write |
| Enrichment.SeedNewcomerCreated | WebApi.Migrations/Migraitions/001_CreateUsersTable.cs:28-31 | on the seeded table, a newcomer with a `name` claim gets row 4 with that name and no privileges |
| Enrichment.PaddedSubResolvesSeededAdmin | WebApi/Services/UserDataService.cs:37 | a `sub` of "ADMIN001 " resolves to the seeded admin row, with no write |
| ClaimGuard.HasClaimAttribute.OnAuthorization | WebApi/HasClaimAttribute.cs:19-47 | sets the result to 401 exactly when the caller is unauthenticated or lacks the claim (by exact type alone, or by type ignoring case and exact value when a non-empty value is configured); otherwise leaves it unset |
| ClaimGuard.HasClaimAttribute.Admits | WebApi/HasClaimAttribute.cs:23-40 | a caller the guard admits is authenticated, and `FindFirst` of the guarded claim type succeeds for it |
| ClaimGuard.RunAuthorizationFilters | WebApi/HasClaimAttribute.cs:7 | stacked filters leave the result unset exactly when every guard admits the caller, and otherwise answer 401 |
| ClaimGuard.EmptyValueIsNoValue | WebApi/HasClaimAttribute.cs:31 | a configured empty value behaves exactly like no value |
| ClaimGuard.TypeGuardIsCaseSensitive | WebApi/HasClaimAttribute.cs:31-40 | for a token whose only claim is typed `SUB`, `FindFirst("sub")` succeeds and `HasClaim("sub", v)` admits a non-empty v, but `HasClaim("sub")` refuses |
| ClaimGuard.UnauthenticatedNeverAdmitted | WebApi/HasClaimAttribute.cs:23-27 | no guard admits an unauthenticated caller, whatever its claims |
| ClaimGuard.StackedGuardsConjoin | WebApi/HasClaimAttribute.cs:7 | stacking lists of guards is conjunction |
| HelloApi.GreetingContainsUserId | WebApi/Controllers/HelloController.cs:27 | the greeting is "Hello, " + userFart + "! (UserID: " + sub + ")", with the sub at a fixed position |
| HelloApi.ClownsWorld | WebApi/Controllers/HelloController.cs:21-28 | 200 with a text greeting that carries the first `userFart` value after "Hello, " and the first `sub` value at a fixed place after it |
| HelloApi.HelloNeedsBothClaims | WebApi/Controllers/HelloController.cs:19-27 | /hello answers 200 exactly when the caller is authenticated with claims typed exactly `sub` and `userFart`, with the greeting from their first values; otherwise it answers 401 |
| HelloApi.SubAndIssTokenRefused | WebApi.Tests/HelloControllerIntegrationTests.cs:30-44 | the happy-path test's token, with only `sub` and `iss`, is answered 401 by the `userFart` guard |
| Environments.DevNames | WebApi/env.cs:9-12 | IsDev accepts only names that fold to "development" or "local" |
| Environments.IsDev | WebApi/env.cs:9-12 | true exactly when the name folds to "development" or is exactly "Local" |
| Environments.IsProd | WebApi/env.cs:14-17 | a production name is never a development name |
| Environments.IsPreview | WebApi/env.cs:19-22 | a preview name is neither a development nor a production name |
| Environments.AtMostOneEnvironment | WebApi/env.cs:9-22 | at most one of IsDev, IsProd and IsPreview holds for any name |
| Environments.NameCases | WebApi/env.cs:9-22 | "Local" is development only in that exact case; "DEVELOPMENT", "PROD" and "pReV" are accepted in any case |
| UserApi.UpdateValues | WebApi/Controllers/UserController.cs:96-103 | the values written: the route id as UserId, the existing row's IsRoot, and the payload's IsAdmin, UserName and IsLockedOut |
| UserApi.UserController.GetCurrentUser | WebApi/Controllers/UserController.cs:31-37 | 500 "User data not found in context" without an attached row; otherwise 200 with exactly that row |
| UserApi.UserController.GetUserById | WebApi/Controllers/UserController.cs:46-58 | 403 for a missing or non-admin caller before any lookup; then 404 when no row matches the id, else 200 with the first such row |
| UserApi.UserController.CreateUser | WebApi/Controllers/UserController.cs:67-78 | a missing caller faults; a non-admin gets 403 with no table access; a matching UserId gets 409 and nothing changes; a payload too long for its columns throws and nothing changes; otherwise the payload is inserted as given (IsRoot included) and the answer is 201 for GetUserById with that UserId |
| UserApi.UserController.UpdateUser | WebApi/Controllers/UserController.cs:86-104 | 403 and then 404, with no write on either; a UserName longer than 255 throws and nothing changes; otherwise 204, and the target's first row afterwards carries the payload's fields with its IsRoot preserved |
| UserApi.UserController.DeleteUser | WebApi/Controllers/UserController.cs:112-123 | 403 and then 404, with no write on either; otherwise every row with that UserId is deleted and the answer is 204 |
| JwtOptions.GetJwtBearerOptions | WebApi/JWTOptionSelector.cs:10-30 | never returns normally: a null environment throws ArgumentNullException and touches nothing; in development, claim mapping and all six checks are switched off before the throw; elsewhere the options are left as they were |
| Migrations.GetConnectionString | WebApi.Migrations/Program.cs:59-87 | the result is never "", is one of the three inputs, and is null exactly when all three are empty |
| Migrations.ConnectionStringPriority | WebApi.Migrations/Program.cs:64-86 | a non-empty first argument wins; otherwise a non-empty environment variable; otherwise the configured value |
| Migrations.RunMigrations | WebApi.Migrations/Program.cs:13-47 | the exit code is 0 or 1; it is 0 exactly when migrating started and succeeded; migrating starts exactly when the configuration loads and a connection string is found |
| Pipeline.EndpointGuards | WebApi/Controllers/UserController.cs:25-108 | every endpoint's first guard is `HasClaim("sub")`, as on each of the five handlers; /hello adds `HasClaim("userFart")` after it (`WebApi/Controllers/HelloController.cs:19-20`) |
| Pipeline.Dispatch | WebApi/Controllers/UserController.cs:25-124 | only the three admin endpoints can write, and only for an admin caller; `me` answers 200 with the attached row and 500 without one; /hello answers its greeting |
| Pipeline.InvokeAction | WebApi/HasClaimAttribute.cs:19-47 | a request the endpoint's guards refuse gets 401 with nothing written; an unauthenticated one always does; only the admin endpoints write, and only for an admin caller; `me` behind an admitting guard answers 200 with the attached row, or 500 when none is attached; /hello answers as its guards and greeting decide |
| Pipeline.HandleRequest | WebApi/Startup.cs:62-71 | across the stages: the middleware's 401 or 403 and its failures end the request with nothing written; an unauthenticated caller gets 401 and writes nothing; a locked-out caller gets 403 on every endpoint; a refused request gets 401 after at most the lazy insert; a non-admin changes the table only through the lazy insert; `me`, once its guard admits, always has a row attached and answers 200 with it, so its 500 branch is never reached; /hello answers as its guards and greeting decide; the identity invariant is kept |
| Pipeline.UpperCaseSubCreatedThenRefused | WebApi/HasClaimAttribute.cs:34 | a token whose subject claim is typed `SUB` passes the middleware, which creates its row, and is then refused by every endpoint's guard |

## Left out

- **Letter case.** Claim types (in `FindFirst` and `HasClaim`), environment names and UserIds are folded for ASCII letters only. The framework's ordinal folding and the collation's folding of other letters are not modelled.
- **Collation.** The Users table is taken to use SQL Server's default case-insensitive collation. A database created with a case-sensitive collation would compare UserIds with case.
- **Column lengths.** Lengths are counted in characters, while SQL Server counts UTF-16 code units. A value with characters outside the Basic Multilingual Plane therefore reaches the limit sooner than modelled. A value too long only by trailing spaces is stored trimmed by SQL Server without an error; the model refuses it.
- **Identity overflow.** `Id` is a 32-bit identity column. Its overflow after 2^31 - 1 inserts is not modelled.
- ClaimGuard.HasClaimAttribute.Admits: promises only that an admitted caller's claim is found by `FindFirst`, not the converse. The type-only test compares exactly while `FindFirst` ignores case, so a guard with a value does not imply the same guard without one (`ClaimGuard.TypeGuardIsCaseSensitive`).
- Pipeline.HandleRequest: promises `me` a 200 only when its exact-type `sub` guard admits the caller. A caller whose subject claim type differs in case gets 401, although enrichment attached a row.
- **`[Authorize]`.** The framework's `[Authorize]` attribute and its authorization middleware are not modelled. For an unauthenticated caller, the first `HasClaim("sub")` guard gives the same 401.
- **Null `HttpContext.User`.** The user on the context is taken as never null, as the host's context provides, so `User?.` is not a branch.
- **Store failures.** Whether the store is reachable is fixed for a connection. A failure between the middleware's lookup and its insert is therefore not modelled. An exception leaving the pipeline is a thrown value; the host's mapping of it to a 500 answer is not modelled.
- **SQL.** SQL text, SqlKata and Dapper are not modelled, and nor are the connection factory, database creation and schema DDL. The row sequence stands for the table in store order.
- **Row order.** `GetUserById` reads the first row of a query without `ORDER BY`, and `GetAllUsers` has none either (`WebApi/Services/UserDataService.cs:37`, `:44`). SQL does not promise an order, so which duplicate counts as "first", and the order of the listed rows, are the model's assumption (insertion order), not a guarantee of the store.
- **Async and concurrency.** One request runs at a time. Two simultaneous first requests for one `sub` could both insert, and the row sequence permits the duplicate this would leave.
- **Logging.** Logging has no effect in the model.
- **Serilog enricher.** The Serilog stack-frame enricher is not part of this model.
- **Framework result objects.** Results are status codes with a body. The `CreatedAtAction` Location header is kept as the action name and route value.
- **JWT.** Token parsing, signing and validation are not modelled: the principal is an input. The signature validator installed in development is kept as a tag.
- **Migrations I/O.** Reading the configuration and running the migration are inputs to `RunMigrations`, as two success flags.
- UserApi.UserController.CreateUser: the framework's own rejection of a missing request body is not modelled.

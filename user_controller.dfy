/**
 * UserController: the user endpoints; every one but `me` is admin-gated.
 * Each handler reads the
 * caller's row attached by the enrichment middleware, makes its checks in
 * order, and ends in one status code with at most one write to the table.
 */
module UserApi {
  import opened Wrappers
  import opened Users
  import opened Http
  import opened UserStore

  const UserNotInContextMessage := "User data not found in context"

  function NotFoundMessage(userId: string): string {
    "User with UserId " + userId + " not found"
  }

  function ConflictMessage(userId: string): string {
    "User with UserId " + userId + " already exists"
  }

  /** Whether the row attached to the request belongs to an admin. */
  predicate IsAdminCaller(caller: Option<UserDbo>) {
    caller.Some? && caller.value.isAdmin
  }

  /** The values UpdateUser writes: the payload's IsAdmin, UserName and
      IsLockedOut, the route id as UserId, and the existing row's IsRoot. */
  function UpdateValues(userId: string, payload: UserDbo, existing: UserDbo): (v: UserDbo)
    ensures v.userId == userId && v.isRoot == existing.isRoot
    ensures v.isAdmin == payload.isAdmin && v.userName == payload.userName && v.isLockedOut == payload.isLockedOut
  {
    NewUserDbo().(userId := userId, isAdmin := payload.isAdmin, isRoot := existing.isRoot,
                  userName := payload.userName, isLockedOut := payload.isLockedOut)
  }

  class UserController {
    const userDataService: UserDataService

    constructor(userDataService: UserDataService)
      ensures this.userDataService == userDataService
    {
      this.userDataService := userDataService;
    }

    /** GET api/user/me: the row attached to the request, or 500 when there is none. */
    method GetCurrentUser(context: HttpContext) returns (r: ActionResult)
      ensures context.userDbo.None? ==>
        r == StatusCodeResult(500, Text("User data not found in context"))
      ensures context.userDbo.Some? ==> r == StatusCodeResult(200, Json(context.userDbo.value))
    {
      var user := context.userDbo;
      if user.None? {
        return StatusCodeResult(Status500InternalServerError, Text(UserNotInContextMessage));
      }
      r := Ok(user.value);
    }

    /** GET api/user/{userId}: 403 for a missing or non-admin caller before
        any lookup; then 404 when no row has that UserId, else 200 with the
        first such row. */
    method GetUserById(context: HttpContext, userId: string) returns (r: Outcome<ActionResult>)
      ensures !IsAdminCaller(context.userDbo) ==> r == Returned(StatusCodeResult(403, NoBody))
      ensures IsAdminCaller(context.userDbo) && !userDataService.reachable ==> r == Threw(StoreException)
      ensures IsAdminCaller(context.userDbo) && userDataService.reachable ==>
        && r.Returned?
        && (FirstMatch(userDataService.rows, userId).None? ==>
              r.value == StatusCodeResult(404, Text("User with UserId " + userId + " not found")))
        && (FirstMatch(userDataService.rows, userId).Some? ==>
              r.value == StatusCodeResult(200, Json(FirstMatch(userDataService.rows, userId).value)))
    {
      var callingUser := context.userDbo;
      if callingUser.None? || !callingUser.value.isAdmin {
        return Returned(Forbid());
      }
      var user :- userDataService.GetUserById(userId);
      if user.None? {
        return Returned(NotFound(NotFoundMessage(userId)));
      }
      r := Returned(Ok(user.value));
    }

    /** POST api/user: a missing caller faults (no null check); 403 for a
        non-admin caller; 409 when the UserId already has a row; a payload
        whose UserId or UserName is longer than its column makes the insert
        throw; otherwise the payload is inserted as given, IsRoot included,
        and the answer is 201 pointing at GetUserById with that UserId. */
    method CreateUser(context: HttpContext, user: UserDbo) returns (r: Outcome<ActionResult>)
      requires userDataService.Valid()
      modifies userDataService
      ensures userDataService.Valid()
      ensures context.userDbo.None? ==>
        r == Threw(NullReferenceException) && userDataService.State() == old(userDataService.State())
      ensures context.userDbo.Some? && !context.userDbo.value.isAdmin ==>
        r == Returned(StatusCodeResult(403, NoBody)) && userDataService.State() == old(userDataService.State())
      ensures IsAdminCaller(context.userDbo) && !userDataService.reachable ==>
        r == Threw(StoreException) && userDataService.State() == old(userDataService.State())
      ensures IsAdminCaller(context.userDbo) && userDataService.reachable &&
              FirstMatch(old(userDataService.rows), user.userId).Some? ==>
        && r == Returned(StatusCodeResult(409, Text("User with UserId " + user.userId + " already exists")))
        && userDataService.State() == old(userDataService.State())
      ensures IsAdminCaller(context.userDbo) && userDataService.reachable &&
              FirstMatch(old(userDataService.rows), user.userId).None? && !FitsColumns(user) ==>
        r == Threw(StoreException) && userDataService.State() == old(userDataService.State())
      ensures IsAdminCaller(context.userDbo) && userDataService.reachable &&
              FirstMatch(old(userDataService.rows), user.userId).None? && FitsColumns(user) ==>
        && r == Returned(CreatedAtActionResult("GetUserById", user.userId, user))
        && userDataService.State() == old(userDataService.State()).Insert(user)
    {
      var callingUser := context.userDbo;
      if callingUser.None? {
        return Threw(NullReferenceException);
      }
      if !callingUser.value.isAdmin {
        return Returned(Forbid());
      }
      var existingUser :- userDataService.GetUserById(user.userId);
      if existingUser.Some? {
        return Returned(Conflict(ConflictMessage(user.userId)));
      }
      var created :- userDataService.CreateUser(user);
      r := Returned(CreatedAtActionResult("GetUserById", user.userId, user));
    }

    /** PUT api/user/{userId}: 403 for a missing or non-admin caller, then
        404 when no row has that UserId, with no write on either; a UserName
        longer than its column makes the update throw; otherwise every row
        with that UserId takes the payload's IsAdmin, UserName and IsLockedOut
        and the first such row's IsRoot, and the answer is 204. */
    method UpdateUser(context: HttpContext, userId: string, user: UserDbo) returns (r: Outcome<ActionResult>)
      requires userDataService.Valid()
      modifies userDataService
      ensures userDataService.Valid()
      ensures !IsAdminCaller(context.userDbo) ==>
        r == Returned(StatusCodeResult(403, NoBody)) && userDataService.State() == old(userDataService.State())
      ensures IsAdminCaller(context.userDbo) && !userDataService.reachable ==>
        r == Threw(StoreException) && userDataService.State() == old(userDataService.State())
      ensures IsAdminCaller(context.userDbo) && userDataService.reachable &&
              FirstMatch(old(userDataService.rows), userId).None? ==>
        && r == Returned(StatusCodeResult(404, Text("User with UserId " + userId + " not found")))
        && userDataService.State() == old(userDataService.State())
      ensures IsAdminCaller(context.userDbo) && userDataService.reachable &&
              FirstMatch(old(userDataService.rows), userId).Some? && |user.userName| > MaxColumnLength ==>
        r == Threw(StoreException) && userDataService.State() == old(userDataService.State())
      ensures IsAdminCaller(context.userDbo) && userDataService.reachable &&
              FirstMatch(old(userDataService.rows), userId).Some? && |user.userName| <= MaxColumnLength ==>
        var existing := FirstMatch(old(userDataService.rows), userId).value;
        && r == Returned(StatusCodeResult(204, NoBody))
        && userDataService.State() == old(userDataService.State()).Update(userId, UpdateValues(userId, user, existing))
        && FirstMatch(userDataService.rows, userId) ==
             Some(existing.(isAdmin := user.isAdmin, userName := user.userName, isLockedOut := user.isLockedOut))
    {
      var currentUser := context.userDbo;
      if currentUser.None? || !currentUser.value.isAdmin {
        return Returned(Forbid());
      }
      var existingUser :- userDataService.GetUserById(userId);
      if existingUser.None? {
        return Returned(NotFound(NotFoundMessage(userId)));
      }
      var values := UpdateValues(userId, user, existingUser.value);
      var updated :- userDataService.UpdateUser(userId, values);
      FirstMatchAfterUpdate(old(userDataService.rows), userId, values, userId);
      r := Returned(NoContent());
    }

    /** DELETE api/user/{userId}: 403 for a missing or non-admin caller,
        then 404 when no row has that UserId, with no write on either;
        otherwise every row with that UserId is deleted and the answer is 204. */
    method DeleteUser(context: HttpContext, userId: string) returns (r: Outcome<ActionResult>)
      requires userDataService.Valid()
      modifies userDataService
      ensures userDataService.Valid()
      ensures !IsAdminCaller(context.userDbo) ==>
        r == Returned(StatusCodeResult(403, NoBody)) && userDataService.State() == old(userDataService.State())
      ensures IsAdminCaller(context.userDbo) && !userDataService.reachable ==>
        r == Threw(StoreException) && userDataService.State() == old(userDataService.State())
      ensures IsAdminCaller(context.userDbo) && userDataService.reachable &&
              FirstMatch(old(userDataService.rows), userId).None? ==>
        && r == Returned(StatusCodeResult(404, Text("User with UserId " + userId + " not found")))
        && userDataService.State() == old(userDataService.State())
      ensures IsAdminCaller(context.userDbo) && userDataService.reachable &&
              FirstMatch(old(userDataService.rows), userId).Some? ==>
        && r == Returned(StatusCodeResult(204, NoBody))
        && userDataService.State() == old(userDataService.State()).Delete(userId)
    {
      var currentUser := context.userDbo;
      if currentUser.None? || !currentUser.value.isAdmin {
        return Returned(Forbid());
      }
      var existingUser :- userDataService.GetUserById(userId);
      if existingUser.None? {
        return Returned(NotFound(NotFoundMessage(userId)));
      }
      // The lookup just succeeded on the same connection, so the delete returns.
      var deleted := userDataService.DeleteUser(userId);
      r := Returned(NoContent());
    }
  }
}

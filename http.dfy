/**
 * What the request pipeline passes between its stages: the exceptions the
 * core raises, the results handlers return, and the per-request context.
 */
module Http {
  import opened Wrappers
  import opened Claims
  import opened Users

  /** The exceptions raised by the modelled code. */
  datatype Exception =
    | ArgumentNullException(paramName: string)
    | NullReferenceException
    | StoreException            // any failure of the Users table's connection or query
    | StartupException(message: string)

  /** A call that either returns a value or throws; `:-` re-throws. */
  datatype Outcome<+T> = Returned(value: T) | Threw(error: Exception) {
    predicate IsFailure() {
      Threw?
    }

    function PropagateFailure<U>(): Outcome<U>
      requires Threw?
    {
      Threw(error)
    }

    function Extract(): T
      requires Returned?
    {
      value
    }
  }

  /** The body of a response. */
  datatype Body = NoBody | Text(text: string) | Json(user: UserDbo)

  /** An MVC action result: a status code with a body, or a 201 whose
      Location is the route of `actionName` with the route value `userId`. */
  datatype ActionResult =
    | StatusCodeResult(statusCode: int, body: Body)
    | CreatedAtActionResult(actionName: string, userId: string, value: UserDbo)
  {
    function StatusCode(): int {
      match this
      case StatusCodeResult(code, _) => code
      case CreatedAtActionResult(_, _, _) => 201
    }
  }

  const Status200OK := 200
  const Status201Created := 201
  const Status204NoContent := 204
  const Status401Unauthorized := 401
  const Status403Forbidden := 403
  const Status404NotFound := 404
  const Status409Conflict := 409
  const Status500InternalServerError := 500

  /** `Ok(value)`, `Forbid()`, `NotFound(msg)`, `Conflict(msg)`, `NoContent()`,
      `Unauthorized()` and `StatusCode(500, msg)` as results. */
  function Ok(user: UserDbo): ActionResult { StatusCodeResult(Status200OK, Json(user)) }
  function OkText(text: string): ActionResult { StatusCodeResult(Status200OK, Text(text)) }
  function Forbid(): ActionResult { StatusCodeResult(Status403Forbidden, NoBody) }
  function NotFound(message: string): ActionResult { StatusCodeResult(Status404NotFound, Text(message)) }
  function Conflict(message: string): ActionResult { StatusCodeResult(Status409Conflict, Text(message)) }
  function NoContent(): ActionResult { StatusCodeResult(Status204NoContent, NoBody) }
  function Unauthorized(): ActionResult { StatusCodeResult(Status401Unauthorized, NoBody) }

  /** The part of an HttpContext the core reads and writes: the principal,
      the `Items["UserDBO"]` slot, and the response status and body. */
  class HttpContext {
    var user: ClaimsPrincipal
    var userDbo: Option<UserDbo>
    var statusCode: int
    var responseBody: string

    /** A context as the host hands it over after authentication. */
    constructor(user: ClaimsPrincipal)
      ensures this.user == user && userDbo == None
      ensures statusCode == Status200OK && responseBody == ""
    {
      this.user := user;
      userDbo := None;
      statusCode := Status200OK;
      responseBody := "";
    }
  }
}

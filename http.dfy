/** The HTTP responses the controllers build: a status code and either a payload or an `ErrorResponse`. */
module Http {
  import opened Wrappers

  const OK: int := 200
  const CREATED: int := 201
  const BAD_REQUEST: int := 400
  const FORBIDDEN: int := 403
  const NOT_FOUND: int := 404
  const INTERNAL_SERVER_ERROR: int := 500

  /** The substring the controllers test an exception message for to answer 404. */
  const NOT_FOUND_FRAGMENT: string := "not found"
  /** The substring the task controller tests for to answer 403 on update and delete. */
  const ACCESS_DENIED_FRAGMENT: string := "Access denied"

  /** The error body; `details` maps field names to (possibly null) messages, and is itself null unless validation failed. */
  datatype ErrorResponse = ErrorResponse(message: string, error: string, details: Option<map<string, Option<string>>>)

  datatype Body<T> = Payload(value: T) | Error(response: ErrorResponse)

  datatype Response<T> = Response(status: int, body: Body<T>)

  /** The 403 body both controllers answer with. */
  const ACCESS_DENIED_BODY: ErrorResponse := ErrorResponse("Access denied", "ACCESS_DENIED", None)
}

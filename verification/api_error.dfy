/** Response building and the mapping from thrown errors to HTTP responses
    shared by every route (src/lib/api-error.js). */
module ApiErrors {
  import opened Common

  /** A JSON response body: `{ error: message }` or the route's payload. */
  datatype Body<+T> = ErrorBody(error: string) | DataBody(data: T)

  datatype Response<+T> = Response(status: int, body: Body<T>)

  /** Something a handler's `try` block threw. `ApiError` is the application's
      own error class; any other error (the store's, or a plain `Error`) may
      carry a `code` property. An `ApiError` may carry one too. */
  datatype Thrown =
    | ApiError(message: string, statusCode: int, apiCode: Option<string>)
    | OtherError(message: string, code: Option<string>)

  const UniqueViolation: string := "P2002"
  const RecordNotFound: string := "P2025"

  /** `new ApiError(message, statusCode = 500)`. */
  function NewApiError(message: string, statusCode: int := 500): (e: Thrown)
    ensures e.ApiError? && e.message == message && e.statusCode == statusCode
  {
    ApiError(message, statusCode, None)
  }

  /** `successResponse(data, status = 200)`. */
  function SuccessResponse<T>(data: T, status: int := 200): Response<T> {
    Response(status, DataBody(data))
  }

  /** `errorResponse(message, status = 400)`: body `{ error: message }`. */
  function ErrorResponse<T>(message: string, status: int := 400): Response<T> {
    Response(status, ErrorBody(message))
  }

  /** The error the store raises when an insert reuses a primary key. */
  const DuplicateKey: Thrown := OtherError("Unique constraint failed", Some(UniqueViolation))

  /** An early `return errorResponse(message, status)` of a route's validation chain. */
  datatype Rejection = Rejection(status: int, message: string)

  function Reject<T>(j: Rejection): (r: Response<T>)
    ensures r.status == j.status && r.body == ErrorBody(j.message)
  {
    ErrorResponse(j.message, j.status)
  }

  /** `handleApiError(error)`. An ApiError keeps its own message and status,
      whatever code it carries; for any other error only the store codes
      P2002 (409) and P2025 (404) are recognised and everything else is a 500.
      The message of a non-ApiError is never passed on to the client. */
  function HandleApiError<T>(e: Thrown): (r: Response<T>)
    ensures r.body.ErrorBody?
    ensures e.ApiError? ==> r == Response(e.statusCode, ErrorBody(e.message))
    ensures e.OtherError? && e.code == Some(UniqueViolation) ==>
      r == Response(409, ErrorBody("A record with this value already exists"))
    ensures e.OtherError? && e.code == Some(RecordNotFound) ==>
      r == Response(404, ErrorBody("Record not found"))
    ensures e.OtherError? && e.code != Some(UniqueViolation) && e.code != Some(RecordNotFound) ==>
      r == Response(500, ErrorBody("Internal server error"))
    ensures e.OtherError? ==> r.status in {409, 404, 500}
    ensures e.OtherError? ==> (r.status == 409 <==> e.code == Some(UniqueViolation))
    ensures e.OtherError? ==> (r.status == 404 <==> e.code == Some(RecordNotFound))
  {
    match e
    case ApiError(message, statusCode, _) => ErrorResponse(message, statusCode)
    case OtherError(_, code) =>
      if code == Some(UniqueViolation) then ErrorResponse("A record with this value already exists", 409)
      else if code == Some(RecordNotFound) then ErrorResponse("Record not found", 404)
      else ErrorResponse("Internal server error", 500)
  }

  /** The defaults: an ApiError without a status is a 500, a success is a 200,
      an error response is a 400 with body `{ error: message }`. */
  lemma Defaults<T>(message: string, data: T)
    ensures NewApiError(message).statusCode == 500
    ensures HandleApiError<T>(NewApiError(message)) == Response(500, ErrorBody(message))
    ensures SuccessResponse(data) == Response(200, DataBody(data))
    ensures ErrorResponse<T>(message) == Response(400, ErrorBody(message))
  {
  }
}

/** src/error.rs: the axum application's error type, the status and client
    error each one is shown to the client as, and the store-error conversion. */
module Errors {
  import opened Basics
  import opened Types

  datatype Error =
    | LoginFail
    | AuthFailNoAuthTokenCookie
    | AuthFailTokenWrongFormat
    | AuthFailCtxNotInRequestExt
    | TicketDeleteFailIdNotFound(id: u64)
    | DataBaseError
    | DataBaseCouldNotInsert

  /** `ClientError`; the variant names are what the client receives. */
  datatype ClientError = LOGIN_FAIL | NO_AUTH | INVALID_PARAMS | SERVICE_ERROR

  const FORBIDDEN: nat := 403
  const BAD_REQUEST: nat := 400
  const INTERNAL_SERVER_ERROR: nat := 500

  predicate IsAuthFailure(e: Error) {
    e.AuthFailNoAuthTokenCookie? || e.AuthFailCtxNotInRequestExt? || e.AuthFailTokenWrongFormat?
  }

  predicate IsDataBaseFailure(e: Error) {
    e.DataBaseError? || e.DataBaseCouldNotInsert?
  }

  /** `Error::client_status_and_error`: a failed login and the three
      authentication failures are forbidden, an unknown ticket id is a bad
      request, and the database errors fall through to a service error. */
  function ClientStatusAndError(e: Error): (r: (nat, ClientError))
    ensures r == (403, LOGIN_FAIL) <==> e == LoginFail
    ensures r == (403, NO_AUTH) <==> IsAuthFailure(e)
    ensures r == (400, INVALID_PARAMS) <==> e.TicketDeleteFailIdNotFound?
    ensures r == (500, SERVICE_ERROR) <==> IsDataBaseFailure(e)
  {
    match e
    case LoginFail => (FORBIDDEN, LOGIN_FAIL)
    case AuthFailNoAuthTokenCookie | AuthFailCtxNotInRequestExt | AuthFailTokenWrongFormat => (FORBIDDEN, NO_AUTH)
    case TicketDeleteFailIdNotFound(_) => (BAD_REQUEST, INVALID_PARAMS)
    case _ => (INTERNAL_SERVER_ERROR, SERVICE_ERROR)
  }

  /** `From<surrealdb::Error> for Error`. */
  function FromDbError(d: DbError): Error {
    DataBaseError
  }

  /** Every store failure reaches the client as a service error. */
  lemma StoreFailureIsServiceError(d: DbError)
    ensures IsDataBaseFailure(FromDbError(d))
    ensures ClientStatusAndError(FromDbError(d)) == (500, SERVICE_ERROR)
  {
  }

  /** The placeholder response `into_response` builds: a status, and the error
      stored in its extensions. */
  datatype ErrorResponse = ErrorResponse(status: nat, extension: Error)

  /** `IntoResponse for Error`. */
  function IntoResponse(e: Error): ErrorResponse {
    ErrorResponse(INTERNAL_SERVER_ERROR, e)
  }

  /** The response status does not depend on the error, and the error rides
      along unchanged: two responses agree exactly when their errors do. */
  lemma IntoResponseKeepsError(a: Error, b: Error)
    ensures IntoResponse(a).status == 500 && IntoResponse(a).status == IntoResponse(b).status
    ensures IntoResponse(a).extension == a
    ensures IntoResponse(a) == IntoResponse(b) <==> a == b
  {
  }
}

/** HTTP status codes and FastAPI's `HTTPException` as a value. */
module Http {

  const StatusOk := 200
  const StatusBadRequest := 400
  const StatusUnauthorized := 401
  const StatusForbidden := 403
  const StatusNotFound := 404
  const StatusConflict := 409
  const StatusUnprocessable := 422
  const StatusLocked := 423
  const StatusInternalError := 500

  /** A raised `HTTPException(status_code, detail)`. */
  datatype HttpError = HttpError(status: int, detail: string)

  /**
   * How a handler ends: it returns a value, raises an `HTTPException`, or
   * raises any other exception, which the application answers with 500.
   */
  datatype Outcome<+T> = Done(value: T) | Raised(error: HttpError) | Crashed(reason: string)
}

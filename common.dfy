/** Shared result types. Every endpoint either succeeds with a value or fails
    the way an HTTPException does: with a status code and a detail message. */
module Common {

  datatype Option<+T> = None | Some(value: T)

  datatype Result<+T> = Ok(value: T) | Err(status: int, detail: string)

  /** The HTTP status codes the endpoints raise. */
  const BadRequest: int := 400
  const NotFound: int := 404
  /** An uncaught exception inside an endpoint (a date string that does not parse). */
  const ServerError: int := 500
}

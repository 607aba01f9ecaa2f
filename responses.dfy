/**
 * The response as far as the request pipeline observes it: a status code and
 * a human-readable message or body.  Only `HTTPResponse::new(code, message)`,
 * `HTTPResponse::not_found(message)` and the numeric status code are relied on.
 */
module Responses {

  datatype Response = Response(code: int, message: string)

  const NOT_FOUND: int := 404

  /** `HTTPResponse::not_found(message)`. */
  function NotFound(message: string): (r: Response)
    ensures r.code == NOT_FOUND && r.message == message
  {
    Response(NOT_FOUND, message)
  }
}

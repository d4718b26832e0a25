/** Values shared by every handler: optional values and the HTTP reply a handler sends. */
module Common {

  /** A JavaScript value that may be `null` or `undefined` (both map to `None`). */
  datatype Option<+T> = None | Some(value: T)

  /** What an Express handler sends back: a status code with a payload, or a status code
      with the `{ error }` body. */
  datatype Reply<+T> = Ok(status: int, payload: T) | Fail(status: int, error: string)

  const OK: int := 200
  const CREATED: int := 201
  const BAD_REQUEST: int := 400
  const UNAUTHORIZED: int := 401
  const NOT_FOUND: int := 404
  const SERVER_ERROR: int := 500
}

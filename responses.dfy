/** Outcomes of a request: a value, or the HTTP status code that `abort` raises. */
module Responses {

  const BadRequest: nat := 400
  const NotFound: nat := 404
  const Unprocessable: nat := 422

  datatype Option<+T> = None | Some(value: T)

  /** `Err(code)` stands for `abort(code)`: the error handler turns it into a JSON body with that status. */
  datatype Result<+T> = Ok(value: T) | Err(code: nat)
}

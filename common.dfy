/** Shared result types. Every request handler of the API either succeeds or
    fails with one of the error kinds the framework turns into an HTTP status. */
module Common {

  datatype Option<+T> = None | Some(value: T)

  /** The ways a request can fail: 400, 401, 403 and 404. */
  datatype Failure =
    | BadRequest        // validation error, uniqueness conflict, wrong confirmation code
    | NotAuthenticated  // an unsafe request without an authenticated user
    | Forbidden         // an authenticated user the permission classes refuse
    | NotFound          // a referenced row is absent

  datatype Result<+T> = Ok(value: T) | Err(failure: Failure)
}

/** Values that may be absent, and results that may be errors. */
module Options {

  datatype Option<+T> = None | Some(value: T)

  /** The exceptions the services raise, plus the database's refusal of a commit. */
  datatype Error =
    | Unauthenticated
    | NotFound
    | PermissionDenied
    | BadRequest
    | Duplicate
    | ServiceUnavailable
    | IntegrityError

  datatype Result<+T> = Ok(value: T) | Err(error: Error)
}

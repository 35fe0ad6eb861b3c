/** The two result shapes and the error classes every component shares. */
module Results {

  datatype Option<+T> = None | Some(value: T)

  datatype Result<+T, +E> = Ok(value: T) | Err(error: E)

  /** The typed errors of internal/platform/apperror, reduced to their class. */
  datatype AppError =
    | NotFound
    | Conflict
    | Validation
    | Forbidden
    | Unavailable
    | Internal
}

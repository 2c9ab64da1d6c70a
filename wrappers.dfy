/** Failure-carrying values shared by the other modules. */
module Wrappers {

  /** A value that may be absent: NULL, a missing table entry. */
  datatype Option<+T> = None | Some(value: T)

  /** A value or an error, as a Go function's (value, error) pair when the
      value is discarded on error. */
  datatype Result<+R, +E> = Success(value: R) | Failure(error: E)
}

/** The optional and failure-carrying values used throughout the model. */
module Wrappers {

  /** An absent (`undefined`/`null`) or present value. */
  datatype Option<+T> = None | Some(value: T)

  /** A normal return, or an exception that escapes the call. */
  datatype Result<+T, +E> = Success(value: T) | Failure(error: E)
}

/** Failure-carrying datatypes shared by the whole model. */
module Wrappers {

  /** PHP's nullable `?T`: a value or null. */
  datatype Option<+T> = None | Some(value: T)

  /** The outcome of a call that may throw: the returned value, or the error raised. */
  datatype Result<+T, +E> = Success(value: T) | Failure(error: E)
}

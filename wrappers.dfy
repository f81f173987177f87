/** Failure-compatible result types used throughout the model. */
module Wrappers {

  /** A value that may be absent, like a JavaScript `undefined` result. */
  datatype Option<+T> = None | Some(value: T)

  /** A computed value, or the error that was thrown instead. */
  datatype Result<+R, +E> = Success(value: R) | Failure(error: E)

  /** Completion without a value, or the error that was thrown instead. */
  datatype Outcome<+E> = Pass | Fail(error: E)
}

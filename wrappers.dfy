/** Failure-compatible value types shared by the habit model. */
module Wrappers {

  /** A value that may be absent: Python's `None` or a value. */
  datatype Option<+T> = None | Some(value: T)

  /** The outcome of an operation that returns nothing but may raise. */
  datatype Outcome<+E> = Pass | Fail(error: E)

  /** The outcome of an operation that returns a value but may raise. */
  datatype Result<+R, +E> = Success(value: R) | Failure(error: E)
}

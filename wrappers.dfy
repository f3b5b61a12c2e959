/** Failure-carrying result types used in place of the source's exceptions. */
module Wrappers {

  datatype Option<+T> = None | Some(value: T)

  /** A value, or the error the source would have raised. */
  datatype Result<+R, +E> = Success(value: R) | Failure(error: E)

  /** The outcome of an operation that returns nothing but may raise. */
  datatype Outcome<+E> = Pass | Fail(error: E)
}

/** Failure-carrying result types shared by the matching service model. */
module Wrappers {

  /** A value that may be absent (a row the store did not return). */
  datatype Option<+T> = None | Some(value: T)

  /** The outcome of an operation that returns nothing on success (a `Promise<void>`). */
  datatype Outcome<+E> = Pass | Fail(error: E)

  /** The outcome of an operation that returns a value or throws. */
  datatype Result<+R, +E> = Success(value: R) | Failure(error: E)
}

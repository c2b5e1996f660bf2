/** Option, Result and Outcome: the values that stand in for JavaScript's
    `undefined` and for thrown errors. */
module Wrappers {

  datatype Option<+T> = None | Some(value: T)

  /** A computation that either produced a value or threw an error. */
  datatype Result<+R, +E> = Success(value: R) | Failure(error: E)

  /** A computation run for its effect that either finished or threw an error. */
  datatype Outcome<+E> = Pass | Fail(error: E)
}

/** Option, Result and Outcome values used for the error paths of the messaging core. */
module Wrappers {

  datatype Option<+T> = None | Some(value: T)

  /** A computation that produces a value or fails with a typed error. */
  datatype Result<+R, +E> = Success(value: R) | Failure(error: E)

  /** A computation that only succeeds or fails, without a value. */
  datatype Outcome<+E> = Pass | Fail(error: E)
}

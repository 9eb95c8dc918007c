/** Option, Result and Outcome: the error paths of the store's operations. */
module Wrappers {

  datatype Option<+T> = None | Some(value: T)

  /** The value of an operation that either succeeds with a value or fails. */
  datatype Result<+R, +E> = Success(value: R) | Failure(error: E)

  /** The value of an operation that either completes or fails. */
  datatype Outcome<+E> = Pass | Fail(error: E)
}

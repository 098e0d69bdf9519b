/** Option and Result types standing in for null references and thrown exceptions. */
module Wrappers {

  /** `None` plays the role of a null reference. */
  datatype Option<+T> = None | Some(value: T)

  /** `Failure` carries the exception the source would throw. */
  datatype Result<+T, +E> = Success(value: T) | Failure(error: E)
}

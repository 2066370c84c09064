/** Option and Result values used across the model. */
module Wrappers {

  /** An optional value: Swift's `T?`. */
  datatype Option<+T> = None | Some(value: T)

  /** A value or an error: a Swift `throws` call returns one or the other. */
  datatype Result<+T, +E> = Success(value: T) | Failure(error: E)
}

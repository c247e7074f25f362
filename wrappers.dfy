/** Option and Result, the two failure-carrying datatypes the model uses. */
module Wrappers {

  datatype Option<+T> = None | Some(value: T)

  /** The outcome of a step that may raise: a value, or the exception it raised. */
  datatype Result<+R, +E> = Success(value: R) | Failure(error: E)
}

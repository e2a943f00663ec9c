/** Option and Result, the two failure-carrying datatypes the model uses. */
module Wrappers {

  /** A value that may be absent; `None` plays the part of JavaScript's `null`
      where a reference may be missing. */
  datatype Option<+T> = None | Some(value: T)

  /** Either a normal value or the error that was thrown instead. */
  datatype Result<+T, +E> = Success(value: T) | Failure(error: E)
}

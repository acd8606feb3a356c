/** The failure-carrying datatypes the model uses in place of NULL and exceptions. */
module Wrappers {

  /** A value that may be absent (a nullable column, a lookup that finds nothing). */
  datatype Option<+T> = None | Some(value: T)

  /** The outcome of an operation that may raise. */
  datatype Result<+R, +E> = Success(value: R) | Failure(error: E)
}

/** Option and Result values standing in for Java's null and thrown exceptions. */
module Wrappers {

  /** A value that may be absent (Java's null). */
  datatype Option<+T> = None | Some(value: T)

  /** The outcome of an operation that either returns a value or signals an error. */
  datatype Result<+R, +E> = Success(value: R) | Failure(error: E)

  /** The outcome of an operation that returns nothing or signals an error. */
  datatype Outcome<+E> = Pass | Fail(error: E)
}

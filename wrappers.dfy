/** Optional values and failing results, standing in for Java's null and exceptions. */
module Wrappers {

  /** A value that may be absent (Java's null reference). */
  datatype Option<+T> = None | Some(value: T)

  /** The outcome of an operation that may throw. */
  datatype Result<+R, +E> = Success(value: R) | Failure(error: E)
}

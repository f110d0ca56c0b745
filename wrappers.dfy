/** Optional values and results with an error, in place of Java's null and exceptions. */
module Wrappers {

  /** Guava's `Optional`: a value that may be absent. */
  datatype Option<+T> = None | Some(value: T)

  /** A value, or the exception the Java code would have thrown instead. */
  datatype Result<+R, +E> = Success(value: R) | Failure(error: E)
}

/** Optional values and results shared by the parking-lot modules. */
module Wrappers {

  /** A value that may be absent (Java's `Optional` or a nullable reference). */
  datatype Option<+T> = None | Some(value: T)

  /** The outcome of an operation that either succeeds with a value or fails
      with an error (the Java code throws an exception in the failing case). */
  datatype Result<+T, +E> = Success(value: T) | Failure(error: E)
}

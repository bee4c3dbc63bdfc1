/** Failure-carrying values used across the model: Option stands for a Java
    reference that may be null, Result for a call that may throw. */
module Wrappers {

  /** A value that may be absent (a nullable Java reference). */
  datatype Option<+T> = None | Some(value: T)

  /** The outcome of a call that either returns a value or raises an error. */
  datatype Result<+T, +E> = Success(value: T) | Failure(error: E)
}

/** Failure-carrying datatypes used where the modelled code throws or returns null. */
module Wrappers {

  /** A value that may be absent; stands for a Java reference that may be null. */
  datatype Option<+T> = None | Some(value: T)

  /** Either a value or an error; stands for a Java call that may throw. */
  datatype Result<+R, +E> = Success(value: R) | Failure(error: E)
}

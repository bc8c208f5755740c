/** Optional values and results, used for the view's nullable fields and its exceptions. */
module Wrappers {

  /** A value that may be absent, in place of a Java reference that may be null. */
  datatype Option<+T> = None | Some(value: T)

  /** The outcome of an operation that either returns a value or throws. */
  datatype Result<+R, +E> = Success(value: R) | Failure(error: E)
}

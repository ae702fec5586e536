/** Failure-carrying values used wherever the original code raises or catches an exception. */
module Wrappers {

  /** A value that may be absent (Python's `None`). */
  datatype Option<T> = None | Some(value: T)

  /** The outcome of a call that either returns a value or raises with a message (`str(e)`). */
  datatype Result<T, E> = Success(value: T) | Failure(error: E)
}

/** Optional values and failures. */
module Wrappers {

  /** A value that may be absent (Python's None). */
  datatype Option<T> = None | Some(value: T)

  /** The result of an operation that can raise. */
  datatype Result<T, E> = Success(value: T) | Failure(error: E)
}

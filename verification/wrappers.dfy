/** Optional values, for the JavaScript values a caller may leave `undefined`. */
module Wrappers {

  datatype Option<T> = None | Some(value: T)

  /** An outcome that is either a value or the error that was thrown instead. */
  datatype Result<T, E> = Success(value: T) | Failure(error: E)
}

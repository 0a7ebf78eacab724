/** Optional values and results with an error message. */
module Wrappers {

  /** A value that may be absent, like Python's `Optional[...]`. */
  datatype Option<T> = None | Some(value: T)

  /** The outcome of an operation that may raise: its value, or the exception's message. */
  datatype Result<T> = Success(value: T) | Failure(error: string)
}

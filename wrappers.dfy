/** Optional values and results with an error, shared by every module of the model. */
module Wrappers {

  /** A value that may be absent: a nullable column, a lookup that may miss. */
  datatype Option<+T> = None | Some(value: T)

  /** The outcome of an operation that can fail with an error the caller sees. */
  datatype Result<+T, +E> = Success(value: T) | Failure(error: E)
}

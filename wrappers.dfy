/** Optional values and results with an error channel, used for nullable columns and for the
    exceptions the query layer raises. */
module Wrappers {

  /** A value that may be absent: a nullable column, an optional argument or a missing table. */
  datatype Option<+T> = None | Some(value: T)

  /** The outcome of an operation that either returns a value or raises an error. */
  datatype Result<+T, +E> = Success(value: T) | Failure(error: E)
}

/** Failure-carrying result types shared by the whole model. */
module Wrappers {

  /** A value that may be absent; Python's `None` return of a lookup. */
  datatype Option<+T> = None | Some(value: T)

  /** Either a value or the error a computation raised. */
  datatype Result<+T, +E> = Success(value: T) | Failure(error: E)
}

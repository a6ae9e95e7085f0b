/** Failure-carrying wrappers used by the route assignment model. */
module Wrappers {

  /** An optional value: a lookup that found something, or nothing. */
  datatype Option<+T> = None | Some(value: T)

  /** The outcome of an operation that either yields a value or raises an error. */
  datatype Result<+T, +E> = Success(value: T) | Failure(error: E)
}

/** Failure-carrying values: the model's counterpart of Go's `(value, error)` pairs and nil maps. */
module Wrappers {

  /** A value that may be absent (a nil map, an error-less return). */
  datatype Option<+T> = None | Some(value: T)

  /** A value or the error that prevented it. */
  datatype Result<+T, +E> = Success(value: T) | Failure(error: E)

  /** An operation that returns only an error, or nil. */
  datatype Outcome<+E> = Pass | Fail(error: E)
}

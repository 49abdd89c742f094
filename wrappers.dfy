/** Failure-compatible wrappers used across the model. */
module Wrappers {

  /** A value that may be absent, such as a nil pointer in Go. */
  datatype Option<+T> = None | Some(value: T)

  /** Either a value or an error, as a Go function returning `(value, error)`. */
  datatype Result<+T, +E> = Ok(value: T) | Err(error: E)
}

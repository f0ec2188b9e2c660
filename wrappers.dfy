/** Option and Result, the two shapes in which the Go code returns "a value or nil" and "a value or an error". */
module Wrappers {

  /** A Go pointer or interface value that may be nil. */
  datatype Option<+T> = None | Some(value: T)

  /** A Go `(value, error)` pair where exactly one of the two is set. */
  datatype Result<+T, +E> = Ok(value: T) | Err(error: E)
}

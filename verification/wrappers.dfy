/** Failure-carrying datatypes used throughout the model. */
module Wrappers {

  /** A value that may be absent. */
  datatype Option<+T> = None | Some(value: T)

  /** Either a value or an error, in the style of Go's `(T, error)` pairs. */
  datatype Result<+R, +E> = Ok(value: R) | Err(error: E)
}

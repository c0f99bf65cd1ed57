/** Failure-carrying datatypes used throughout the model. */
module Wrappers {

  /** A value that may be absent: Go's nil pointer, a missing map key, a nil error. */
  datatype Option<+T> = None | Some(value: T)

  /** Either a value or the error that prevented computing it. */
  datatype Result<+R, +E> = Success(value: R) | Failure(error: E)
}

/** Failure-carrying datatypes shared by the whole model. */
module Wrappers {

  /** A value that may be absent: a Go `(value, ok)` pair or a nil error. */
  datatype Option<+T> = None | Some(value: T)

  /** Either a value or the error that prevented computing it. */
  datatype Result<+R, +E> = Success(value: R) | Failure(error: E)
}

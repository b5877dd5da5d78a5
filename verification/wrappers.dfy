/** Failure-carrying values shared by every layer of the model. */
module Wrappers {

  /** A value that may be absent: a Go nil pointer, an optional driver failure. */
  datatype Option<+T> = None | Some(value: T)

  /** A Go `(value, error)` pair in which exactly one half is meaningful. */
  datatype Result<+R, +E> = Success(value: R) | Failure(error: E)

  /** A Go call that returns only an `error`: nil (Pass) or an error (Fail). */
  datatype Outcome<+E> = Pass | Fail(error: E)
}

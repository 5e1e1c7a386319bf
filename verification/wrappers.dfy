/** Failure-carrying result types shared by every module of the model. */
module Wrappers {

  /** A value that may be absent (Go's nil pointer). */
  datatype Option<+T> = None | Some(value: T)

  /** A value or an error (Go's `(T, error)` pair with exactly one meaningful half). */
  datatype Result<+T, +E> = Success(value: T) | Failure(error: E)

  /** An error or nothing (Go's lone `error` return value). */
  datatype Outcome<+E> = Pass | Fail(error: E)
}

/** Option, Result and Outcome: Go's `(value, error)` and `error` returns as values. */
module Wrappers {
  /** A value that may be missing (a Go nil pointer, a flag that was not given). */
  datatype Option<+T> = None | Some(value: T) {
    function GetOr(default: T): T {
      match this
      case Some(v) => v
      case None => default
    }
  }

  /** The `(T, error)` pair of a Go function: exactly one of the two is meaningful. */
  datatype Result<+T, +E> = Ok(value: T) | Err(error: E)

  /** A Go `error` return: nil (Pass) or an error value (Fail). */
  datatype Outcome<+E> = Pass | Fail(error: E)
}

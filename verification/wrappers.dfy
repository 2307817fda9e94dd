/** Option and Result values used in place of nil pointers and error returns. */
module Wrappers {

  datatype Option<+T> = None | Some(value: T) {
    function GetOr(default: T): T {
      match this
      case Some(v) => v
      case None => default
    }
  }

  /** A value or an error message: Go's `(value, err)` pair. */
  datatype Result<+T> = Ok(value: T) | Err(msg: string)

  /** Outcome of a Go call that may panic at run time (a slice or index out of range). */
  datatype Go<+T> = Value(v: T) | Panic
}

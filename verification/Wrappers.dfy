/** Failure-compatible result types shared by the whole model. */
module Wrappers {

  /** A value that may be absent: a nil pointer, a missing row, a NULL column. */
  datatype Option<+T> = None | Some(value: T) {
    function GetOr(default: T): T {
      if Some? then value else default
    }
  }

  /** A returned error, or the value returned beside a nil error. */
  datatype Result<+T, +E> = Success(value: T) | Failure(error: E)
}

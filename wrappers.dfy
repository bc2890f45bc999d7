/** Failure-compatible result types shared by every module of the model. */
module Wrappers {

  /** A value that may be absent: `undefined`/`None` in the modelled code. */
  datatype Option<+T> = None | Some(value: T) {
    function GetOr(default: T): T {
      match this
      case Some(v) => v
      case None => default
    }
  }

  /** An operation that either produces a value or raises/rejects. */
  datatype Result<+T, +E> = Ok(value: T) | Err(error: E)
}

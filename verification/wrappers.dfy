/** Option and Result, used across the model. */
module Wrappers {

  /** A value that may be absent: an unset header, a URL that did not parse,
      a query key that was not supplied. */
  datatype Option<+T> = None | Some(value: T) {
    function GetOr(default: T): T {
      match this
      case Some(v) => v
      case None => default
    }
  }

  /** The outcome of an admission decision: the admitted value or a rejection. */
  datatype Result<+R, +E> = Ok(value: R) | Err(error: E)
}

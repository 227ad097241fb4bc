/** Option and Result: absent values (JavaScript `undefined`/`null`) and thrown errors. */
module Wrappers {

  datatype Option<+T> = None | Some(value: T) {
    function GetOr(default: T): T {
      match this
      case Some(v) => v
      case None => default
    }
  }

  /** A call that either returns a value or throws an error described by `error`. */
  datatype Result<+T, +E> = Ok(value: T) | Err(error: E)
}

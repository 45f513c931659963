/** Option and Result, used for the JavaScript `undefined` / `null` values and for error returns. */
module Wrappers {

  datatype Option<+T> = None | Some(value: T)
  {
    /** The value, or `default` when there is none (JavaScript's `x ?? default`). */
    function GetOr(default: T): T
    {
      match this
      case Some(v) => v
      case None => default
    }
  }

  /** A handler's outcome: a response body, or an error response. */
  datatype Result<+R, +E> = Ok(value: R) | Err(error: E)
}

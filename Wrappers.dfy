/** Optional values and results with an error, for the JavaScript code's
    `undefined` fields and thrown exceptions. */
module Wrappers {

  datatype Option<+T> = None | Some(value: T) {
    /** `x || fallback` for a field that may be missing. */
    function GetOr(default: T): T {
      match this
      case Some(v) => v
      case None => default
    }
  }

  datatype Result<+T, +E> = Ok(value: T) | Err(error: E)
}

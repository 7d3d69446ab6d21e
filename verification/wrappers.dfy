/** Optional values and results with an error message, shared by every module. */
module Wrappers {

  /** A value that may be absent (a JS `null` or `undefined`). */
  datatype Option<T> = None | Some(value: T) {
    /** The value, or `default` when absent. */
    function GetOr(default: T): (r: T)
      ensures Some? ==> r == value
      ensures None? ==> r == default
    {
      match this
      case Some(v) => v
      case None => default
    }
  }

  /** The outcome of an operation that can fail with a message. */
  datatype Result<T> = Ok(value: T) | Err(error: string)
}

/** Optional values and results with an error message, shared by every module. */
module Wrappers {

  datatype Option<+T> = None | Some(value: T) {
    function GetOr(default: T): T {
      match this
      case Some(v) => v
      case None => default
    }
  }

  /** A computation that either produced a value or threw an error with a message. */
  datatype Result<+T> = Ok(value: T) | Err(message: string)
}

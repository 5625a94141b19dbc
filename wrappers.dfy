/** The optional value and the call result shared by the other modules. */
module Wrappers {

  datatype Option<+T> = None | Some(value: T) {
    /** The wrapped value, or `default` when there is none. */
    function GetOr(default: T): T {
      match this
      case Some(v) => v
      case None => default
    }
  }

  /** The value of a call, or the error that the call raised. */
  datatype Result<+T> = Ok(value: T) | Err(error: string)
}

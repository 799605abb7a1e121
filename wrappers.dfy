/** Option and Result values for the error paths of the interview service. */
module Wrappers {

  datatype Option<+T> = None | Some(value: T) {
    function GetOr(default: T): T {
      match this
      case Some(v) => v
      case None => default
    }
  }

  /** The errors the service raises: an HTTP status with its detail, a Python exception by name. */
  datatype Error =
    | Http(status: int, detail: string)
    | ValueError(message: string)
    | TypeError(message: string)

  datatype Result<+T> = Ok(value: T) | Err(error: Error)
}

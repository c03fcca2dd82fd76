/** Optional values and results with an error, as used throughout the model. */
module Wrappers {

  /** A value that may be absent: Python's `None` versus a present value. */
  datatype Option<+T> = None | Some(value: T) {
    function GetOr(default: T): T {
      match this
      case Some(v) => v
      case None => default
    }
  }

  /** An HTTP-style failure: a status code and a detail message. */
  datatype HttpError = HttpError(status: nat, detail: string)

  /** The outcome of a request handler: a value, or an HTTP error response. */
  datatype Result<+T> = Ok(value: T) | Err(error: HttpError)
}

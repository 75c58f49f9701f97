/** Option and Result, and the error value a rejected promise carries. */
module Wrappers {

  /** The value an exception or a rejected promise carries; the model never inspects it. */
  type Error = string

  datatype Option<+T> = None | Some(value: T) {
    function GetOr(default: T): T {
      match this
      case Some(v) => v
      case None => default
    }
  }

  datatype Result<+R, +E> = Success(value: R) | Failure(error: E)
}

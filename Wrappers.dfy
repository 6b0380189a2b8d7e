/** Option and Result values used across the model. */
module Wrappers {

  datatype Option<+T> = None | Some(value: T) {

    /** The carried value, or `default` when there is none. */
    function GetOr(default: T): T {
      match this
      case Some(v) => v
      case None => default
    }
  }

  /** The outcome of an operation that may raise: `Err` carries what was raised. */
  datatype Result<+T, +E> = Ok(value: T) | Err(error: E)
}

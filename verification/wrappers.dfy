/** Option and Result values used across the model for "absent" results (SQL rows that do
    not exist, JavaScript `null`/`undefined`) and for the handlers' early-return error paths. */
module Wrappers {

  datatype Option<+T> = None | Some(value: T) {
    function GetOr(default: T): T {
      match this
      case Some(v) => v
      case None => default
    }
  }

  datatype Result<+T, +E> = Ok(value: T) | Err(error: E)
}

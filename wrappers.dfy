/** Option and Result, the two failure-carrying wrappers the model uses for values that may be
    absent (a JS `null`, a Rust `Option`) and for operations that return a Rust `Result`. */
module Wrappers {

  datatype Option<+T> = None | Some(value: T) {
    function GetOr(default: T): T {
      match this
      case Some(v) => v
      case None => default
    }
  }

  datatype Result<+T, +E> = Ok(value: T) | Err(error: E)
}

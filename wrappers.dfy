/** Option and Result values, standing for Rust's `Option<T>` and `Result<T, E>`. */
module Wrappers {

  datatype Option<+T> = None | Some(value: T) {
    function GetOr(default: T): T {
      match this
      case Some(v) => v
      case None => default
    }
  }

  datatype Result<+T, +E> = Ok(value: T) | Err(error: E)

  /** How the process ends early: `std::process::exit(code)`, or a panic
      (`expect`, `unwrap`, `todo!`) with its message. */
  datatype Abort = Exit(code: int) | Panic(message: string)

  /** The unit value `()`. */
  datatype Unit = Unit
}

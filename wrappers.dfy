/** Option and Result, the two failure-carrying shapes the source uses:
    JavaScript's undefined/null and Rust's Option and Result<T, String>. */
module Wrappers {

  datatype Option<+T> = None | Some(value: T) {
    function GetOr(default: T): T {
      match this
      case Some(v) => v
      case None => default
    }
  }

  datatype Result<+T> = Ok(value: T) | Err(error: string)
}

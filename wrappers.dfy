/** Optional values and fallible results, the two shapes the Rust code returns
    (`Option<T>` and `Result<T, Box<dyn Error>>`, whose error is only ever displayed). */
module Wrappers {

  datatype Option<+T> = None | Some(value: T) {
    function GetOr(default: T): T {
      match this
      case Some(v) => v
      case None => default
    }
  }

  /** An error carries the text that `Display` would print for it. */
  datatype Result<+T> = Ok(value: T) | Err(error: string)
}

/** Rust's `Option<T>`, the only failure-style wrapper the client uses. */
module Wrappers {

  datatype Option<+T> = None | Some(value: T) {

    /** Rust's `unwrap_or`: the value if present, `default` otherwise. */
    function GetOr(default: T): T
    {
      match this
      case Some(v) => v
      case None => default
    }
  }
}

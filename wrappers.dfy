/** Small shared helpers. */
module Wrappers {

  /** Rust's `Option`: `None` or `Some(value)`. */
  datatype Option<T> = None | Some(value: T)
}

/** A value that may be absent, as Python's `None` and Rust's `Option` say it. */
module Wrappers {

  datatype Option<+T> = None | Some(value: T)
}

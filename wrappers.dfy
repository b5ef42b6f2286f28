/** Rust's `Option`, as used for every optional field of the crate's records. */
module Wrappers {

  datatype Option<+T> = None | Some(value: T)
}

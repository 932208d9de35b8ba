/** Optional values: `None` also stands for a Rust panic where an operation has no result. */
module Wrappers {
  datatype Option<+T> = None | Some(value: T)
}

// Option and Result, used by every other module for absent values and for the
// errors the original raises.
module Wrappers {
  datatype Option<+T> = None | Some(value: T)

  datatype Result<+T, +E> = Ok(value: T) | Err(error: E)
}

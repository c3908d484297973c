// Option and Result, used by every other module for "nil or a value" and "value or error".
module Wrappers {

  datatype Option<+T> = None | Some(value: T)

  datatype Result<+T, +E> = Ok(value: T) | Err(error: E)
}

/** Option and Result, the two failure-carrying shapes the model uses for
    Python's `None` and for exceptions a caller can observe. */
module Wrappers {

  datatype Option<+T> = None | Some(value: T)

  datatype Result<+T, +E> = Ok(value: T) | Err(error: E)
}

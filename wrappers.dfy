/** Option and Result, the two failure-carrying types the model uses for Python's
    `None` results and for exceptions that a handler catches. */
module Wrappers {

  datatype Option<+T> = None | Some(value: T)

  datatype Result<+R, +E> = Ok(value: R) | Err(error: E)
}

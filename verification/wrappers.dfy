/** Option and Result, the two failure-carrying datatypes the model uses. */
module Wrappers {

  /** A value that may be absent, as Python's `None`. */
  datatype Option<+T> = None | Some(value: T)

  /** The outcome of an operation that can raise an `FmException`. */
  datatype Result<+R, +E> = Ok(value: R) | Err(error: E)
}

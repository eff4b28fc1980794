/** Option and Result values used throughout the model. */
module Wrappers {

  /** A value that may be missing; `None` plays the part of Python's `None`. */
  datatype Option<+T> = None | Some(value: T)

  /** The outcome of a computation that may raise a Python exception. */
  datatype Result<+T, +E> = Ok(value: T) | Err(error: E)
}

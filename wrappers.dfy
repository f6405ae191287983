/** The two failure-carrying wrappers the model uses in place of Python's
    None results and raised exceptions. */
module Wrappers {

  /** A value that may be absent (Python's `None`). */
  datatype Option<+T> = None | Some(value: T)

  /** A computed value, or the error a Python function would have raised. */
  datatype Result<+T, +E> = Ok(value: T) | Err(error: E)
}

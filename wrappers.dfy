/** Option and Result, the failure-carrying values that stand for Python's None and exceptions. */
module Wrappers {

  datatype Option<+T> = None | Some(value: T)

  /** A value, or the exception that the Python code raises instead of returning one. */
  datatype Result<+T, +E> = Ok(value: T) | Err(error: E)
}

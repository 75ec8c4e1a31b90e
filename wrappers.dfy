/** Option and Result: the Python code's `None` values and raised exceptions. */
module Wrappers {

  /** A value that may be missing (`Optional[...]` in the source). */
  datatype Option<+T> = None | Some(value: T)

  /** A computation that either returns a value or raises an error. */
  datatype Result<+T, +E> = Ok(value: T) | Err(error: E)

  /** A check that either passes (returns `None`) or raises an error. */
  datatype Outcome<+E> = Pass | Fail(error: E)
}

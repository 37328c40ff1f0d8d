/** Failure-compatible wrappers shared by the whole model. */
module Wrappers {

  /** A value that may be missing (SQL NULL, Python None). */
  datatype Option<+T> = None | Some(value: T)

  /** Either a value or the error that replaced it (a raised exception). */
  datatype Result<+R, +E> = Ok(value: R) | Err(error: E)
}

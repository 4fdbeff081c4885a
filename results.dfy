/** Failure-compatible wrappers shared by the model: Python's None and raised exceptions. */
module Results {

  /** A value that may be Python's None. */
  datatype Option<+T> = None | Some(value: T)

  /** Either a value, or the exception an operation raises. */
  datatype Result<+T, +E> = Ok(value: T) | Err(error: E)
}

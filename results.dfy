/** Failure-carrying values used where the application raises an exception
    or leaves a field empty (Python's None). */
module Results {

  datatype Option<+T> = None | Some(value: T)

  datatype Result<+T, +E> = Ok(value: T) | Err(error: E)

  /** The outcome of a validation step that either passes or raises. */
  datatype Outcome<+E> = Pass | Fail(error: E)
}

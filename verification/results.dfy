/** Failure-carrying values shared by every part of the model. */
module Results {

  /** A value that may be absent, as a Python `None` or a missing key. */
  datatype Option<+T> = None | Some(value: T)

  /** The outcome of an operation that may raise instead of returning. */
  datatype Result<+T, +E> = Ok(value: T) | Err(error: E)
}

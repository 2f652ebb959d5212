/** Failure-carrying values shared by every module of the image adapter model. */
module Base {

  /** A value that may be absent: JavaScript's `null`/`undefined` or a failed match. */
  datatype Option<+T> = None | Some(value: T)

  /** The outcome of an operation that either produces a value or throws. */
  datatype Result<+T, +E> = Ok(value: T) | Err(error: E)
}

/** Failure-carrying result types shared by the model. */
module Wrappers {

  /** A value that may be absent, like Python's `None`. */
  datatype Option<T> = None | Some(value: T)

  /** Either a value or the error that was raised instead. */
  datatype Result<T, E> = Ok(value: T) | Err(error: E)
}

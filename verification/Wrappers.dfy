/** Failure-carrying values shared by the models. */
module Wrappers {

  /** A value that may be absent. */
  datatype Option<+T> = None | Some(value: T)

  /** The outcome of an operation that the source may abandon with an exception. */
  datatype Result<+T, +E> = Ok(value: T) | Err(error: E)
}

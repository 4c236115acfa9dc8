/** Option and Result, the failure-carrying wrappers the rest of the model uses. */
module Wrappers {

  /** A value that may be absent, as JavaScript's `undefined`/`null` is used in the source. */
  datatype Option<+T> = None | Some(value: T)

  /** The success value of an operation or the error it raised. */
  datatype Result<+T, +E> = Ok(value: T) | Err(error: E)
}

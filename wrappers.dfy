/** Option and Result, the two failure-carrying values the model uses. */
module Wrappers {

  /** A value that may be absent, such as a JSON field that is not there. */
  datatype Option<+T> = None | Some(value: T)

  /** The outcome of an operation that can fail with an error of type E. */
  datatype Result<+R, +E> = Ok(value: R) | Err(error: E)
}

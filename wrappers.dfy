/** The optional-value and success-or-error datatypes shared by every module of the model. */
module Wrappers {

  /** A value that may be absent: a missing request field, an empty query result. */
  datatype Option<+T> = None | Some(value: T)

  /** The outcome of an endpoint: a success payload or one of its error cases. */
  datatype Result<+R, +E> = Ok(value: R) | Err(error: E)
}

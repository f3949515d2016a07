/** The optional values and failure results that the other modules share. */
module Wrappers {

  datatype Option<+T> = None | Some(value: T)

  /** A value or the reason there is none. */
  datatype Result<+T, +E> = Ok(value: T) | Err(error: E)
}

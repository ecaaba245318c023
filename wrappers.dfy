/** Tagged results used in place of thrown errors. */
module Wrappers {

  datatype Option<+T> = None | Some(value: T)

  /** Either a value or the error that would have been thrown. */
  datatype Result<+R, +E> = Ok(value: R) | Err(error: E)
}

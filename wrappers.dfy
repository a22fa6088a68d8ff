/** Option and Result, the wrappers the rest of the model uses. */
module Wrappers {

  datatype Option<+T> = None | Some(value: T)

  /** `Err` carries the reason a fatal configuration assertion fired. */
  datatype Result<+T, +E> = Ok(value: T) | Err(error: E)
}

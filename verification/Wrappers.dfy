/** Failure-compatible result types shared by every component of the model. */
module Wrappers {

  datatype Option<+T> = None | Some(value: T)

  /** The C++ engine reports failure by throwing; a thrown exception is an Err here. */
  datatype Result<+T, +E> = Ok(value: T) | Err(error: E)
}

/** Option and Result datatypes shared by the simulation modules. */
module Wrappers {

  /** A value, or nothing (a division that Python would refuse). */
  datatype Option<+T> = None | Some(value: T)

  /** A value, or the error that ended the computation. */
  datatype Result<+T, +E> = Ok(value: T) | Err(error: E)
}

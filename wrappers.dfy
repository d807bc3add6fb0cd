/** Failure-compatible result types shared by the other modules. */
module Wrappers {

  datatype Option<+T> = None | Some(value: T)

  /** Either a value or the error the original program raises. */
  datatype Result<+T, +E> = Ok(value: T) | Err(error: E)
}

/** The two small result shapes shared by the modules of this project. */
module Wrappers {

  datatype Option<+T> = None | Some(value: T)

  /** A value, or the error code the source raises. */
  datatype Result<+T> = Ok(value: T) | Err(code: string)
}

/** Failure-carrying values shared by every module: a missing value and an
    error raised by the modelled code. */
module Outcomes {

  datatype Option<+T> = None | Some(value: T)

  datatype Result<+T, +E> = Ok(value: T) | Err(error: E)
}

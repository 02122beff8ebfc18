/** Failure-carrying return values shared by the handlers. */
module Wrappers {

  datatype Option<+T> = None | Some(value: T)

  /** Either a value or the error the handler reports instead of it. */
  datatype Result<+T, +E> = Ok(value: T) | Err(error: E)
}

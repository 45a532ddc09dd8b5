/** Option and Result types used for the library's error returns. */
module Wrappers {

  datatype Option<+T> = None | Some(value: T)

  /** A value or the error the Go code returns in its place. */
  datatype Result<+T, +E> = Ok(value: T) | Err(error: E)

}

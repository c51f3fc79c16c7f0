/** Option and the crate-wide Result type: an operation either succeeds with a
    value or fails with a static message (the core's only error channel). */
module Wrappers {

  datatype Option<+T> = None | Some(value: T)

  /** `Result<T>` of the core library: the error side is a fixed message. */
  datatype Result<+T> = Ok(value: T) | Err(error: string)
}

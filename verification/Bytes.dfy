/** Bytes, and the result type that stands for the Rust `Result` with an error code. */
module Bytes {

  newtype u8 = x: int | 0 <= x < 256

  datatype Option<+T> = None | Some(value: T)

  datatype Result<+T, +E> = Ok(value: T) | Err(error: E)

  datatype Unit = Unit
}

/** Option and Result in the shape of Rust's `Option` and `Result`. */
module Wrappers {

  datatype Option<+T> = None | Some(value: T)

  datatype Result<+T, +E> = Ok(value: T) | Err(error: E)

  /** The bytes of the input and output text. */
  type Byte = b: int | 0 <= b < 256
}

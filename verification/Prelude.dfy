/** Result types for the source's nulls and thrown errors, and the integer widths of its buffers. */
module Prelude {
  datatype Option<+T> = None | Some(value: T)

  datatype Result<+T, +E> = Ok(value: T) | Err(error: E)

  /** A number, or none for a value that arithmetic and comparison treat as not a number. */
  type Number = Option<real>

  type byte = x: int | 0 <= x < 256

  type u32 = x: int | 0 <= x < 0x1_0000_0000
}

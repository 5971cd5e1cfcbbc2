/** Types shared by the model: bytes, optional values and results. */
module Basics {

  newtype byte = x: int | 0 <= x < 256

  /** The number of values of an unsigned 64-bit integer. */
  const TWO_TO_THE_64: nat := 0x1_0000_0000_0000_0000

  datatype Option<+T> = None | Some(value: T)

  datatype Result<+T, +E> = Ok(value: T) | Err(error: E)

  function Min(a: int, b: int): int {
    if a < b then a else b
  }

  function Max(a: int, b: int): int {
    if a > b then a else b
  }
}

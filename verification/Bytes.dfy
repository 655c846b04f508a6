/** Machine integers and small sequence helpers shared by the other modules. */
module Bytes {
  const TWO_TO_16: int := 0x1_0000
  const TWO_TO_32: int := 0x1_0000_0000
  const TWO_TO_63: int := 0x8000_0000_0000_0000
  const TWO_TO_64: int := 0x1_0000_0000_0000_0000

  type byte = x: int | 0 <= x < 256
  type u16 = x: int | 0 <= x < TWO_TO_16
  type u32 = x: int | 0 <= x < TWO_TO_32
  type u64 = x: int | 0 <= x < TWO_TO_64

  datatype Option<+T> = None | Some(value: T)

  datatype Result<+T, +E> = Ok(value: T) | Err(error: E)

  /** The value kept in a 64-bit word. */
  function Wrap64(x: nat): u64 {
    x % TWO_TO_64
  }
}

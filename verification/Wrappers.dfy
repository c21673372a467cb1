/** Option and Result, the two shapes in which the modelled code reports absence and failure. */
module Wrappers {
  datatype Option<+T> = None | Some(value: T)

  /** `Err` carries no message: which check failed is visible from the branch taken. */
  datatype Result<+T> = Ok(value: T) | Err

  /** One past the largest value of each unsigned width; `usize` has 64 bits. */
  const U16_END: int := 0x1_0000
  const U32_END: int := 0x1_0000_0000
  const U64_END: int := 0x1_0000_0000_0000_0000
  const U128_END: int := 0x1_0000_0000_0000_0000_0000_0000_0000_0000

  type u16 = x: int | 0 <= x < U16_END
  type u32 = x: int | 0 <= x < U32_END
  type u64 = x: int | 0 <= x < U64_END
}

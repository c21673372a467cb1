/** `f32` as its bit pattern. Classification and the two comparisons the code uses are exact;
    rounding arithmetic stays an uninterpreted parameter (`FloatOps`), so every result about
    scores holds for IEEE arithmetic and for any other deterministic one. */
module Floats {
  import opened Wrappers

  datatype F32 = F32(bits: u32)

  const SIGN_BIT: int := 0x8000_0000
  const MANTISSA_END: int := 0x80_0000

  const ZERO := F32(0)
  const HALF := F32(0x3F00_0000)
  const ONE := F32(0x3F80_0000)
  const EPSILON := F32(0x3400_0000)

  /** The integer `f32::total_cmp` compares: a signed view of the bits in which a larger
      magnitude is smaller when the sign bit is set. */
  function TotalKey(f: F32): int {
    if f.bits < SIGN_BIT then f.bits else SIGN_BIT - 1 - f.bits
  }

  predicate IsFinite(f: F32) {
    (f.bits / MANTISSA_END) % 256 != 255
  }

  predicate IsNaN(f: F32) {
    !IsFinite(f) && f.bits % MANTISSA_END != 0
  }

  /** Signed magnitude: both zeros are 0. */
  function Magnitude(f: F32): int {
    if f.bits < SIGN_BIT then f.bits else SIGN_BIT - f.bits
  }

  /** The IEEE `<`: false as soon as one side is NaN. */
  predicate Less(a: F32, b: F32) {
    !IsNaN(a) && !IsNaN(b) && Magnitude(a) < Magnitude(b)
  }

  datatype FloatOps = FloatOps(
    fromNat: nat -> F32,
    add: (F32, F32) -> F32,
    sub: (F32, F32) -> F32,
    mul: (F32, F32) -> F32,
    div: (F32, F32) -> F32,
    max: (F32, F32) -> F32,
    abs: F32 -> F32,
    ln: F32 -> F32)
}

/** Rust's `u32` and the pieces of its arithmetic that the enumerators rely on. */
module Words {

  const U32_MODULUS: nat := 0x1_0000_0000
  const U32_MAX: nat := 0xFFFF_FFFF

  /** A value of Rust's `u32`. */
  type U32 = x: int | 0 <= x < U32_MODULUS

  datatype Option<T> = None | Some(value: T)

  /** `u32::checked_add`: the sum, or `None` when it does not fit in 32 bits. */
  function CheckedAdd(a: U32, b: U32): Option<U32>
  {
    if a + b <= U32_MAX then Some(a + b) else None
  }

  /** `u32::wrapping_add`: the sum modulo 2^32. */
  function WrappingAdd(a: U32, b: U32): U32
  {
    (a + b) % U32_MODULUS
  }

  /** `x as u32` for a `usize` value `x`: only the low 32 bits are kept. */
  function TruncateToU32(x: nat): U32
  {
    x % U32_MODULUS
  }

  /** `num` is one of the even values in the half-open range [lo, hi). */
  predicate EvenIn(num: int, lo: int, hi: int)
  {
    lo <= num < hi && num % 2 == 0
  }

  /** Where the checked sum exists the two additions agree; where it does not,
      the wrapping sum falls back below its first operand. */
  lemma CheckedAddAgreesWithWrapping(a: U32, b: U32)
    ensures CheckedAdd(a, b).Some? ==> WrappingAdd(a, b) == CheckedAdd(a, b).value
    ensures CheckedAdd(a, b).None? ==> WrappingAdd(a, b) == a + b - U32_MODULUS < a
  {
  }
}

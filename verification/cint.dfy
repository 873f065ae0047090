/** C integer semantics used by the firmware: 32-bit signed and unsigned ranges,
    unsigned wrap-around and division that truncates toward zero. */
module CInt {
  const INT32_MIN: int := -0x8000_0000
  const INT32_MAX: int := 0x7fff_ffff
  const UINT32_MAX: int := 0xffff_ffff
  const UINT32_MODULUS: int := 0x1_0000_0000

  /** `int`, `int32_t` and `fixed_point_t` on the target. */
  type int32 = x: int | INT32_MIN <= x <= INT32_MAX

  /** `uint32_t`, `u32` and `size_t` (the target is a 32-bit ARM core). */
  type uint32 = x: int | 0 <= x <= UINT32_MAX

  /** Conversion of any integer to `uint32_t`: reduction modulo 2^32. */
  function Wrap32(x: int): (r: uint32)
    ensures (x - r) % UINT32_MODULUS == 0
    ensures 0 <= x <= UINT32_MAX ==> r == x
  {
    x % UINT32_MODULUS
  }

  /** C's `/` on `int`: the quotient truncated toward zero (Dafny's `/` is Euclidean). */
  function TruncDiv(a: int, b: int): (q: int)
    requires b > 0
    ensures a >= 0 ==> q * b <= a < q * b + b
    ensures a < 0 ==> q * b - b < a <= q * b
  {
    if a >= 0 then a / b else -((-a) / b)
  }

  /** C's `%` on `int`: the remainder takes the sign of the dividend. */
  function TruncRem(a: int, b: int): (r: int)
    requires b > 0
    ensures a == TruncDiv(a, b) * b + r
    ensures a >= 0 ==> 0 <= r < b
    ensures a < 0 ==> -b < r <= 0
  {
    a - TruncDiv(a, b) * b
  }
}

/** The Q20.12 fixed-point kernel: 32-bit signed values with 12 fractional bits.
    Every operation works on exact integers and range-checks before narrowing,
    as the source does through 64-bit intermediates. */
module FixedPoint {
  import opened CInt
  import opened Results

  const FRACTION_BITS: int := 12
  const SCALE: int := 4096            // 1 << FRACTION_BITS
  const FIXED_MAX: int := INT32_MAX   // (1LL << 31) - 1
  const FIXED_MIN: int := INT32_MIN   // -(1LL << 31)

  /** `fixed_point_t`. */
  type Fixed = int32

  /** Arithmetic right shift by FRACTION_BITS, i.e. division by 4096 rounded toward minus infinity. */
  function ShiftRight(x: int): (r: int)
    ensures r * SCALE <= x < r * SCALE + SCALE
  {
    x / SCALE
  }

  /** `int_to_fixed`: rejects values outside [FIXED_MIN >> 12, FIXED_MAX >> 12], otherwise scales. */
  function IntToFixed(n: int32): (r: Result<Fixed>)
    ensures r.Ok? <==> -524288 <= n <= 524287
    ensures r.Ok? ==> r.value / SCALE == n && r.value % SCALE == 0
    ensures r.Err? ==> r.status == Overflow
  {
    if n > ShiftRight(FIXED_MAX) || n < ShiftRight(FIXED_MIN) then Err(Overflow)
    else Ok(n * SCALE)
  }

  /** `fixed_to_int`: the integer part, rounded toward minus infinity. */
  function FixedToInt(v: Fixed): (r: int32)
    ensures r * SCALE <= v < (r + 1) * SCALE
  {
    ShiftRight(v)
  }

  /** The product of two `fixed_point_t` values always fits the `int64_t` intermediate,
      so the 64-bit multiplication in `fixed_multiply` is exact. */
  lemma ProductFitsInt64(a: Fixed, b: Fixed)
    ensures -0x8000_0000_0000_0000 <= a * b <= 0x7fff_ffff_ffff_ffff
  {
    var x: int, y: int := if a < 0 then -(a as int) else a, if b < 0 then -(b as int) else b;
    MagnitudeBound(x, y);
    SignedProduct(a, b, x, y);
  }

  lemma MagnitudeBound(x: int, y: int)
    requires 0 <= x <= 0x8000_0000 && 0 <= y <= 0x8000_0000
    ensures x * y <= 0x4000_0000_0000_0000
  {
    assert x * y <= 0x8000_0000 * y;
  }

  lemma SignedProduct(a: int, b: int, x: int, y: int)
    requires x == (if a < 0 then -a else a) && y == (if b < 0 then -b else b)
    ensures a * b == x * y || a * b == -(x * y)
  {
  }

  /** `fixed_multiply`: the exact product shifted right by 12, or Overflow when that leaves the 32-bit range. */
  function Multiply(a: Fixed, b: Fixed): (r: Result<Fixed>)
    ensures r.Ok? <==> FIXED_MIN * SCALE <= a * b < (FIXED_MAX + 1) * SCALE
    ensures r.Ok? ==> r.value * SCALE <= a * b < r.value * SCALE + SCALE
    ensures r.Err? ==> r.status == Overflow
  {
    var temp := ShiftRight(a * b);
    if temp > FIXED_MAX || temp < FIXED_MIN then Err(Overflow) else Ok(temp)
  }

  lemma MultiplyValue(a: Fixed, b: Fixed)
    requires Multiply(a, b).Ok?
    ensures Multiply(a, b).value == ShiftRight(a * b)
  {
  }

  /** `fixed_add`: the exact sum, or Overflow when it leaves the 32-bit range; never wraps. */
  function Add(a: Fixed, b: Fixed): (r: Result<Fixed>)
    ensures r.Ok? <==> FIXED_MIN <= a + b <= FIXED_MAX
    ensures r.Ok? ==> r.value - a == b
    ensures r.Err? ==> r.status == Overflow
  {
    var temp := a + b;
    if temp > FIXED_MAX || temp < FIXED_MIN then Err(Overflow) else Ok(temp)
  }

  lemma IntRoundTrip(n: int32)
    requires -524288 <= n <= 524287
    ensures IntToFixed(n).Ok? && FixedToInt(IntToFixed(n).value) == n
  {
  }

  lemma MultiplyCommutes(a: Fixed, b: Fixed)
    ensures Multiply(a, b) == Multiply(b, a)
  {
  }

  lemma AddCommutes(a: Fixed, b: Fixed)
    ensures Add(a, b) == Add(b, a)
  {
  }

  /** Multiplying by the fixed-point one (4096) returns the other operand. */
  lemma MultiplyByOne(a: Fixed)
    ensures Multiply(a, SCALE) == Ok(a) && Multiply(SCALE, a) == Ok(a)
  {
  }

  /** The integer and fractional parts that `fixed_print` renders, without the printing. */
  datatype Decimal = Decimal(negative: bool, integerPart: int, fractionPart: int)

  /** `fixed_print` as written: C `/` and `%` by 4096 (truncating), then `* 1000 >> 12`
      (an arithmetic shift); for a negative value both parts are negated before printing. */
  function PrintedParts(v: Fixed): (d: Decimal)
    ensures d.negative <==> v < 0
    ensures v >= 0 ==> d.integerPart * SCALE <= v < (d.integerPart + 1) * SCALE
    ensures v >= 0 ==> 0 <= d.fractionPart <= 999
    ensures v < 0 ==> d.integerPart * SCALE <= -(v as int) < (d.integerPart + 1) * SCALE
    ensures v < 0 ==> 0 <= d.fractionPart <= 1000
    ensures v < 0 ==>
      var rest := -(v as int) - d.integerPart * SCALE;
      (d.fractionPart - 1) * SCALE < rest * 1000 <= d.fractionPart * SCALE
  {
    var integerPart := TruncDiv(v, SCALE);
    var fractionalPart := ShiftRight(TruncRem(v, SCALE) * 1000);
    if v >= 0 then Decimal(false, integerPart, fractionalPart)
    else Decimal(true, -integerPart, -fractionalPart)
  }

  /** The negative value -4095 (about -0.99976) is printed with the fraction 1000,
      that is as "-0.1000", although three digits were meant. */
  lemma PrintedFractionReaches1000()
    ensures PrintedParts(-4095) == Decimal(true, 0, 1000)
  {
  }

  /** For a negative value the shift rounds the magnitude's decimals up: -1 (about
      -0.00024) is printed as "-0.001", where the truncated decimals are 000. */
  lemma PrintedFractionRoundsUp()
    ensures PrintedParts(-1) == Decimal(true, 0, 1)
    ensures DecimalParts(-1) == Decimal(true, 0, 0)
  {
  }

  /** What `fixed_print` evidently intends: the magnitude's integer part and its first
      three decimals (truncated), with the sign printed separately. */
  function DecimalParts(v: Fixed): (d: Decimal)
    ensures d.negative <==> v < 0
    ensures 0 <= d.fractionPart <= 999
    ensures var m: int := if v < 0 then -(v as int) else v;
      d.integerPart * SCALE <= m < (d.integerPart + 1) * SCALE &&
      d.fractionPart * SCALE <= (m - d.integerPart * SCALE) * 1000 < (d.fractionPart + 1) * SCALE
  {
    var m: int := if v < 0 then -(v as int) else v;
    Decimal(v < 0, m / SCALE, (m % SCALE) * 1000 / SCALE)
  }

  /** The corrected rendering agrees with the source on non-negative values and is symmetric in the sign. */
  lemma DecimalPartsMatchesSource(v: Fixed)
    ensures v >= 0 ==> DecimalParts(v) == PrintedParts(v)
    ensures v > FIXED_MIN ==>
      DecimalParts(-v).integerPart == DecimalParts(v).integerPart &&
      DecimalParts(-v).fractionPart == DecimalParts(v).fractionPart
  {
  }
}

/** Java's fixed-width integer types, with the wrap-around of `long` subtraction
    written out (Dafny integers are unbounded). */
module JavaInts {

  const LONG_MIN: int := -0x8000_0000_0000_0000
  const LONG_MAX: int := 0x7FFF_FFFF_FFFF_FFFF
  const TWO_POW_64: int := 0x1_0000_0000_0000_0000

  /** A Java `long`. */
  type Long = x: int | LONG_MIN <= x <= LONG_MAX

  /** A Java `int` (subtask ids are boxed `Integer` map keys). */
  type Int32 = x: int | -0x8000_0000 <= x <= 0x7FFF_FFFF

  /** `a - b` evaluated on Java longs: the mathematical difference reduced
      into the long range modulo 2^64. */
  function LongSub(a: Long, b: Long): (r: Long)
    ensures (r - (a - b)) % TWO_POW_64 == 0
    ensures LONG_MIN <= a - b <= LONG_MAX ==> r == a - b
  {
    var d := a - b;
    if d > LONG_MAX then d - TWO_POW_64
    else if d < LONG_MIN then d + TWO_POW_64
    else d
  }

  /** Two timestamps that are both non-negative never overflow when subtracted. */
  lemma NonNegativeSubNoWrap(a: Long, b: Long)
    requires 0 <= a && 0 <= b
    ensures LongSub(a, b) == a - b
  {
  }

  /** Whenever the true difference exceeds `Long.MAX_VALUE`, the long
      subtraction wraps around to a negative value. */
  lemma AgeOverflowWrapsNegative(a: Long, b: Long)
    requires a - b > LONG_MAX
    ensures LongSub(a, b) < 0
  {
  }
}

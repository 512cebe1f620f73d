/** Go's fixed-width integers as far as the scraper uses them: the 32-bit
    fields of the result records and the `int32(n)` conversion of a 64-bit
    `int`. */
module Ints {

  const MinInt32: int := -0x8000_0000
  const MaxInt32: int := 0x7FFF_FFFF
  const MinInt64: int := -0x8000_0000_0000_0000
  const MaxInt64: int := 0x7FFF_FFFF_FFFF_FFFF

  type int32 = x: int | -0x8000_0000 <= x <= 0x7FFF_FFFF

  predicate InInt64(n: int)
  {
    MinInt64 <= n <= MaxInt64
  }

  /** Go's `int32(n)`: keeps the low 32 bits, read back in two's complement.
      The result is the one int32 congruent to `n` modulo 2^32. */
  function Wrap32(n: int): (r: int32)
    ensures (r - n) % 0x1_0000_0000 == 0
    ensures MinInt32 <= n <= MaxInt32 ==> r == n
  {
    (n - MinInt32) % 0x1_0000_0000 + MinInt32
  }

  /** Only one int32 is congruent to a given integer modulo 2^32, so the
      wrap is fully determined by its contract. */
  lemma Wrap32Unique(n: int, r: int32)
    requires (r - n) % 0x1_0000_0000 == 0
    ensures r == Wrap32(n)
  {
    var w := Wrap32(n);
    assert (r - w) % 0x1_0000_0000 == 0;
    assert -0x1_0000_0000 < r - w < 0x1_0000_0000;
  }
}

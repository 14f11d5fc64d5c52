/**
 * The two bit-counting primitives the engine takes from java.lang.Long,
 * bitCount and numberOfTrailingZeros, on 64-bit masks.
 */
module Bits {

  const ALL_ONES: bv64 := 0xFFFF_FFFF_FFFF_FFFF

  /** Bit i of x, as 0 or 1 (bit indices are 8-bit values). */
  function BitAt(x: bv64, i: bv8): nat
  {
    if i < 64 && x & (1 << i) != 0 then 1 else 0
  }

  /** Number of set bits of x among positions 0 .. n-1. */
  function PopBelow(x: bv64, n: bv8): (count: nat)
    requires n <= 64
    ensures count <= n as nat
  {
    if n == 0 then 0 else PopBelow(x, n - 1) + BitAt(x, n - 1)
  }

  /** Long.bitCount: the number of set bits of x. */
  function BitCount(x: bv64): (count: nat)
    ensures count <= 64
  {
    PopBelow(x, 64)
  }

  /** x has exactly one set bit. */
  predicate IsSingleBit(x: bv64)
  {
    x != 0 && x & (x - 1) == 0
  }

  /** The lowest set bit of x (0 when x is 0). */
  function LowestBit(x: bv64): bv64
  {
    x & -x
  }

  /** Contribution of one bit of the index of a single-bit mask. */
  function IndexFlag(b: bv64, mask: bv64, weight: bv8): bv8
  {
    if b & mask != 0 then weight else 0
  }

  /** The position of the set bit of a single-bit mask, read off six fixed masks. */
  function BitIndex(b: bv64): bv8
  {
    IndexFlag(b, 0xFFFF_FFFF_0000_0000, 32) | IndexFlag(b, 0xFFFF_0000_FFFF_0000, 16)
    | IndexFlag(b, 0xFF00_FF00_FF00_FF00, 8) | IndexFlag(b, 0xF0F0_F0F0_F0F0_F0F0, 4)
    | IndexFlag(b, 0xCCCC_CCCC_CCCC_CCCC, 2) | IndexFlag(b, 0xAAAA_AAAA_AAAA_AAAA, 1)
  }

  /**
   * Long.numberOfTrailingZeros: the index of the lowest set bit of x,
   * and 64 when x is 0.
   */
  function TrailingZeros(x: bv64): (r: bv8)
    ensures r <= 64
    ensures r == 64 <==> x == 0
  {
    if x == 0 then 64 else BitIndex(LowestBit(x))
  }

  lemma LowestBitNonZero(x: bv64)
    requires x != 0
    ensures LowestBit(x) != 0
  {
  }

  lemma LowestBitAlone(x: bv64)
    ensures LowestBit(x) & (LowestBit(x) - 1) == 0
  {
  }

  /** The lowest set bit of a non-empty mask is a single bit of it. */
  lemma LowestBitIsSingle(x: bv64)
    requires x != 0
    ensures IsSingleBit(LowestBit(x))
    ensures x & LowestBit(x) == LowestBit(x)
  {
    LowestBitNonZero(x);
    LowestBitAlone(x);
  }

  /** No bit of x lies below its lowest set bit. */
  lemma LowestBitClearsBelow(x: bv64)
    ensures x & (LowestBit(x) - 1) == 0
  {
  }

  /** A single bit is its own lowest bit. */
  lemma SingleBitIsLowest(b: bv64)
    requires IsSingleBit(b)
    ensures LowestBit(b) == b
  {
  }

  /** A single-bit mask is 1 shifted left by its index. */
  lemma SingleBitIndex(b: bv64)
    requires IsSingleBit(b)
    ensures BitIndex(b) < 64 && b == 1 << BitIndex(b)
  {
  }

  /** The lowest set bit of x sits at TrailingZeros(x). */
  lemma TrailingZerosIsLowestBit(x: bv64)
    requires x != 0
    ensures TrailingZeros(x) < 64
    ensures LowestBit(x) == 1 << TrailingZeros(x)
    ensures x & (1 << TrailingZeros(x)) != 0
  {
    LowestBitIsSingle(x);
    SingleBitIndex(LowestBit(x));
  }

  /** The trailing-zero count of 1 << k is k. */
  lemma TrailingZerosOfBit(k: bv8)
    requires k < 64
    ensures TrailingZeros(1 << k) == k
  {
    var b: bv64 := 1 << k;
    assert IsSingleBit(b);
    SingleBitIsLowest(b);
    SingleBitIndex(b);
    ShiftInjective(k, BitIndex(b));
  }

  lemma ShiftInjective(k: bv8, j: bv8)
    requires k < 64 && j < 64
    requires (1 as bv64) << k == (1 as bv64) << j
    ensures k == j
  {
  }

  lemma BitAtUnion(x: bv64, y: bv64, i: bv8)
    requires x & y == 0
    ensures BitAt(x | y, i) == BitAt(x, i) + BitAt(y, i)
  {
  }

  lemma {:induction false} PopBelowUnion(x: bv64, y: bv64, n: bv8)
    requires n <= 64
    requires x & y == 0
    ensures PopBelow(x | y, n) == PopBelow(x, n) + PopBelow(y, n)
  {
    if n > 0 {
      PopBelowUnion(x, y, n - 1);
      BitAtUnion(x, y, n - 1);
    }
  }

  /** Counting disjoint sets of squares adds up. */
  lemma BitCountUnion(x: bv64, y: bv64)
    ensures x & y == 0 ==> BitCount(x | y) == BitCount(x) + BitCount(y)
  {
    if x & y == 0 {
      PopBelowUnion(x, y, 64);
    }
  }

  lemma BitAtMonotone(x: bv64, y: bv64, i: bv8)
    requires x & y == x
    ensures BitAt(x, i) <= BitAt(y, i)
  {
  }

  lemma {:induction false} PopBelowMonotone(x: bv64, y: bv64, n: bv8)
    requires n <= 64
    requires x & y == x
    ensures PopBelow(x, n) <= PopBelow(y, n)
  {
    if n > 0 {
      PopBelowMonotone(x, y, n - 1);
      BitAtMonotone(x, y, n - 1);
    }
  }

  /** A subset never has more set bits. */
  lemma BitCountMonotone(x: bv64, y: bv64)
    ensures x & y == x ==> BitCount(x) <= BitCount(y)
  {
    if x & y == x {
      PopBelowMonotone(x, y, 64);
    }
  }

  lemma {:induction false} PopBelowOfZero(n: bv8)
    requires n <= 64
    ensures PopBelow(0, n) == 0
  {
    if n > 0 {
      PopBelowOfZero(n - 1);
    }
  }

  /** Only the empty mask has no set bits. */
  lemma BitCountZero(x: bv64)
    ensures BitCount(x) == 0 <==> x == 0
  {
    if x == 0 {
      PopBelowOfZero(64);
    } else {
      LowestBitIsSingle(x);
      BitCountSingle(LowestBit(x));
      BitCountMonotone(LowestBit(x), x);
    }
  }

  lemma {:induction false} PopBelowSingle(k: bv8, n: bv8)
    requires k < 64 && n <= 64
    ensures PopBelow(1 << k, n) == if k < n then 1 else 0
  {
    if n > 0 {
      PopBelowSingle(k, n - 1);
    }
  }

  /** A single square counts once. */
  lemma BitCountSingle(x: bv64)
    ensures IsSingleBit(x) ==> BitCount(x) == 1
  {
    if IsSingleBit(x) {
      SingleBitIndex(x);
      PopBelowSingle(BitIndex(x), 64);
    }
  }

  // Small identities on masks, each proved on its own so that larger
  // proofs only need to combine them.

  /** A union is empty iff both parts are. */
  lemma OrNonZero(x: bv64, y: bv64)
    ensures (x | y != 0) == (x != 0 || y != 0)
  {
  }

  lemma OrZero(x: bv64, y: bv64)
    ensures (x | y == 0) == (x == 0 && y == 0)
  {
  }

  lemma AndOverOr(q: bv64, a: bv64, b: bv64)
    ensures q & (a | b) == (q & a) | (q & b)
  {
  }

  lemma AndAbsorb(q: bv64, a: bv64, b: bv64)
    ensures q & a == q ==> q & (a & b) == q & b
  {
  }

  lemma AndAnnul(q: bv64, a: bv64, b: bv64)
    ensures q & a == 0 ==> q & (a & b) == 0
  {
  }

  /** A single bit lies entirely inside or entirely outside any mask. */
  lemma SingleAnd(q: bv64, a: bv64)
    requires IsSingleBit(q)
    ensures q & a == 0 || q & a == q
  {
  }

  lemma Complement(q: bv64, a: bv64)
    ensures q & a == 0 ==> q & !a == q
    ensures q & a == q ==> q & !a == 0
  {
  }

  lemma NotOr(a: bv64, b: bv64)
    ensures !a & !b == !(a | b)
  {
  }
}

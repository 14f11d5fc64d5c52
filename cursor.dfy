/**
 * The move cursor of the search loops. Both loops keep two masks: the
 * moves still to try, shifted down so that bit 0 is the square under the
 * cursor, and the cursor itself, a single bit on the board. Each turn
 * skips the trailing zeros of the first mask, moving the cursor up by the
 * same count, plays the cursor square and then steps both by one more
 * place. This module shows that the pair always stands for a plain set of
 * remaining moves, and that each turn visits the lowest of them.
 */
module Cursors {
  import opened Bits

  /** x moved down n places, one place at a time (an unsigned shift by n). */
  function ShiftDown(x: bv64, n: bv8): bv64
    decreases n
  {
    if n == 0 then x else ShiftDown(x >> 1, n - 1)
  }

  /** x moved up n places, one place at a time (a left shift by n). */
  function ShiftUp(x: bv64, n: bv8): bv64
    decreases n
  {
    if n == 0 then x else ShiftUp(x << 1, n - 1)
  }

  /** At most one bit is set. */
  predicate SingleOrZero(y: bv64)
  {
    y & (y - 1) == 0
  }

  /**
   * The pair after the skip of a turn: `count` is the number of trailing
   * zeros of `pending` and `square` the cursor moved up by that count.
   */
  predicate Landed(pending: bv64, cursor: bv64, count: bv8, square: bv64)
  {
    count == TrailingZeros(pending) && square == cursor << count
  }

  /**
   * The board squares a (pending, cursor) pair still stands for: bit i of
   * `pending` stands for the square i places above the cursor.
   */
  function Pending(pending: bv64, cursor: bv64): bv64
    decreases pending
  {
    if pending == 0 then 0
    else if pending & 1 == 0 then Pending(pending >> 1, cursor << 1)
    else Add(cursor, Pending(pending >> 1, cursor << 1))
  }

  /** One square joined to a set of squares. */
  function Add(square: bv64, squares: bv64): bv64
  {
    square | squares
  }

  /**
   * The cursor stays a single board bit for every set bit of `pending`,
   * so that no pending move is pushed off the top of the board.
   */
  predicate Aligned(pending: bv64, cursor: bv64)
    decreases pending
  {
    pending == 0 || (IsSingleBit(cursor) && Aligned(pending >> 1, cursor << 1))
  }

  // Trailing zeros, one bit at a time
  /** numberOfTrailingZeros of an even mask is one more than that of its half. */
  lemma TrailingZerosStep(x: bv64)
    requires x != 0
    ensures x & 1 == 1 ==> TrailingZeros(x) == 0
    ensures x & 1 == 0 ==> x >> 1 != 0 && TrailingZeros(x >> 1) + 1 == TrailingZeros(x)
  {
    OddLowest(x);
    if x & 1 == 0 {
      EvenStep(x, x >> 1, LowestBit(x), LowestBit(x >> 1));
    }
  }

  lemma EvenStep(x: bv64, h: bv64, b: bv64, c: bv64)
    requires x != 0 && x & 1 == 0 && h == x >> 1
    requires b == LowestBit(x) && c == LowestBit(h)
    ensures h != 0 && TrailingZeros(h) + 1 == TrailingZeros(x)
  {
    EvenFacts(x, h, b, c);
    EvenIndex(x, h, b, c);
  }

  lemma EvenFacts(x: bv64, h: bv64, b: bv64, c: bv64)
    requires x != 0 && x & 1 == 0 && h == x >> 1
    requires b == LowestBit(x) && c == LowestBit(h)
    ensures h != 0 && IsSingleBit(b) && IsSingleBit(c) && c == b >> 1
  {
    EvenBit(x, b);
    EvenHalf(x, h, b, c);
  }

  lemma EvenBit(x: bv64, b: bv64)
    requires x != 0 && x & 1 == 0 && b == LowestBit(x)
    ensures IsSingleBit(b) && b != 1 && x >> 1 != 0
  {
    LowestBitIsSingle(x);
    EvenLowest(x, b);
  }

  lemma EvenHalf(x: bv64, h: bv64, b: bv64, c: bv64)
    requires x & 1 == 0 && h == x >> 1 && b == LowestBit(x) && c == LowestBit(h)
    requires IsSingleBit(b) && b != 1
    ensures IsSingleBit(c) && c == b >> 1
  {
    HalfLowest(x, h, b, c);
    HalfSingle(b, c);
  }

  lemma EvenIndex(x: bv64, h: bv64, b: bv64, c: bv64)
    requires x != 0 && h != 0 && b == LowestBit(x) && c == LowestBit(h)
    requires IsSingleBit(b) && IsSingleBit(c) && c == b >> 1
    ensures TrailingZeros(h) + 1 == TrailingZeros(x)
  {
    IndexHalf(b, c);
  }

  lemma OddLowest(x: bv64)
    ensures x & 1 == 1 ==> TrailingZeros(x) == 0
  {
  }

  lemma EvenLowest(x: bv64, b: bv64)
    requires b == LowestBit(x) && x & b == b && b != 0
    ensures x & 1 == 0 ==> b != 1 && x >> 1 != 0
  {
  }

  lemma HalfLowest(x: bv64, h: bv64, b: bv64, c: bv64)
    requires h == x >> 1 && b == LowestBit(x) && c == LowestBit(h)
    ensures x & 1 == 0 ==> c == b >> 1
  {
  }

  lemma HalfSingle(b: bv64, c: bv64)
    requires c == b >> 1
    ensures IsSingleBit(b) && b != 1 ==> IsSingleBit(c)
  {
  }

  lemma IndexHalf(b: bv64, c: bv64)
    requires IsSingleBit(b) && IsSingleBit(c) && c == b >> 1
    ensures BitIndex(c) + 1 == BitIndex(b)
  {
  }

  /**
   * Skipping the trailing zeros of the pending mask lands it on a set bit
   * and keeps the squares the pair stands for.
   */
  lemma {:induction false} SkipZeros(pm: bv64, it: bv64, t: bv8)
    requires pm != 0 && t == TrailingZeros(pm)
    ensures ShiftDown(pm, t) & 1 == 1
    ensures Pending(ShiftDown(pm, t), ShiftUp(it, t)) == Pending(pm, it)
    ensures Aligned(pm, it) ==> Aligned(ShiftDown(pm, t), ShiftUp(it, t))
    decreases t
  {
    TrailingZerosStep(pm);
    if pm & 1 == 0 {
      SkipZeros(pm >> 1, it << 1, t - 1);
      SkipStep(pm, it, t, pm >> 1, it << 1, t - 1);
    }
  }

  lemma SkipStep(pm: bv64, it: bv64, t: bv8, h: bv64, j: bv64, s: bv8)
    requires pm != 0 && pm & 1 == 0 && t != 0 && h == pm >> 1 && j == it << 1 && s == t - 1
    requires Pending(ShiftDown(h, s), ShiftUp(j, s)) == Pending(h, j)
    requires Aligned(h, j) ==> Aligned(ShiftDown(h, s), ShiftUp(j, s))
    requires ShiftDown(h, s) & 1 == 1
    ensures ShiftDown(pm, t) & 1 == 1
    ensures Pending(ShiftDown(pm, t), ShiftUp(it, t)) == Pending(pm, it)
    ensures Aligned(pm, it) ==> Aligned(ShiftDown(pm, t), ShiftUp(it, t))
  {
    SkipPending(pm, it, h, j);
    SkipAligned(pm, it, h, j);
  }

  lemma SkipPending(pm: bv64, it: bv64, h: bv64, j: bv64)
    requires pm != 0 && pm & 1 == 0 && h == pm >> 1 && j == it << 1
    ensures Pending(pm, it) == Pending(h, j)
  {
  }

  lemma SkipAligned(pm: bv64, it: bv64, h: bv64, j: bv64)
    requires pm != 0 && h == pm >> 1 && j == it << 1
    ensures Aligned(pm, it) ==> Aligned(h, j)
  {
  }

  // One turn: the lowest pending square, and what is left after it

  /** With bit 0 set, the cursor square itself is pending. */
  lemma PendingOdd(x: bv64, y: bv64)
    requires x & 1 == 1
    ensures Pending(x, y) == Add(y, Pending(x >> 1, y << 1))
  {
  }

  /** Every square the pair stands for lies at or above the cursor. */
  lemma {:induction false} BelowCursor(x: bv64, y: bv64)
    ensures SingleOrZero(y) ==> Pending(x, y) & (y - 1) == 0
    decreases x
  {
    if x != 0 {
      BelowCursor(x >> 1, y << 1);
      BelowInduct(x, y, x >> 1, y << 1);
    }
  }

  lemma BelowInduct(x: bv64, y: bv64, h: bv64, c: bv64)
    requires x != 0 && h == x >> 1 && c == y << 1
    requires SingleOrZero(c) ==> Pending(h, c) & (c - 1) == 0
    ensures SingleOrZero(y) ==> Pending(x, y) & (y - 1) == 0
  {
    DoubleSingle(y);
    if x & 1 == 0 {
      SkipPending(x, y, h, c);
    } else {
      PendingOdd(x, y);
      BelowStep(y, c, Pending(h, c));
    }
  }

  lemma BelowStep(y: bv64, c: bv64, r: bv64)
    requires c == y << 1
    ensures SingleOrZero(y) && r & (c - 1) == 0 ==> Add(y, r) & (y - 1) == 0
  {
    assert Add(y, r) == y | r;
  }

  lemma DoubleSingle(y: bv64)
    ensures SingleOrZero(y) ==> SingleOrZero(y << 1)
  {
  }

  lemma LowestOfAdd(b: bv64, c: bv64, r: bv64)
    requires IsSingleBit(b) && c == b << 1 && r & (c - 1) == 0
    ensures LowestBit(Add(b, r)) == b && Add(b, r) & !b == r
  {
    assert Add(b, r) == b | r;
    LowestOfJoin(b, c, r);
  }

  lemma LowestOfJoin(b: bv64, c: bv64, r: bv64)
    requires IsSingleBit(b) && c == b << 1 && r & (c - 1) == 0
    ensures LowestBit(b | r) == b && (b | r) & !b == r
  {
  }

  /**
   * One turn of the search loop: the square the cursor lands on is the
   * lowest pending square, and the advanced cursor pair covers exactly
   * the other pending squares.
   */
  lemma CursorStep(pm: bv64, it: bv64, t: bv8, q: bv64, b: bv64)
    requires pm != 0 && Aligned(pm, it)
    requires t == TrailingZeros(pm) && q == ShiftDown(pm, t) && b == ShiftUp(it, t)
    ensures IsSingleBit(b) && b == LowestBit(Pending(pm, it))
    ensures Aligned(q >> 1, b << 1) && Pending(q >> 1, b << 1) == Pending(pm, it) & !b
  {
    SkipZeros(pm, it, t);
    LandStep(q, b, Pending(pm, it));
  }

  lemma LandStep(q: bv64, b: bv64, rest: bv64)
    requires q & 1 == 1 && Aligned(q, b) && rest == Pending(q, b)
    ensures IsSingleBit(b) && b == LowestBit(rest)
    ensures Aligned(q >> 1, b << 1) && Pending(q >> 1, b << 1) == rest & !b
  {
    PendingOdd(q, b);
    BelowCursor(q >> 1, b << 1);
    DoubleSingle(b);
    LowestOfAdd(b, b << 1, Pending(q >> 1, b << 1));
  }

  /** Shifting down never makes a mask larger. */
  lemma {:induction false} DownShrinks(x: bv64, n: bv8)
    ensures ShiftDown(x, n) <= x
    decreases n
  {
    if n != 0 {
      DownShrinks(x >> 1, n - 1);
      HalfShrinks(x);
    }
  }

  lemma HalfShrinks(x: bv64)
    ensures x >> 1 <= x
    ensures x != 0 ==> x >> 1 < x
  {
  }

  /** The advanced pending mask is smaller than the one before. */
  lemma AdvanceShrinks(pm: bv64, t: bv8, q: bv64)
    requires q == ShiftDown(pm, t) && q & 1 == 1
    ensures q >> 1 < pm
  {
    DownShrinks(pm, t);
    HalfShrinks(q);
  }

  // The cursor pair the search starts from

  /** Shifting down by a and then by b is shifting down by a + b. */
  lemma {:induction false} DownAdd(x: bv64, a: bv8, b: bv8)
    requires a <= 64 && b <= 64 - a
    ensures ShiftDown(x, a + b) == ShiftDown(ShiftDown(x, a), b)
    decreases a
  {
    if a != 0 {
      DownAdd(x >> 1, a - 1, b);
    }
  }

  /** Shifting up by a and then by b is shifting up by a + b. */
  lemma {:induction false} UpAdd(x: bv64, a: bv8, b: bv8)
    requires a <= 64 && b <= 64 - a
    ensures ShiftUp(x, a + b) == ShiftUp(ShiftUp(x, a), b)
    decreases a
  {
    if a != 0 {
      UpAdd(x << 1, a - 1, b);
    }
  }

  lemma DownLast(x: bv64, n: bv8)
    requires n < 64
    ensures ShiftDown(x, n + 1) == ShiftDown(x, n) >> 1
  {
    DownAdd(x, n, 1);
  }

  lemma UpLast(x: bv64, n: bv8)
    requires n < 64
    ensures ShiftUp(x, n + 1) == ShiftUp(x, n) << 1
  {
    UpAdd(x, n, 1);
  }

  /** Shifting down keeps a mask inside a shifted enclosing mask. */
  lemma {:induction false} DownInside(x: bv64, y: bv64, n: bv8)
    requires x & y == x
    ensures ShiftDown(x, n) & ShiftDown(y, n) == ShiftDown(x, n)
    decreases n
  {
    if n != 0 {
      HalfInside(x, y);
      DownInside(x >> 1, y >> 1, n - 1);
    }
  }

  lemma HalfInside(x: bv64, y: bv64)
    ensures x & y == x ==> (x >> 1) & (y >> 1) == x >> 1
  {
  }

  /** The full mask empties after 64 one-place shifts, eight places at a time. */
  lemma DownOnes()
    ensures ShiftDown(ALL_ONES, 64) == 0
  {
    DownOnesByte0();
    DownOnesByte1();
    DownOnesByte2();
    DownOnesByte3();
    DownOnesByte4();
    DownOnesByte5();
    DownOnesByte6();
    DownOnesByte7();
  }

  lemma DownOnesByte0()
    ensures ShiftDown(0xFFFF_FFFF_FFFF_FFFF, 64) == ShiftDown(0x00FF_FFFF_FFFF_FFFF, 56)
  {
  }

  lemma DownOnesByte1()
    ensures ShiftDown(0x00FF_FFFF_FFFF_FFFF, 56) == ShiftDown(0x0000_FFFF_FFFF_FFFF, 48)
  {
  }

  lemma DownOnesByte2()
    ensures ShiftDown(0x0000_FFFF_FFFF_FFFF, 48) == ShiftDown(0x0000_00FF_FFFF_FFFF, 40)
  {
  }

  lemma DownOnesByte3()
    ensures ShiftDown(0x0000_00FF_FFFF_FFFF, 40) == ShiftDown(0x0000_0000_FFFF_FFFF, 32)
  {
  }

  lemma DownOnesByte4()
    ensures ShiftDown(0x0000_0000_FFFF_FFFF, 32) == ShiftDown(0x0000_0000_00FF_FFFF, 24)
  {
  }

  lemma DownOnesByte5()
    ensures ShiftDown(0x0000_0000_00FF_FFFF, 24) == ShiftDown(0x0000_0000_0000_FFFF, 16)
  {
  }

  lemma DownOnesByte6()
    ensures ShiftDown(0x0000_0000_0000_FFFF, 16) == ShiftDown(0x0000_0000_0000_00FF, 8)
  {
  }

  lemma DownOnesByte7()
    ensures ShiftDown(0x0000_0000_0000_00FF, 8) == ShiftDown(0, 0)
  {
  }

  /** Sixty-four one-place shifts clear every bit. */
  lemma DownAll(x: bv64)
    ensures ShiftDown(x, 64) == 0
  {
    DownInside(x, ALL_ONES, 64);
    DownOnes();
  }

  /** Fewer than 64 one-place shifts of 1 leave a single bit, at that index. */
  lemma {:induction false} UpOne(j: bv8)
    requires j < 64
    ensures IsSingleBit(ShiftUp(1, j)) && BitIndex(ShiftUp(1, j)) == j
    decreases j
  {
    if j != 0 {
      UpOne(j - 1);
      UpOneInduct(j, j - 1, ShiftUp(1, j - 1), ShiftUp(1, j));
    }
  }

  lemma UpOneInduct(j: bv8, k: bv8, c: bv64, d: bv64)
    requires j < 64 && j == k + 1 && c == ShiftUp(1, k) && d == ShiftUp(1, j)
    requires IsSingleBit(c) && BitIndex(c) == k
    ensures IsSingleBit(d) && BitIndex(d) == j
  {
    UpNext(1, k, j);
    UpOneStep(c, d, k);
  }

  lemma UpNext(x: bv64, k: bv8, j: bv8)
    requires k < 64 && j == k + 1
    ensures ShiftUp(x, j) == ShiftUp(x, k) << 1
  {
    UpLast(x, k);
  }

  lemma UpOneStep(c: bv64, d: bv64, k: bv8)
    requires IsSingleBit(c) && BitIndex(c) == k && k < 63 && d == c << 1
    ensures IsSingleBit(d) && BitIndex(d) == k + 1
  {
    TopFree(c, k, d);
    IndexDouble(c, d);
  }

  lemma TopFree(c: bv64, k: bv8, d: bv64)
    requires IsSingleBit(c) && BitIndex(c) == k && k < 63 && d == c << 1
    ensures IsSingleBit(d)
  {
  }

  lemma IndexDouble(c: bv64, b: bv64)
    requires IsSingleBit(c) && b == c << 1 && IsSingleBit(b)
    ensures BitIndex(c) + 1 == BitIndex(b)
  {
  }

  /** The cursor 1 shifted up j places stays aligned with any mask shifted down j places. */
  lemma {:induction false} AlignedFrom(x: bv64, j: bv8)
    requires j <= 64
    ensures Aligned(ShiftDown(x, j), ShiftUp(1, j))
    decreases 64 - j
  {
    if j == 64 {
      DownAll(x);
    } else {
      AlignedFrom(x, j + 1);
      DownLast(x, j);
      UpLast(1, j);
      UpOne(j);
      AlignedBack(ShiftDown(x, j), ShiftUp(1, j), ShiftDown(x, j + 1), ShiftUp(1, j + 1));
    }
  }

  lemma AlignedBack(q: bv64, c: bv64, h: bv64, d: bv64)
    requires h == q >> 1 && d == c << 1 && IsSingleBit(c) && Aligned(h, d)
    ensures Aligned(q, c)
  {
  }

  /** A mask moved up one place. */
  function Doubled(v: bv64): bv64
  {
    v << 1
  }

  /** Moving the cursor up one place moves every square it stands for up one place. */
  lemma {:induction false} PendingDouble(x: bv64, y: bv64, c: bv64)
    requires c == y << 1
    ensures Pending(x, c) == Doubled(Pending(x, y))
    decreases x
  {
    if x != 0 {
      PendingDouble(x >> 1, c, c << 1);
      DoubleStep(x, y, x >> 1, c, c << 1);
    }
  }

  lemma DoubleStep(x: bv64, y: bv64, h: bv64, c: bv64, d: bv64)
    requires x != 0 && h == x >> 1 && c == y << 1 && d == c << 1
    requires Pending(h, d) == Doubled(Pending(h, c))
    ensures Pending(x, c) == Doubled(Pending(x, y))
  {
    if x & 1 == 0 {
      SkipPending(x, y, h, c);
      SkipPending(x, c, h, d);
    } else {
      DoubleOdd(x, y, h, c, d);
    }
  }

  lemma DoubleOdd(x: bv64, y: bv64, h: bv64, c: bv64, d: bv64)
    requires x & 1 == 1 && h == x >> 1 && c == y << 1 && d == c << 1
    requires Pending(h, d) == Doubled(Pending(h, c))
    ensures Pending(x, c) == Doubled(Pending(x, y))
  {
    OddPair(x, y, h, c, d);
    AddShift(y, Pending(h, c), c, Pending(h, d), Pending(x, y), Pending(x, c));
  }

  lemma OddPair(x: bv64, y: bv64, h: bv64, c: bv64, d: bv64)
    requires x & 1 == 1 && h == x >> 1 && c == y << 1 && d == c << 1
    ensures Pending(x, y) == Add(y, Pending(h, c))
    ensures Pending(x, c) == Add(c, Pending(h, d))
  {
  }

  lemma AddShift(y: bv64, r: bv64, c: bv64, s: bv64, p: bv64, q: bv64)
    requires c == y << 1 && s == Doubled(r) && p == Add(y, r) && q == Add(c, s)
    ensures q == Doubled(p)
  {
    AddIs(y, r);
    AddIs(c, s);
    DoubledIs(r);
    DoubledIs(p);
    OrShifted(y, r, c, s, p, q);
  }

  lemma OrShifted(y: bv64, r: bv64, c: bv64, s: bv64, p: bv64, q: bv64)
    requires c == y << 1 && s == r << 1 && p == y | r && q == c | s
    ensures q == p << 1
  {
  }

  lemma AddIs(a: bv64, b: bv64)
    ensures Add(a, b) == a | b
  {
  }

  lemma DoubledIs(v: bv64)
    ensures Doubled(v) == v << 1
  {
  }

  /** From the cursor 1, the pair stands for the pending mask itself. */
  lemma {:induction false} PendingOne(x: bv64)
    ensures Pending(x, 1) == x
    decreases x
  {
    if x != 0 {
      PendingOne(x >> 1);
      PendingDouble(x >> 1, 1, 2);
      OneStep(x, x >> 1);
    }
  }

  lemma OneStep(x: bv64, h: bv64)
    requires x != 0 && h == x >> 1 && Pending(h, 2) == Doubled(h)
    ensures Pending(x, 1) == x
  {
    if x & 1 == 0 {
      SkipPending(x, 1, h, 2);
      EvenRebuild(x, h, Pending(h, 2));
    } else {
      OddPair(x, 1, h, 2, 4);
      OddRebuild(x, h, Pending(h, 2));
    }
  }

  lemma EvenRebuild(x: bv64, h: bv64, r: bv64)
    requires h == x >> 1 && r == Doubled(h)
    ensures x & 1 == 0 ==> r == x
  {
    DoubledIs(h);
    EvenJoin(x, h, r);
  }

  lemma EvenJoin(x: bv64, h: bv64, r: bv64)
    requires h == x >> 1 && r == h << 1
    ensures x & 1 == 0 ==> r == x
  {
  }

  lemma OddRebuild(x: bv64, h: bv64, r: bv64)
    requires h == x >> 1 && r == Doubled(h)
    ensures x & 1 == 1 ==> Add(1, r) == x
  {
    AddIs(1, r);
    DoubledIs(h);
    OddJoin(x, h, r);
  }

  lemma OddJoin(x: bv64, h: bv64, r: bv64)
    requires h == x >> 1 && r == h << 1
    ensures x & 1 == 1 ==> 1 | r == x
  {
  }

  /** The cursor pair the search starts from covers exactly the given moves. */
  lemma CursorStart(moves: bv64)
    ensures Aligned(moves, 1) && Pending(moves, 1) == moves
  {
    AlignedFrom(moves, 0);
    PendingOne(moves);
  }

  // The one-place shifts and the engine's shifts by a count

  /** Shifting down one place at a time is the unsigned right shift (>>>) by the count. */
  lemma {:induction false} ShiftDownIs(x: bv64, n: bv8)
    requires n <= 64
    ensures ShiftDown(x, n) == x >> n
    decreases n
  {
    if n != 0 {
      var h, m := x >> 1, n - 1;
      ShiftDownIs(h, m);
      DownStep(x, n, h, m, h >> m, x >> n);
    }
  }

  /** Shifting up one place at a time is the left shift (<<) by the count. */
  lemma {:induction false} ShiftUpIs(x: bv64, n: bv8)
    requires n <= 64
    ensures ShiftUp(x, n) == x << n
    decreases n
  {
    if n != 0 {
      var h, m := x << 1, n - 1;
      ShiftUpIs(h, m);
      UpStep(x, n, h, m, h << m, x << n);
    }
  }

  /** One place and then m places down is m + 1 places down, by ranges of m. */
  lemma DownStep(x: bv64, n: bv8, h: bv64, m: bv8, a: bv64, b: bv64)
    requires 1 <= n <= 64 && m == n - 1 && h == x >> 1 && a == h >> m && b == x >> n
    ensures a == b
  {
    if m < 8 {
      DownStepBelow8(x, n, h, m, a, b);
    } else if m < 16 {
      DownStepBelow16(x, n, h, m, a, b);
    } else if m < 32 {
      DownStepBelow32(x, n, h, m, a, b);
    } else {
      DownStepBelow64(x, n, h, m, a, b);
    }
  }

  lemma DownStepBelow8(x: bv64, n: bv8, h: bv64, m: bv8, a: bv64, b: bv64)
    requires m < 8 && n == m + 1 && h == x >> 1 && a == h >> m && b == x >> n
    ensures a == b
  {
  }

  lemma DownStepBelow16(x: bv64, n: bv8, h: bv64, m: bv8, a: bv64, b: bv64)
    requires 8 <= m < 16 && n == m + 1 && h == x >> 1 && a == h >> m && b == x >> n
    ensures a == b
  {
  }

  lemma DownStepBelow32(x: bv64, n: bv8, h: bv64, m: bv8, a: bv64, b: bv64)
    requires 16 <= m < 32 && n == m + 1 && h == x >> 1 && a == h >> m && b == x >> n
    ensures a == b
  {
  }

  lemma DownStepBelow64(x: bv64, n: bv8, h: bv64, m: bv8, a: bv64, b: bv64)
    requires 32 <= m < 64 && n == m + 1 && h == x >> 1 && a == h >> m && b == x >> n
    ensures a == b
  {
  }

  /** One place and then m places up is m + 1 places up, by ranges of m. */
  lemma UpStep(x: bv64, n: bv8, h: bv64, m: bv8, a: bv64, b: bv64)
    requires 1 <= n <= 64 && m == n - 1 && h == x << 1 && a == h << m && b == x << n
    ensures a == b
  {
    if m < 8 {
      UpStepBelow8(x, n, h, m, a, b);
    } else if m < 16 {
      UpStepBelow16(x, n, h, m, a, b);
    } else if m < 32 {
      UpStepBelow32(x, n, h, m, a, b);
    } else {
      UpStepBelow64(x, n, h, m, a, b);
    }
  }

  lemma UpStepBelow8(x: bv64, n: bv8, h: bv64, m: bv8, a: bv64, b: bv64)
    requires m < 8 && n == m + 1 && h == x << 1 && a == h << m && b == x << n
    ensures a == b
  {
  }

  lemma UpStepBelow16(x: bv64, n: bv8, h: bv64, m: bv8, a: bv64, b: bv64)
    requires 8 <= m < 16 && n == m + 1 && h == x << 1 && a == h << m && b == x << n
    ensures a == b
  {
  }

  lemma UpStepBelow32(x: bv64, n: bv8, h: bv64, m: bv8, a: bv64, b: bv64)
    requires 16 <= m < 32 && n == m + 1 && h == x << 1 && a == h << m && b == x << n
    ensures a == b
  {
  }

  lemma UpStepBelow64(x: bv64, n: bv8, h: bv64, m: bv8, a: bv64, b: bv64)
    requires 32 <= m < 64 && n == m + 1 && h == x << 1 && a == h << m && b == x << n
    ensures a == b
  {
  }

  /**
   * One turn of the search loops, with the engine's shifts: moving the
   * cursor up by the trailing zeros of the pending mask lands it on the
   * lowest pending square, and the pair advanced past it covers exactly
   * the other pending squares.
   */
  lemma CursorTurn(pm: bv64, it: bv64, t: bv8, square: bv64, down: bv64, nextPm: bv64, nextIt: bv64)
    requires pm != 0 && Aligned(pm, it)
    requires t == TrailingZeros(pm) && square == it << t && down == pm >> t
    requires nextPm == down >> 1 && nextIt == square << 1
    ensures IsSingleBit(square) && square == LowestBit(Pending(pm, it))
    ensures Aligned(nextPm, nextIt) && Pending(nextPm, nextIt) == Pending(pm, it) & !square
  {
    ShiftDownIs(pm, t);
    ShiftUpIs(it, t);
    CursorLand(pm, it, t, down, square, nextPm, nextIt);
  }

  /** CursorTurn, with the one-place shifts. */
  lemma CursorLand(pm: bv64, it: bv64, t: bv8, q: bv64, b: bv64, nextPm: bv64, nextIt: bv64)
    requires pm != 0 && Aligned(pm, it)
    requires t == TrailingZeros(pm) && q == ShiftDown(pm, t) && b == ShiftUp(it, t)
    requires nextPm == q >> 1 && nextIt == b << 1
    ensures IsSingleBit(b) && b == LowestBit(Pending(pm, it))
    ensures Aligned(nextPm, nextIt) && Pending(nextPm, nextIt) == Pending(pm, it) & !b
  {
    CursorStep(pm, it, t, q, b);
  }

  /** A pair with nothing pending stands for no square. */
  lemma PendingNone(it: bv64)
    ensures Pending(0, it) == 0
  {
  }
}

/**
 * The heuristics the search engine scores leaf positions with, one per
 * difficulty. Only the BEGINNER heuristic counts anything: every disc is
 * worth one point, a disc on the border ring one more, and a disc in a
 * corner two more again.
 */
module Evaluation {
  import opened Bits
  import opened Types
  import opened Players
  import opened BitBoards

  /** The border ring of the board (the Java literal -35604928818740737). */
  const SIDES_MASK: bv64 := 0xFF81_8181_8181_81FF

  /** The inner 6x6 block, the complement of the border ring. */
  const INNER_MASK: bv64 := 0x007E_7E7E_7E7E_7E00

  /** The four corners, bits 0, 7, 56 and 63 (the Java literal -9151314442816847743). */
  const EDGES_MASK: bv64 := 0x8100_0000_0000_0081

  /** The BEGINNER score of a player whose discs are the set bits of player. */
  function BeginnerScore(player: bv64): nat
  {
    BitCount(player) + BitCount(player & SIDES_MASK) + 2 * BitCount((player & SIDES_MASK) & EDGES_MASK)
  }

  /**
   * The heuristic of the given difficulty for player p. PVP has no
   * heuristic at all: the lookup in the source yields no evaluator.
   */
  function Evaluate(mode: Difficulty, pieces: Pieces, p: Player): (score: int)
    requires mode != PVP
    ensures 0 <= score <= 100
    ensures mode != Beginner ==> score == 0
    ensures mode == Beginner ==> BitCount(Colour(pieces, p)) <= score <= 4 * BitCount(Colour(pieces, p))
    ensures mode == Beginner ==> (score == 0 <==> Colour(pieces, p) == 0)
  {
    match mode
    case Beginner =>
      BeginnerBounds(Colour(pieces, p));
      BeginnerAtMost100(Colour(pieces, p));
      BeginnerScore(Colour(pieces, p))
    case Intermediate => 0
    case Hardcore => 0
  }

  // Facts about the two masks.

  /** The border ring and the inner block split the board. */
  lemma RingAndInner()
    ensures SIDES_MASK == !INNER_MASK
    ensures SIDES_MASK & INNER_MASK == 0
  {
  }

  /**
   * Every corner lies on the border ring, so masking the ring and then
   * the corners keeps exactly the corners.
   */
  lemma CornersThroughRing(player: bv64)
    ensures EDGES_MASK & SIDES_MASK == EDGES_MASK
    ensures (player & SIDES_MASK) & EDGES_MASK == player & EDGES_MASK
  {
  }

  /** The border ring holds 28 squares. */
  lemma RingSize()
    ensures BitCount(SIDES_MASK) == 28
  {
    RingLowerHalf();
    assert PopBelow(SIDES_MASK, 40) == 16;
    assert PopBelow(SIDES_MASK, 48) == 18;
    assert PopBelow(SIDES_MASK, 56) == 20;
  }

  lemma RingLowerHalf()
    ensures PopBelow(SIDES_MASK, 32) == 14
  {
    assert PopBelow(SIDES_MASK, 8) == 8;
    assert PopBelow(SIDES_MASK, 16) == 10;
    assert PopBelow(SIDES_MASK, 24) == 12;
  }

  /** There are four corners. */
  lemma CornerCount()
    ensures BitCount(EDGES_MASK) == 4
  {
    CornersLowerHalf();
    assert PopBelow(EDGES_MASK, 40) == 2;
    assert PopBelow(EDGES_MASK, 48) == 2;
    assert PopBelow(EDGES_MASK, 56) == 2;
  }

  lemma CornersLowerHalf()
    ensures PopBelow(EDGES_MASK, 32) == 2
  {
    assert PopBelow(EDGES_MASK, 8) == 2;
    assert PopBelow(EDGES_MASK, 16) == 2;
    assert PopBelow(EDGES_MASK, 24) == 2;
  }

  // Properties of the BEGINNER score.

  /** The score never exceeds 64 + 28 + 2 * 4 = 100. */
  lemma BeginnerAtMost100(player: bv64)
    ensures BeginnerScore(player) <= 100
  {
    RingSize();
    CornerCount();
    MaskBounds(player);
  }

  lemma MaskBounds(player: bv64)
    ensures BitCount(player & SIDES_MASK) <= BitCount(SIDES_MASK)
    ensures BitCount((player & SIDES_MASK) & EDGES_MASK) <= BitCount(EDGES_MASK)
  {
    CountInside(player & SIDES_MASK, SIDES_MASK);
    CountInside((player & SIDES_MASK) & EDGES_MASK, EDGES_MASK);
  }

  /** Each disc is worth between 1 and 4 points, so only an empty mask scores 0. */
  lemma BeginnerBounds(player: bv64)
    ensures BitCount(player) <= BeginnerScore(player) <= 4 * BitCount(player)
    ensures BeginnerScore(player) == 0 <==> player == 0
  {
    BoundCounts(player);
    BitCountZero(player);
  }

  lemma BoundCounts(player: bv64)
    ensures BitCount(player & SIDES_MASK) <= BitCount(player)
    ensures BitCount((player & SIDES_MASK) & EDGES_MASK) <= BitCount(player)
  {
    CountInside(player & SIDES_MASK, player);
    CountInside((player & SIDES_MASK) & EDGES_MASK, player);
  }

  /** More discs never score less. */
  lemma BeginnerMonotone(a: bv64, b: bv64)
    requires a & b == a
    ensures BeginnerScore(a) <= BeginnerScore(b)
  {
    MonotoneCounts(a, b);
  }

  lemma MonotoneCounts(a: bv64, b: bv64)
    requires a & b == a
    ensures BitCount(a) <= BitCount(b)
    ensures BitCount(a & SIDES_MASK) <= BitCount(b & SIDES_MASK)
    ensures BitCount((a & SIDES_MASK) & EDGES_MASK) <= BitCount((b & SIDES_MASK) & EDGES_MASK)
  {
    CountInside(a, b);
    RingMonotone(a, b);
  }

  lemma RingMonotone(a: bv64, b: bv64)
    requires a & b == a
    ensures BitCount(a & SIDES_MASK) <= BitCount(b & SIDES_MASK)
    ensures BitCount((a & SIDES_MASK) & EDGES_MASK) <= BitCount((b & SIDES_MASK) & EDGES_MASK)
  {
    CountInside(a & SIDES_MASK, b & SIDES_MASK);
    CountInside((a & SIDES_MASK) & EDGES_MASK, (b & SIDES_MASK) & EDGES_MASK);
  }

  /** The score of two disjoint sets of discs is the sum of their scores. */
  lemma BeginnerAdditive(a: bv64, b: bv64)
    requires a & b == 0
    ensures BeginnerScore(a | b) == BeginnerScore(a) + BeginnerScore(b)
  {
    AdditiveCounts(a, b);
  }

  lemma AdditiveCounts(a: bv64, b: bv64)
    requires a & b == 0
    ensures BitCount(a | b) + BitCount((a | b) & SIDES_MASK) + 2 * BitCount(((a | b) & SIDES_MASK) & EDGES_MASK)
      == BitCount(a) + BitCount(a & SIDES_MASK) + 2 * BitCount((a & SIDES_MASK) & EDGES_MASK)
       + BitCount(b) + BitCount(b & SIDES_MASK) + 2 * BitCount((b & SIDES_MASK) & EDGES_MASK)
  {
    CountApart(a, b, a | b);
    RingAdditive(a, b);
  }

  lemma RingAdditive(a: bv64, b: bv64)
    requires a & b == 0
    ensures BitCount((a | b) & SIDES_MASK) + 2 * BitCount(((a | b) & SIDES_MASK) & EDGES_MASK)
      == BitCount(a & SIDES_MASK) + 2 * BitCount((a & SIDES_MASK) & EDGES_MASK)
       + BitCount(b & SIDES_MASK) + 2 * BitCount((b & SIDES_MASK) & EDGES_MASK)
  {
    CountApart(a & SIDES_MASK, b & SIDES_MASK, (a | b) & SIDES_MASK);
    CornersAdditive(a, b);
  }

  lemma CornersAdditive(a: bv64, b: bv64)
    requires a & b == 0
    ensures BitCount(((a | b) & SIDES_MASK) & EDGES_MASK)
      == BitCount((a & SIDES_MASK) & EDGES_MASK) + BitCount((b & SIDES_MASK) & EDGES_MASK)
  {
    CountApart((a & SIDES_MASK) & EDGES_MASK, (b & SIDES_MASK) & EDGES_MASK, ((a | b) & SIDES_MASK) & EDGES_MASK);
  }

  /** One disc is worth 4 in a corner, 2 elsewhere on the border ring and 1 inside. */
  lemma BeginnerSquare(q: bv64)
    requires IsSingleBit(q)
    ensures BeginnerScore(q) == if q & EDGES_MASK != 0 then 4 else if q & SIDES_MASK != 0 then 2 else 1
  {
    BitCountSingle(q);
    SingleAnd(q, SIDES_MASK);
    SquareWeights(q, q & SIDES_MASK, (q & SIDES_MASK) & EDGES_MASK);
  }

  lemma SquareWeights(q: bv64, sides: bv64, corners: bv64)
    requires IsSingleBit(q) && BitCount(q) == 1
    requires sides == q & SIDES_MASK && corners == sides & EDGES_MASK
    requires sides == 0 || sides == q
    ensures BitCount(q) + BitCount(sides) + 2 * BitCount(corners)
      == if q & EDGES_MASK != 0 then 4 else if q & SIDES_MASK != 0 then 2 else 1
  {
    BitCountZero(0);
    SingleAnd(q, EDGES_MASK);
  }

  /** The score of player p does not depend on the opponent's discs. */
  lemma EvaluateIgnoresOpponent(mode: Difficulty, a: Pieces, b: Pieces, p: Player)
    requires mode != PVP
    requires Colour(a, p) == Colour(b, p)
    ensures Evaluate(mode, a, p) == Evaluate(mode, b, p)
  {
  }

  lemma CountInside(x: bv64, y: bv64)
    requires x & y == x
    ensures BitCount(x) <= BitCount(y)
  {
    BitCountMonotone(x, y);
  }

  lemma CountApart(x: bv64, y: bv64, both: bv64)
    requires x & y == 0 && both == x | y
    ensures BitCount(both) == BitCount(x) + BitCount(y)
  {
    BitCountUnion(x, y);
  }
}

/**
 * Walks across the board along one shift function: the scan that finds
 * the moves closing runs of opponent discs, and the run of opponent discs
 * followed from a played square. Every result here holds for any shift
 * function with the two properties below; the eight board shifts have
 * them (see Rules).
 */
module Walks {
  import opened Bits

  /** A one-square shift of a whole bitboard, as the engine passes it around. */
  type BitShift = bv64 -> bv64

  /** The masks a and b share a square. */
  predicate Meets(a: bv64, b: bv64)
  {
    a & b != 0
  }

  /** q is non-empty and lies inside `mask`. */
  predicate Within(q: bv64, mask: bv64)
  {
    q != 0 && q & mask == q
  }

  /** q is empty or a single square. */
  predicate AtMostOne(q: bv64)
  {
    q == 0 || IsSingleBit(q)
  }

  /**
   * `back` undoes `shift`: the reverse image of q meets m exactly when q
   * meets the image of m.
   */
  ghost predicate Adjoint(shift: BitShift, back: BitShift)
  {
    forall q: bv64, m: bv64 {:trigger Meets(back(q), m)} :: Meets(back(q), m) == Meets(q, shift(m))
  }

  /** A single square is shifted to a single square or off the board. */
  ghost predicate KeepsAtMostOne(shift: BitShift)
  {
    forall q: bv64 {:trigger AtMostOne(shift(q))} :: AtMostOne(q) ==> AtMostOne(shift(q))
  }

  // ---------------------------------------------------------------------
  // The two walks

  /**
   * The move scan: each run of opponent discs in `potential` is extended
   * one square along `shift`; an empty square reached is a move, an
   * opponent disc reached extends the run. `fuel` bounds the scan; eight
   * steps always leave the board.
   */
  function RunMoves(shift: BitShift, potential: bv64, opponent: bv64, empty: bv64, fuel: nat): bv64
    decreases fuel
  {
    if fuel == 0 || potential == 0 then 0
    else (shift(potential) & empty) | RunMoves(shift, shift(potential) & opponent, opponent, empty, fuel - 1)
  }

  /**
   * The moves of `player` into `empty` that close a run of opponent discs
   * lying along `shift`.
   */
  function MovesAlong(shift: BitShift, player: bv64, opponent: bv64, empty: bv64): bv64
  {
    RunMoves(shift, shift(player) & opponent, opponent, empty, 8)
  }

  /** The run of opponent discs starting at `cursor` and continuing along `shift`. */
  function Span(shift: BitShift, cursor: bv64, opponent: bv64, fuel: nat): bv64
    decreases fuel
  {
    if fuel > 0 && Within(cursor, opponent)
    then cursor | Span(shift, shift(cursor), opponent, fuel - 1)
    else 0
  }

  /** The first square after that run (0 when the run leaves the board). */
  function RunEnd(shift: BitShift, cursor: bv64, opponent: bv64, fuel: nat): bv64
    decreases fuel
  {
    if fuel > 0 && Within(cursor, opponent)
    then RunEnd(shift, shift(cursor), opponent, fuel - 1)
    else cursor
  }

  /**
   * The discs a move at `position` flips along `shift`: the run of opponent
   * discs next to it, kept only when the square after the run holds one of
   * the mover's discs.
   */
  function BridgeAlong(shift: BitShift, position: bv64, player: bv64, opponent: bv64): bv64
  {
    var start := shift(position);
    if Within(RunEnd(shift, start, opponent, 8), player) then Span(shift, start, opponent, 8) else 0
  }

  /**
   * Walking from q along `step` over opponent discs, a square of `target`
   * is met within n squares.
   */
  predicate Reaches(step: BitShift, q: bv64, target: bv64, opponent: bv64, n: nat)
    decreases n
  {
    n > 0 && (Meets(q, target) || (Meets(q, opponent) && Reaches(step, step(q), target, opponent, n - 1)))
  }

  // ---------------------------------------------------------------------
  // Facts about single squares

  /** A mask with at most one square meets an intersection iff it meets both sides. */
  lemma SingleMeet(q: bv64, a: bv64, b: bv64)
    requires AtMostOne(q)
    ensures Meets(q, a & b) == (Meets(q, a) && Meets(q, b))
  {
    if q != 0 {
      SingleAnd(q, a);
      SingleMeetCase(q, a, b);
    }
  }

  lemma SingleMeetCase(q: bv64, a: bv64, b: bv64)
    requires q != 0
    requires q & a == 0 || q & a == q
    ensures Meets(q, a & b) == (Meets(q, a) && Meets(q, b))
  {
    if q & a == 0 {
      AndAnnul(q, a, b);
    } else {
      AndAbsorb(q, a, b);
    }
  }

  /** A mask with at most one square meets another iff it lies within it. */
  lemma SingleWithin(q: bv64, a: bv64)
    requires AtMostOne(q)
    ensures Meets(q, a) == Within(q, a)
  {
    if q != 0 {
      SingleAnd(q, a);
    }
  }

  /** A mask meets a union iff it meets one of its parts. */
  lemma MeetUnion(q: bv64, a: bv64, b: bv64)
    ensures Meets(q, a | b) == (Meets(q, a) || Meets(q, b))
  {
    AndOverOr(q, a, b);
    OrNonZero(q & a, q & b);
  }

  /** A part of the opponent's discs holds none of the player's. */
  lemma WithinDisjoint(s: bv64, player: bv64, opponent: bv64)
    requires player & opponent == 0
    ensures Within(s, opponent) ==> !Meets(s, player)
  {
  }

  // ---------------------------------------------------------------------
  // The scan and the walk back agree

  lemma {:induction false} ReachesNothing(step: BitShift, q: bv64, opponent: bv64, n: nat)
    ensures !Reaches(step, q, 0, opponent, n)
    decreases n
  {
    if n > 0 {
      ReachesNothing(step, step(q), opponent, n - 1);
    }
  }

  /**
   * Walking back from q, meeting `target` within n squares is meeting it
   * at once, or meeting within n-1 squares the opponent discs one step
   * past `target`.
   */
  lemma {:induction false} ReachesStep(shift: BitShift, back: BitShift, q: bv64, target: bv64, opponent: bv64, n: nat)
    requires Adjoint(shift, back) && KeepsAtMostOne(back)
    requires AtMostOne(q)
    requires n >= 1
    ensures Reaches(back, q, target, opponent, n)
      == (Meets(q, target) || Reaches(back, q, shift(target) & opponent, opponent, n - 1))
    decreases n
  {
    if n > 1 {
      assert AtMostOne(back(q));
      ReachesStep(shift, back, back(q), target, opponent, n - 1);
      ReachesStepFacts(shift, back, q, target, opponent);
      ReachesStepInduct(shift, back, q, target, opponent, n);
    } else {
      ReachesStepBase(shift, back, q, target, opponent, n);
    }
  }

  lemma ReachesStepBase(shift: BitShift, back: BitShift, q: bv64, target: bv64, opponent: bv64, n: nat)
    requires n == 1
    ensures Reaches(back, q, target, opponent, n)
      == (Meets(q, target) || Reaches(back, q, shift(target) & opponent, opponent, n - 1))
  {
  }

  /** The inductive step of ReachesStep, given the claim one square further back. */
  lemma ReachesStepInduct(shift: BitShift, back: BitShift, q: bv64, target: bv64, opponent: bv64, n: nat)
    requires n > 1
    requires Reaches(back, back(q), target, opponent, n - 1)
      == (Meets(back(q), target) || Reaches(back, back(q), shift(target) & opponent, opponent, n - 1 - 1))
    requires Meets(back(q), target) == Meets(q, shift(target))
    requires Meets(q, shift(target) & opponent) == (Meets(q, shift(target)) && Meets(q, opponent))
    ensures Reaches(back, q, target, opponent, n)
      == (Meets(q, target) || Reaches(back, q, shift(target) & opponent, opponent, n - 1))
  {
    ReachesUnfold(back, q, target, opponent, n);
    ReachesUnfold(back, q, shift(target) & opponent, opponent, n - 1);
    ReachesStepCase(shift, back, q, target, opponent, n);
  }

  /** The two square-level facts the inductive step rests on. */
  lemma ReachesStepFacts(shift: BitShift, back: BitShift, q: bv64, target: bv64, opponent: bv64)
    requires Adjoint(shift, back)
    requires AtMostOne(q)
    ensures Meets(back(q), target) == Meets(q, shift(target))
    ensures Meets(q, shift(target) & opponent) == (Meets(q, shift(target)) && Meets(q, opponent))
  {
    SingleMeet(q, shift(target), opponent);
    assert Meets(back(q), target) == Meets(q, shift(target));
  }

  /** The walk unfolded once. */
  lemma ReachesUnfold(step: BitShift, q: bv64, target: bv64, opponent: bv64, n: nat)
    requires n > 0
    ensures Reaches(step, q, target, opponent, n)
      == (Meets(q, target) || (Meets(q, opponent) && Reaches(step, step(q), target, opponent, n - 1)))
  {
  }

  /** The propositional core of the inductive step. */
  lemma ReachesStepCase(shift: BitShift, back: BitShift, q: bv64, target: bv64, opponent: bv64, n: nat)
    requires n > 1
    ensures (Reaches(back, q, target, opponent, n)
             == (Meets(q, target) || (Meets(q, opponent) && Reaches(back, back(q), target, opponent, n - 1))))
      && (Reaches(back, back(q), target, opponent, n - 1)
          == (Meets(back(q), target) || Reaches(back, back(q), shift(target) & opponent, opponent, n - 1 - 1)))
      && (Reaches(back, q, shift(target) & opponent, opponent, n - 1)
          == (Meets(q, shift(target) & opponent)
              || (Meets(q, opponent) && Reaches(back, back(q), shift(target) & opponent, opponent, n - 1 - 1))))
      && (Meets(q, shift(target) & opponent) == (Meets(q, shift(target)) && Meets(q, opponent)))
      && (Meets(back(q), target) == Meets(q, shift(target)))
      ==> Reaches(back, q, target, opponent, n)
          == (Meets(q, target) || Reaches(back, q, shift(target) & opponent, opponent, n - 1))
  {
  }

  /**
   * A square p is among the moves the scan of `potential` finds iff p is
   * empty and walking back from its neighbour over opponent discs meets
   * `potential`.
   */
  lemma {:induction false} RunMovesReach(shift: BitShift, back: BitShift, p: bv64, potential: bv64,
                                         opponent: bv64, empty: bv64, n: nat)
    requires Adjoint(shift, back) && KeepsAtMostOne(back)
    requires AtMostOne(p)
    ensures Meets(p, RunMoves(shift, potential, opponent, empty, n))
      == (Meets(p, empty) && Reaches(back, back(p), potential, opponent, n))
    decreases n
  {
    if n == 0 || potential == 0 {
      RunMovesIdle(shift, back, p, potential, opponent, empty, n);
    } else {
      RunMovesReach(shift, back, p, shift(potential) & opponent, opponent, empty, n - 1);
      assert AtMostOne(back(p));
      ReachesStep(shift, back, back(p), potential, opponent, n);
      ReachesStepFacts(shift, back, p, potential, empty);
      RunMovesUnfold(shift, p, potential, opponent, empty, n);
      RunMovesInduct(shift, back, p, potential, opponent, empty, n);
    }
  }

  /** A scan with no fuel or nothing left to extend finds nothing. */
  lemma RunMovesIdle(shift: BitShift, back: BitShift, p: bv64, potential: bv64, opponent: bv64, empty: bv64, n: nat)
    requires n == 0 || potential == 0
    ensures Meets(p, RunMoves(shift, potential, opponent, empty, n))
      == (Meets(p, empty) && Reaches(back, back(p), potential, opponent, n))
  {
    if n > 0 {
      ReachesNothing(back, back(p), opponent, n);
    }
  }

  /** The scan unfolded once, seen from the square p. */
  lemma RunMovesUnfold(shift: BitShift, p: bv64, potential: bv64, opponent: bv64, empty: bv64, n: nat)
    requires n > 0 && potential != 0
    ensures Meets(p, RunMoves(shift, potential, opponent, empty, n))
      == (Meets(p, shift(potential) & empty)
          || Meets(p, RunMoves(shift, shift(potential) & opponent, opponent, empty, n - 1)))
  {
    MeetUnion(p, shift(potential) & empty, RunMoves(shift, shift(potential) & opponent, opponent, empty, n - 1));
  }

  /** The inductive step of RunMovesReach, from the facts it rests on. */
  lemma RunMovesInduct(shift: BitShift, back: BitShift, p: bv64, potential: bv64, opponent: bv64, empty: bv64, n: nat)
    requires n > 0
    ensures (Meets(p, RunMoves(shift, potential, opponent, empty, n))
             == (Meets(p, shift(potential) & empty)
                 || Meets(p, RunMoves(shift, shift(potential) & opponent, opponent, empty, n - 1))))
      && (Meets(p, RunMoves(shift, shift(potential) & opponent, opponent, empty, n - 1))
          == (Meets(p, empty) && Reaches(back, back(p), shift(potential) & opponent, opponent, n - 1)))
      && (Reaches(back, back(p), potential, opponent, n)
          == (Meets(back(p), potential) || Reaches(back, back(p), shift(potential) & opponent, opponent, n - 1)))
      && (Meets(back(p), potential) == Meets(p, shift(potential)))
      && (Meets(p, shift(potential) & empty) == (Meets(p, shift(potential)) && Meets(p, empty)))
      ==> Meets(p, RunMoves(shift, potential, opponent, empty, n))
          == (Meets(p, empty) && Reaches(back, back(p), potential, opponent, n))
  {
  }

  /**
   * From a single square s, the run of opponent discs walked for n-1
   * squares ends on one of the player's discs iff walking n squares from s
   * meets them.
   */
  lemma {:induction false} RunEndReaches(step: BitShift, s: bv64, player: bv64, opponent: bv64, n: nat)
    requires KeepsAtMostOne(step)
    requires AtMostOne(s)
    requires player & opponent == 0
    requires n >= 1
    ensures Within(RunEnd(step, s, opponent, n - 1), player) == Reaches(step, s, player, opponent, n)
    decreases n
  {
    SingleWithin(s, player);
    SingleWithin(s, opponent);
    if n > 1 && Within(s, opponent) {
      assert AtMostOne(step(s));
      RunEndReaches(step, step(s), player, opponent, n - 1);
      WithinDisjoint(s, player, opponent);
    }
  }

  /** A run is non-empty iff it starts on an opponent disc. */
  lemma SpanStart(step: BitShift, s: bv64, opponent: bv64)
    ensures (Span(step, s, opponent, 8) != 0) == Within(s, opponent)
  {
  }

  /**
   * The bridge from p along `step` is non-empty iff p's neighbour is an
   * opponent disc from which the walk meets one of the player's discs.
   */
  lemma BridgeNonEmpty(step: BitShift, p: bv64, player: bv64, opponent: bv64)
    requires KeepsAtMostOne(step)
    requires AtMostOne(p)
    requires player & opponent == 0
    ensures (BridgeAlong(step, p, player, opponent) != 0)
      == (Reaches(step, step(p), player, opponent, 9) && Within(step(p), opponent))
  {
    assert AtMostOne(step(p));
    BridgeFacts(step, step(p), player, opponent);
    BridgeCase(step, p, player, opponent);
  }

  /** The two facts about the run from s that decide whether a bridge exists. */
  lemma BridgeFacts(step: BitShift, s: bv64, player: bv64, opponent: bv64)
    requires KeepsAtMostOne(step)
    requires AtMostOne(s)
    requires player & opponent == 0
    ensures Within(RunEnd(step, s, opponent, 8), player) == Reaches(step, s, player, opponent, 9)
    ensures (Span(step, s, opponent, 8) != 0) == Within(s, opponent)
  {
    RunEndReaches(step, s, player, opponent, 9);
    SpanStart(step, s, opponent);
  }

  lemma BridgeCase(step: BitShift, p: bv64, player: bv64, opponent: bv64)
    requires Within(RunEnd(step, step(p), opponent, 8), player) == Reaches(step, step(p), player, opponent, 9)
    requires (Span(step, step(p), opponent, 8) != 0) == Within(step(p), opponent)
    ensures (BridgeAlong(step, p, player, opponent) != 0)
      == (Reaches(step, step(p), player, opponent, 9) && Within(step(p), opponent))
  {
  }

  /**
   * Walking back from s to the opponent discs just before the player's
   * discs is walking back from an opponent disc to the player's discs.
   */
  lemma ReachesThroughOpponent(shift: BitShift, back: BitShift, s: bv64, player: bv64, opponent: bv64)
    requires Adjoint(shift, back) && KeepsAtMostOne(back)
    requires AtMostOne(s)
    requires player & opponent == 0
    ensures Reaches(back, s, shift(player) & opponent, opponent, 8)
      == (Reaches(back, s, player, opponent, 9) && Within(s, opponent))
  {
    ReachesStep(shift, back, s, player, opponent, 9);
    SingleMeet(s, shift(player), opponent);
    SingleWithin(s, opponent);
    WithinDisjoint(s, player, opponent);
  }

  /** A single square is empty iff it lies in the complement of both colours. */
  lemma SingleEmpty(p: bv64, player: bv64, opponent: bv64)
    requires IsSingleBit(p)
    ensures Meets(p, !player & !opponent) == (p & (player | opponent) == 0)
  {
    SingleAnd(p, player);
    SingleAnd(p, opponent);
    SingleEmptyCase(p, player, opponent);
  }

  lemma SingleEmptyCase(p: bv64, player: bv64, opponent: bv64)
    requires p != 0
    requires p & player == 0 || p & player == p
    requires p & opponent == 0 || p & opponent == p
    ensures Meets(p, !player & !opponent) == (p & (player | opponent) == 0)
  {
    AndOverOr(p, player, opponent);
    OrZero(p & player, p & opponent);
    Complement(p, player);
    Complement(p, opponent);
    AndAnnul(p, !player, !opponent);
    AndAbsorb(p, !player, !opponent);
  }

  /**
   * The scan along `shift` and the walk along `back` agree: a single square
   * p is a move along `shift` iff it is in `empty` and the bridge from p
   * along `back` is non-empty.
   */
  lemma MovesAlongBridge(shift: BitShift, back: BitShift, p: bv64, player: bv64, opponent: bv64, empty: bv64)
    requires Adjoint(shift, back) && KeepsAtMostOne(back)
    requires AtMostOne(p)
    requires player & opponent == 0
    ensures Meets(p, MovesAlong(shift, player, opponent, empty))
      == (Meets(p, empty) && BridgeAlong(back, p, player, opponent) != 0)
  {
    RunMovesReach(shift, back, p, shift(player) & opponent, opponent, empty, 8);
    assert AtMostOne(back(p));
    ReachesThroughOpponent(shift, back, back(p), player, opponent);
    BridgeNonEmpty(back, p, player, opponent);
  }

  // ---------------------------------------------------------------------
  // Where the walks land

  /** The scan only ever finds empty squares. */
  lemma {:induction false} RunMovesEmpty(shift: BitShift, potential: bv64, opponent: bv64, empty: bv64, fuel: nat)
    ensures RunMoves(shift, potential, opponent, empty, fuel) & !empty == 0
    decreases fuel
  {
    if fuel > 0 && potential != 0 {
      RunMovesEmpty(shift, shift(potential) & opponent, opponent, empty, fuel - 1);
    }
  }

  /** Every move found along a shift is an empty square. */
  lemma MovesAlongEmpty(shift: BitShift, player: bv64, opponent: bv64, empty: bv64)
    ensures MovesAlong(shift, player, opponent, empty) & !empty == 0
  {
    RunMovesEmpty(shift, shift(player) & opponent, opponent, empty, 8);
  }

  /** A run lies inside the opponent's discs. */
  lemma {:induction false} SpanWithin(step: BitShift, cursor: bv64, opponent: bv64, fuel: nat)
    ensures Span(step, cursor, opponent, fuel) & opponent == Span(step, cursor, opponent, fuel)
    decreases fuel
  {
    if fuel > 0 && Within(cursor, opponent) {
      SpanWithin(step, step(cursor), opponent, fuel - 1);
    }
  }

  /** A bridge lies inside the opponent's discs. */
  lemma BridgeWithin(step: BitShift, position: bv64, player: bv64, opponent: bv64)
    ensures BridgeAlong(step, position, player, opponent) & opponent == BridgeAlong(step, position, player, opponent)
  {
    SpanWithin(step, step(position), opponent, 8);
  }
}

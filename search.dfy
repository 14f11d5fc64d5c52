/**
 * The computer player's search, as values: the alpha-beta negamax of the
 * engine, the plain game-tree value it prunes, and the scan over the
 * legal moves that keeps the best one. Moves are tried lowest bit first,
 * as the engine's move cursor visits them.
 */
module Search {
  import opened Bits
  import opened Walks
  import opened Types
  import opened Players
  import opened BitBoards
  import opened Rules
  import opened Evaluation

  /** Math.max on scores. */
  function Max(a: int, b: int): (m: int)
    ensures m >= a && m >= b && (m == a || m == b)
  {
    if a >= b then a else b
  }

  /** The move tried next: the lowest remaining square. */
  function NextSquare(remaining: bv64): bv64
  {
    LowestBit(remaining)
  }

  /** The moves left once the next one has been tried. */
  function Rest(remaining: bv64): bv64
  {
    remaining & !LowestBit(remaining)
  }

  lemma RestShrinks(remaining: bv64)
    ensures remaining != 0 ==> Rest(remaining) < remaining
  {
  }

  /** Rest drops exactly one square. */
  lemma RestCount(remaining: bv64)
    requires remaining != 0
    ensures BitCount(Rest(remaining)) + 1 == BitCount(remaining)
  {
    var rest, square := Rest(remaining), LowestBit(remaining);
    LowestBitIsSingle(remaining);
    RestSplits(remaining, rest, square);
    BitCountUnion(rest, square);
    BitCountSingle(square);
  }

  /** A non-empty set of squares is its lowest square plus the rest, apart. */
  lemma RestSplits(remaining: bv64, rest: bv64, square: bv64)
    requires rest == Rest(remaining) && square == LowestBit(remaining)
    ensures rest | square == remaining && rest & square == 0
  {
  }

  /** The board after p plays the legal move `square` (a single bit). */
  function Child(pieces: Pieces, p: Player, square: bv64): Pieces
  {
    Play(pieces, p, square)
  }

  /**
   * Score of a leaf of the game tree for the player to move: the
   * heuristic of the opponent, signed by the negated label of p.
   */
  function Leaf(mode: Difficulty, pieces: Pieces, p: Player): (score: int)
    requires mode != PVP
    ensures -100 <= score <= 100
  {
    match p
    case Black => -Evaluate(mode, pieces, White)
    case White => Evaluate(mode, pieces, Black)
  }

  /** The leaf score is -1 * label(p) * evaluate(opponent), as the engine writes it. */
  lemma LeafSigned(mode: Difficulty, pieces: Pieces, p: Player)
    requires mode != PVP
    ensures Leaf(mode, pieces, p) == -1 * Label(p) * Evaluate(mode, pieces, CurrentOpponent(p))
  {
  }

  /** Whether neither side can move. */
  predicate Blocked(pieces: Pieces, p: Player)
  {
    LegalMoves(pieces, p) == 0 && LegalMoves(pieces, CurrentOpponent(p)) == 0
  }

  // ---------------------------------------------------------------------
  // The alpha-beta search, as the engine runs it
  // ---------------------------------------------------------------------

  /**
   * negamax(depth, p, alpha, beta) on `pieces`: a leaf at depth 0 or when
   * nobody can move; a pass (one level spent) when only p cannot move;
   * otherwise the scan over p's moves.
   */
  function NegamaxScore(mode: Difficulty, pieces: Pieces, depth: nat, p: Player, alpha: int, beta: int): int
    requires mode != PVP
    decreases depth, 1, 0
  {
    var moves := LegalMoves(pieces, p);
    if depth == 0 || Blocked(pieces, p) then Leaf(mode, pieces, p)
    else if moves == 0 then -1 * NegamaxScore(mode, pieces, depth - 1, CurrentOpponent(p), -beta, -alpha)
    else BranchScore(mode, pieces, depth, p, moves, NO_MOVE_SCORE, alpha, beta)
  }

  /**
   * The rest of the move scan: `score` is the best child score so far and
   * `alpha` the raised lower bound; a bound reaching beta cuts the scan
   * off with -beta.
   */
  function BranchScore(mode: Difficulty, pieces: Pieces, depth: nat, p: Player,
                       remaining: bv64, score: int, alpha: int, beta: int): int
    requires mode != PVP && depth > 0
    decreases depth, 0, remaining
  {
    if remaining == 0 then -1 * score
    else
      var childScore := NegamaxScore(mode, Child(pieces, p, NextSquare(remaining)), depth - 1,
                                     CurrentOpponent(p), -beta, -alpha);
      var newScore := Max(score, childScore);
      var newAlpha := Max(alpha, newScore);
      if newAlpha >= beta then -beta
      else
        RestShrinks(remaining);
        BranchScore(mode, pieces, depth, p, Rest(remaining), newScore, newAlpha, beta)
  }

  // ---------------------------------------------------------------------
  // The game-tree value the search prunes
  // ---------------------------------------------------------------------

  /** The same recursion without a window: every move is searched. */
  function GameValue(mode: Difficulty, pieces: Pieces, depth: nat, p: Player): int
    requires mode != PVP
    decreases depth, 1, 0
  {
    var moves := LegalMoves(pieces, p);
    if depth == 0 || Blocked(pieces, p) then Leaf(mode, pieces, p)
    else if moves == 0 then -1 * GameValue(mode, pieces, depth - 1, CurrentOpponent(p))
    else -1 * BestChild(mode, pieces, depth, p, moves, NO_MOVE_SCORE)
  }

  /** The largest child value among the remaining moves, starting from `best`. */
  function BestChild(mode: Difficulty, pieces: Pieces, depth: nat, p: Player, remaining: bv64, best: int): int
    requires mode != PVP && depth > 0
    decreases depth, 0, remaining
  {
    if remaining == 0 then best
    else
      var value := GameValue(mode, Child(pieces, p, NextSquare(remaining)), depth - 1, CurrentOpponent(p));
      RestShrinks(remaining);
      BestChild(mode, pieces, depth, p, Rest(remaining), Max(best, value))
  }

  /**
   * What a window [alpha, beta] lets the search tell about a node whose
   * own score is -value: below the window the search answers at most
   * alpha, inside it exactly, above it at least beta (scores read as the
   * negation of what is returned).
   */
  predicate WithinWindow(alpha: int, beta: int, result: int, value: int)
  {
    && (-value <= alpha ==> -result <= alpha)
    && (alpha < -value < beta ==> result == value)
    && (beta <= -value ==> beta <= -result)
  }

  /**
   * Pruning is sound: for any window inside the score range, the
   * alpha-beta search agrees with the game-tree value as far as the
   * window can tell.
   */
  lemma {:induction false} NegamaxAgrees(mode: Difficulty, pieces: Pieces, depth: nat, p: Player, alpha: int, beta: int)
    requires mode != PVP && NO_MOVE_SCORE <= alpha < beta <= -NO_MOVE_SCORE
    ensures WithinWindow(alpha, beta, NegamaxScore(mode, pieces, depth, p, alpha, beta), GameValue(mode, pieces, depth, p))
    decreases depth, 1, 0
  {
    var moves := LegalMoves(pieces, p);
    if depth == 0 || Blocked(pieces, p) {
    } else if moves == 0 {
      var q := CurrentOpponent(p);
      NegamaxAgrees(mode, pieces, depth - 1, q, -beta, -alpha);
      PassAgrees(alpha, beta, NegamaxScore(mode, pieces, depth - 1, q, -beta, -alpha), GameValue(mode, pieces, depth - 1, q));
    } else {
      BranchAgrees(mode, pieces, depth, p, moves, NO_MOVE_SCORE, NO_MOVE_SCORE, alpha, alpha, beta);
    }
  }

  /** A pass swaps and negates the window, and the answer with it. */
  lemma PassAgrees(alpha: int, beta: int, result: int, value: int)
    requires WithinWindow(-beta, -alpha, result, value)
    ensures WithinWindow(alpha, beta, -1 * result, -1 * value)
  {
  }

  /**
   * The move scan keeps the invariant of fail-soft alpha-beta: `score`
   * agrees with the best child value `best` so far, as the starting
   * window alpha0 can tell, and `alpha` is alpha0 raised to `score`.
   */
  lemma {:induction false} BranchAgrees(mode: Difficulty, pieces: Pieces, depth: nat, p: Player, remaining: bv64,
                                        score: int, best: int, alpha0: int, alpha: int, beta: int)
    requires mode != PVP && depth > 0
    requires NO_MOVE_SCORE <= alpha0 < beta <= -NO_MOVE_SCORE
    requires alpha == Max(alpha0, score) && alpha < beta
    requires best <= alpha0 ==> score <= alpha0
    requires alpha0 < best ==> score == best
    ensures WithinWindow(alpha0, beta, BranchScore(mode, pieces, depth, p, remaining, score, alpha, beta),
                         -1 * BestChild(mode, pieces, depth, p, remaining, best))
    decreases depth, 0, remaining, 2
  {
    if remaining != 0 {
      var child := Child(pieces, p, NextSquare(remaining));
      NegamaxAgrees(mode, child, depth - 1, CurrentOpponent(p), -beta, -alpha);
      BranchCases(mode, pieces, depth, p, remaining, score, best, alpha0, alpha, beta,
                  NegamaxScore(mode, child, depth - 1, CurrentOpponent(p), -beta, -alpha),
                  GameValue(mode, child, depth - 1, CurrentOpponent(p)));
    }
  }

  /** One searched child either cuts the scan off or leaves the invariant in place. */
  lemma {:induction false} BranchCases(mode: Difficulty, pieces: Pieces, depth: nat, p: Player, remaining: bv64,
                                       score: int, best: int, alpha0: int, alpha: int, beta: int, result: int, value: int)
    requires mode != PVP && depth > 0 && remaining != 0
    requires NO_MOVE_SCORE <= alpha0 < beta <= -NO_MOVE_SCORE
    requires alpha == Max(alpha0, score) && alpha < beta
    requires best <= alpha0 ==> score <= alpha0
    requires alpha0 < best ==> score == best
    requires result == NegamaxScore(mode, Child(pieces, p, NextSquare(remaining)), depth - 1, CurrentOpponent(p), -beta, -alpha)
    requires value == GameValue(mode, Child(pieces, p, NextSquare(remaining)), depth - 1, CurrentOpponent(p))
    requires WithinWindow(-beta, -alpha, NegamaxScore(mode, Child(pieces, p, NextSquare(remaining)), depth - 1, CurrentOpponent(p), -beta, -alpha),
                          GameValue(mode, Child(pieces, p, NextSquare(remaining)), depth - 1, CurrentOpponent(p)))
    ensures WithinWindow(alpha0, beta, BranchScore(mode, pieces, depth, p, remaining, score, alpha, beta),
                         -1 * BestChild(mode, pieces, depth, p, remaining, best))
    decreases depth, 0, remaining, 1
  {
    if Max(alpha, Max(score, result)) >= beta {
      CutoffCase(mode, pieces, depth, p, remaining, score, best, alpha0, alpha, beta, result, value);
    } else {
      ScanStepAgrees(alpha0, alpha, beta, score, best, result, value);
      ContinueAgrees(mode, pieces, depth, p, remaining, score, best, alpha0, alpha, beta, result, value);
    }
  }

  /** Below the cutoff, the rest of the scan agrees, and so does this turn. */
  lemma {:induction false} ContinueAgrees(mode: Difficulty, pieces: Pieces, depth: nat, p: Player, remaining: bv64,
                                          score: int, best: int, alpha0: int, alpha: int, beta: int, result: int, value: int)
    requires mode != PVP && depth > 0 && remaining != 0
    requires NO_MOVE_SCORE <= alpha0 < beta <= -NO_MOVE_SCORE
    requires result == NegamaxScore(mode, Child(pieces, p, NextSquare(remaining)), depth - 1, CurrentOpponent(p), -beta, -alpha)
    requires value == GameValue(mode, Child(pieces, p, NextSquare(remaining)), depth - 1, CurrentOpponent(p))
    requires Max(alpha, Max(score, result)) < beta
    requires Max(alpha, Max(score, result)) == Max(alpha0, Max(score, result))
    requires Max(best, value) <= alpha0 ==> Max(score, result) <= alpha0
    requires alpha0 < Max(best, value) ==> Max(score, result) == Max(best, value)
    ensures WithinWindow(alpha0, beta, BranchScore(mode, pieces, depth, p, remaining, score, alpha, beta),
                         -1 * BestChild(mode, pieces, depth, p, remaining, best))
    decreases depth, 0, remaining, 0
  {
    RestShrinks(remaining);
    BranchAgrees(mode, pieces, depth, p, Rest(remaining), Max(score, result), Max(best, value),
                 alpha0, Max(alpha, Max(score, result)), beta);
    ContinueCase(mode, pieces, depth, p, remaining, score, best, alpha0, alpha, beta, result, value);
  }

  /** The scan stops at a child that lifts alpha to beta. */
  lemma CutoffCase(mode: Difficulty, pieces: Pieces, depth: nat, p: Player, remaining: bv64,
                   score: int, best: int, alpha0: int, alpha: int, beta: int, result: int, value: int)
    requires mode != PVP && depth > 0 && remaining != 0
    requires alpha0 < beta && alpha == Max(alpha0, score) && alpha < beta
    requires result == NegamaxScore(mode, Child(pieces, p, NextSquare(remaining)), depth - 1, CurrentOpponent(p), -beta, -alpha)
    requires value == GameValue(mode, Child(pieces, p, NextSquare(remaining)), depth - 1, CurrentOpponent(p))
    requires WithinWindow(-beta, -alpha, result, value)
    requires Max(alpha, Max(score, result)) >= beta
    ensures WithinWindow(alpha0, beta, BranchScore(mode, pieces, depth, p, remaining, score, alpha, beta),
                         -1 * BestChild(mode, pieces, depth, p, remaining, best))
  {
    BranchStep(mode, pieces, depth, p, remaining, score, alpha, beta, result);
    BestChildStep(mode, pieces, depth, p, remaining, best, value);
    BestChildAtLeast(mode, pieces, depth, p, Rest(remaining), Max(best, value));
    CutoffAgrees(alpha0, alpha, beta, score, result, value, Max(best, value),
                 BestChild(mode, pieces, depth, p, Rest(remaining), Max(best, value)));
  }

  /** Below the cutoff the scan goes on with the raised score and bound. */
  lemma ContinueCase(mode: Difficulty, pieces: Pieces, depth: nat, p: Player, remaining: bv64,
                     score: int, best: int, alpha0: int, alpha: int, beta: int, result: int, value: int)
    requires mode != PVP && depth > 0 && remaining != 0
    requires result == NegamaxScore(mode, Child(pieces, p, NextSquare(remaining)), depth - 1, CurrentOpponent(p), -beta, -alpha)
    requires value == GameValue(mode, Child(pieces, p, NextSquare(remaining)), depth - 1, CurrentOpponent(p))
    requires Max(alpha, Max(score, result)) < beta
    requires WithinWindow(alpha0, beta,
                          BranchScore(mode, pieces, depth, p, Rest(remaining), Max(score, result), Max(alpha, Max(score, result)), beta),
                          -1 * BestChild(mode, pieces, depth, p, Rest(remaining), Max(best, value)))
    ensures WithinWindow(alpha0, beta, BranchScore(mode, pieces, depth, p, remaining, score, alpha, beta),
                         -1 * BestChild(mode, pieces, depth, p, remaining, best))
  {
    BranchStep(mode, pieces, depth, p, remaining, score, alpha, beta, result);
    BestChildStep(mode, pieces, depth, p, remaining, best, value);
  }

  /**
   * The three ways NegamaxScore goes, as the engine tells them apart from
   * the two move masks: a leaf, a pass, or a scan of the moves.
   */
  lemma NegamaxCases(mode: Difficulty, pieces: Pieces, depth: nat, p: Player, alpha: int, beta: int)
    requires mode != PVP
    ensures depth == 0 || LegalMoves(pieces, p) | LegalMoves(pieces, CurrentOpponent(p)) == 0 ==>
              NegamaxScore(mode, pieces, depth, p, alpha, beta) == Leaf(mode, pieces, p)
    ensures depth > 0 && LegalMoves(pieces, p) == 0 && LegalMoves(pieces, CurrentOpponent(p)) != 0 ==>
              NegamaxScore(mode, pieces, depth, p, alpha, beta)
              == -1 * NegamaxScore(mode, pieces, depth - 1, CurrentOpponent(p), -beta, -alpha)
    ensures depth > 0 && LegalMoves(pieces, p) != 0 ==>
              NegamaxScore(mode, pieces, depth, p, alpha, beta)
              == BranchScore(mode, pieces, depth, p, LegalMoves(pieces, p), NO_MOVE_SCORE, alpha, beta)
  {
    OrZero(LegalMoves(pieces, p), LegalMoves(pieces, CurrentOpponent(p)));
  }

  /** A scan with no move left ends with the best child score, negated. */
  lemma BranchDone(mode: Difficulty, pieces: Pieces, depth: nat, p: Player, score: int, alpha: int, beta: int)
    requires mode != PVP && depth > 0
    ensures BranchScore(mode, pieces, depth, p, 0, score, alpha, beta) == -1 * score
  {
  }

  /** A set of squares whose lowest square is one square is not empty. */
  lemma NextInside(remaining: bv64)
    requires IsSingleBit(NextSquare(remaining))
    ensures remaining != 0
  {
  }

  /** One turn of the move scan, as the search takes it. */
  lemma BranchStep(mode: Difficulty, pieces: Pieces, depth: nat, p: Player, remaining: bv64,
                   score: int, alpha: int, beta: int, result: int)
    requires mode != PVP && depth > 0 && remaining != 0
    requires result == NegamaxScore(mode, Child(pieces, p, NextSquare(remaining)), depth - 1, CurrentOpponent(p), -beta, -alpha)
    ensures Max(alpha, Max(score, result)) >= beta ==> BranchScore(mode, pieces, depth, p, remaining, score, alpha, beta) == -beta
    ensures Max(alpha, Max(score, result)) < beta ==>
              BranchScore(mode, pieces, depth, p, remaining, score, alpha, beta) == BranchScore(mode, pieces, depth, p, Rest(remaining), Max(score, result), Max(alpha, Max(score, result)), beta)
  {
  }

  /** One turn of the unpruned scan. */
  lemma BestChildStep(mode: Difficulty, pieces: Pieces, depth: nat, p: Player, remaining: bv64, best: int, value: int)
    requires mode != PVP && depth > 0 && remaining != 0
    requires value == GameValue(mode, Child(pieces, p, NextSquare(remaining)), depth - 1, CurrentOpponent(p))
    ensures BestChild(mode, pieces, depth, p, remaining, best) == BestChild(mode, pieces, depth, p, Rest(remaining), Max(best, value))
  {
  }

  /** A child that lifts alpha to beta has a value of at least beta. */
  lemma CutoffAgrees(alpha0: int, alpha: int, beta: int, score: int, result: int, value: int, best: int, final: int)
    requires alpha0 < beta && alpha < beta && alpha >= alpha0 && alpha >= score
    requires WithinWindow(-beta, -alpha, result, value)
    requires Max(alpha, Max(score, result)) >= beta
    requires best >= value && final >= best
    ensures WithinWindow(alpha0, beta, -beta, -1 * final)
  {
  }

  /** One searched child keeps the scan invariant. */
  lemma ScanStepAgrees(alpha0: int, alpha: int, beta: int, score: int, best: int, result: int, value: int)
    requires alpha0 < beta && alpha == Max(alpha0, score) && alpha < beta
    requires best <= alpha0 ==> score <= alpha0
    requires alpha0 < best ==> score == best
    requires WithinWindow(-beta, -alpha, result, value)
    requires Max(alpha, Max(score, result)) < beta
    ensures Max(alpha, Max(score, result)) == Max(alpha0, Max(score, result))
    ensures Max(best, value) <= alpha0 ==> Max(score, result) <= alpha0
    ensures alpha0 < Max(best, value) ==> Max(score, result) == Max(best, value)
  {
  }

  /** The best child value never falls below its starting point. */
  lemma {:induction false} BestChildAtLeast(mode: Difficulty, pieces: Pieces, depth: nat, p: Player, remaining: bv64, best: int)
    requires mode != PVP && depth > 0
    ensures BestChild(mode, pieces, depth, p, remaining, best) >= best
    decreases remaining
  {
    if remaining != 0 {
      var value := GameValue(mode, Child(pieces, p, NextSquare(remaining)), depth - 1, CurrentOpponent(p));
      RestShrinks(remaining);
      BestChildAtLeast(mode, pieces, depth, p, Rest(remaining), Max(best, value));
    }
  }

  // ---------------------------------------------------------------------
  // Score ranges
  // ---------------------------------------------------------------------

  /** Game-tree values stay within the heuristic range [-100, 100]. */
  lemma {:induction false} ValueRange(mode: Difficulty, pieces: Pieces, depth: nat, p: Player)
    requires mode != PVP
    ensures -100 <= GameValue(mode, pieces, depth, p) <= 100
    decreases depth, 1, 0
  {
    var moves := LegalMoves(pieces, p);
    if depth == 0 || Blocked(pieces, p) {
    } else if moves == 0 {
      ValueRange(mode, pieces, depth - 1, CurrentOpponent(p));
    } else {
      BestChildRange(mode, pieces, depth, p, moves, NO_MOVE_SCORE);
    }
  }

  /** Over a non-empty set of moves the best child value lies in [-100, 100]. */
  lemma {:induction false} BestChildRange(mode: Difficulty, pieces: Pieces, depth: nat, p: Player, remaining: bv64, best: int)
    requires mode != PVP && depth > 0 && best <= 100
    ensures best <= BestChild(mode, pieces, depth, p, remaining, best) <= 100
    ensures remaining != 0 ==> -100 <= BestChild(mode, pieces, depth, p, remaining, best)
    decreases depth, 0, remaining
  {
    if remaining != 0 {
      var value := GameValue(mode, Child(pieces, p, NextSquare(remaining)), depth - 1, CurrentOpponent(p));
      ValueRange(mode, Child(pieces, p, NextSquare(remaining)), depth - 1, CurrentOpponent(p));
      RestShrinks(remaining);
      BestChildRange(mode, pieces, depth, p, Rest(remaining), Max(best, value));
    }
  }

  /**
   * With the widest window the engine uses, the search returns the
   * game-tree value itself.
   */
  lemma FullWindow(mode: Difficulty, pieces: Pieces, depth: nat, p: Player)
    requires mode != PVP
    ensures NegamaxScore(mode, pieces, depth, p, NO_MOVE_SCORE, -NO_MOVE_SCORE) == GameValue(mode, pieces, depth, p)
  {
    NegamaxAgrees(mode, pieces, depth, p, NO_MOVE_SCORE, -NO_MOVE_SCORE);
    ValueRange(mode, pieces, depth, p);
  }

  /**
   * Whatever window inside [-1000, 1000] it is given, the search answers
   * inside [-1000, 1000]: no int arithmetic of the engine can overflow.
   */
  lemma {:induction false} NegamaxRange(mode: Difficulty, pieces: Pieces, depth: nat, p: Player, alpha: int, beta: int)
    requires mode != PVP
    requires NO_MOVE_SCORE <= alpha <= -NO_MOVE_SCORE && NO_MOVE_SCORE <= beta <= -NO_MOVE_SCORE
    ensures NO_MOVE_SCORE <= NegamaxScore(mode, pieces, depth, p, alpha, beta) <= -NO_MOVE_SCORE
    decreases depth, 1, 0
  {
    var moves := LegalMoves(pieces, p);
    if depth == 0 || Blocked(pieces, p) {
    } else if moves == 0 {
      NegamaxRange(mode, pieces, depth - 1, CurrentOpponent(p), -beta, -alpha);
    } else {
      BranchRange(mode, pieces, depth, p, moves, NO_MOVE_SCORE, alpha, beta);
    }
  }

  lemma {:induction false} BranchRange(mode: Difficulty, pieces: Pieces, depth: nat, p: Player, remaining: bv64,
                                       score: int, alpha: int, beta: int)
    requires mode != PVP && depth > 0
    requires NO_MOVE_SCORE <= score <= -NO_MOVE_SCORE
    requires NO_MOVE_SCORE <= alpha <= -NO_MOVE_SCORE && NO_MOVE_SCORE <= beta <= -NO_MOVE_SCORE
    ensures NO_MOVE_SCORE <= BranchScore(mode, pieces, depth, p, remaining, score, alpha, beta) <= -NO_MOVE_SCORE
    decreases depth, 0, remaining
  {
    if remaining != 0 {
      var child := Child(pieces, p, NextSquare(remaining));
      var result := NegamaxScore(mode, child, depth - 1, CurrentOpponent(p), -beta, -alpha);
      NegamaxRange(mode, child, depth - 1, CurrentOpponent(p), -beta, -alpha);
      RestShrinks(remaining);
      if Max(alpha, Max(score, result)) < beta {
        BranchRange(mode, pieces, depth, p, Rest(remaining), Max(score, result), Max(alpha, Max(score, result)), beta);
      }
    }
  }

  // ---------------------------------------------------------------------
  // The squares the scans try
  // ---------------------------------------------------------------------

  /** Every square of `remaining` is one of `moves`. */
  predicate Among(remaining: bv64, moves: bv64)
  {
    remaining & moves == remaining
  }

  /** A set of moves lies among itself. */
  lemma AmongSelf(moves: bv64)
    ensures Among(moves, moves)
  {
  }

  /** The next square of a set of moves is one of those moves. */
  lemma NextIsMove(remaining: bv64, moves: bv64)
    requires remaining != 0 && Among(remaining, moves)
    ensures IsSingleBit(NextSquare(remaining)) && Meets(NextSquare(remaining), moves)
  {
    LowestBitIsSingle(remaining);
    var square := NextSquare(remaining);
    assert Among(square, remaining);
    SquareInside(square, remaining, moves);
  }

  lemma SquareInside(square: bv64, remaining: bv64, moves: bv64)
    requires square != 0 && Among(square, remaining) && Among(remaining, moves)
    ensures Meets(square, moves)
  {
  }

  /** What is left of a set of moves stays inside the moves. */
  lemma RestInside(remaining: bv64, moves: bv64)
    ensures Among(remaining, moves) ==> Among(Rest(remaining), moves)
  {
  }

  /**
   * Playing a legal move by its square: the coordinates of the bit lead
   * back to it, the move succeeds, and the board becomes Child.
   */
  lemma PlayNext(pieces: Pieces, p: Player, square: bv64)
    requires IsSingleBit(square) && Meets(square, LegalMoves(pieces, p))
    ensures OnBoard(BoardPosition(square)) && BitPosition(BoardPosition(square)) == square
    ensures PlayOutcome(pieces, p, BoardPosition(square)) == (Successful, Child(pieces, p, square))
  {
    BitPositionOfBoardPosition(square);
  }

  // ---------------------------------------------------------------------
  // The move the computer player picks
  // ---------------------------------------------------------------------

  /** label(p) * x, for scores read from p's side. */
  function Signed(p: Player, x: int): (y: int)
    ensures y == Label(p) * x
  {
    match p
    case Black => x
    case White => -x
  }

  /**
   * mostEvaluatedPlay: every move of p, lowest bit first, is scored with
   * label(p) * negamax(depth, opponent, -1000, -best score) on the board
   * it leads to, and the first move with the highest score is kept;
   * (0, 0) with score -1000 when p has no move.
   */
  function BestPlay(mode: Difficulty, pieces: Pieces, p: Player): (best: Move)
    requires mode != PVP
    ensures LegalMoves(pieces, p) == 0 ==> best == NewMove(0, 0)
  {
    ChoosePlay(mode, pieces, p, LegalMoves(pieces, p), NewMove(0, 0))
  }

  /** The scan of BestPlay from `best`, over the remaining moves. */
  function ChoosePlay(mode: Difficulty, pieces: Pieces, p: Player, remaining: bv64, best: Move): Move
    requires mode != PVP
    decreases remaining
  {
    if remaining == 0 then best
    else
      RestShrinks(remaining);
      ChoosePlay(mode, pieces, p, Rest(remaining), ScanTurn(mode, pieces, p, remaining, best))
  }

  /** The kept move once the lowest remaining move has been scored. */
  function ScanTurn(mode: Difficulty, pieces: Pieces, p: Player, remaining: bv64, best: Move): Move
    requires mode != PVP
  {
    var square := NextSquare(remaining);
    var moveScore := Signed(p, NegamaxScore(mode, Child(pieces, p, square), Depth(mode), CurrentOpponent(p),
                                            NO_MOVE_SCORE, -best.score));
    Improve(best, BoardPosition(square), moveScore)
  }

  /** The kept move, replaced only by a strictly higher score. */
  function Improve(best: Move, c: Coordinates, moveScore: int): (kept: Move)
    ensures kept.score == Max(best.score, moveScore)
    ensures moveScore <= best.score ==> kept == best
    ensures best.score < moveScore ==> kept == Move(c.y, c.x, moveScore)
  {
    if moveScore > best.score then Move(c.y, c.x, moveScore) else best
  }

  /**
   * The same scan without pruning: each move is scored by its game-tree
   * value, read from p's side.
   */
  function ReferencePlay(mode: Difficulty, pieces: Pieces, p: Player, remaining: bv64, best: Move): Move
    requires mode != PVP
    decreases remaining
  {
    if remaining == 0 then best
    else
      var square := NextSquare(remaining);
      var moveScore := Signed(p, GameValue(mode, Child(pieces, p, square), Depth(mode), CurrentOpponent(p)));
      RestShrinks(remaining);
      ReferencePlay(mode, pieces, p, Rest(remaining), Improve(best, BoardPosition(square), moveScore))
  }

  /** The move names a board square that p may legally play. */
  predicate Playable(pieces: Pieces, p: Player, m: Move)
  {
    OnBoard(m.Square()) && IsLegal(pieces, p, BitPosition(m.Square()))
  }

  /**
   * When p has a move, the computer picks a legal one, with a score
   * above the sentinel and inside the score range.
   */
  lemma BestPlayLegal(mode: Difficulty, pieces: Pieces, p: Player)
    requires mode != PVP && LegalMoves(pieces, p) != 0
    ensures NO_MOVE_SCORE < BestPlay(mode, pieces, p).score <= -NO_MOVE_SCORE
    ensures Playable(pieces, p, BestPlay(mode, pieces, p))
  {
    ChooseLegal(mode, pieces, p, LegalMoves(pieces, p), NewMove(0, 0), BestPlay(mode, pieces, p));
  }

  /**
   * The scan keeps a playable move once its score leaves the sentinel,
   * and leaves the sentinel as soon as one move is scored.
   */
  lemma ChooseLegal(mode: Difficulty, pieces: Pieces, p: Player, remaining: bv64, best: Move, result: Move)
    requires mode != PVP && remaining & LegalMoves(pieces, p) == remaining
    requires NO_MOVE_SCORE <= best.score <= -NO_MOVE_SCORE
    requires NO_MOVE_SCORE < best.score ==> Playable(pieces, p, best)
    requires result == ChoosePlay(mode, pieces, p, remaining, best)
    ensures best.score <= result.score <= -NO_MOVE_SCORE
    ensures NO_MOVE_SCORE < result.score ==> Playable(pieces, p, result)
    ensures remaining != 0 ==> NO_MOVE_SCORE < result.score
  {
    ChooseBound(mode, pieces, p, remaining, best, result);
    ChoosePlayable(mode, pieces, p, remaining, best, result);
  }

  /** The scan only raises the kept score, and a non-empty scan keeps a scored move. */
  lemma {:induction false} ChooseBound(mode: Difficulty, pieces: Pieces, p: Player, remaining: bv64, best: Move, result: Move)
    requires mode != PVP && NO_MOVE_SCORE <= best.score <= -NO_MOVE_SCORE
    requires result == ChoosePlay(mode, pieces, p, remaining, best)
    ensures best.score <= result.score <= -NO_MOVE_SCORE
    ensures remaining != 0 ==> NO_MOVE_SCORE < result.score
    decreases BitCount(remaining), 1
  {
    if remaining != 0 {
      ChooseBoundStep(mode, pieces, p, remaining, best, result);
    }
  }

  /** ChooseBound past the first scored move. */
  lemma {:induction false} ChooseBoundStep(mode: Difficulty, pieces: Pieces, p: Player, remaining: bv64, best: Move, result: Move)
    requires mode != PVP && remaining != 0 && NO_MOVE_SCORE <= best.score <= -NO_MOVE_SCORE
    requires result == ChoosePlay(mode, pieces, p, remaining, best)
    ensures best.score <= result.score <= -NO_MOVE_SCORE && NO_MOVE_SCORE < result.score
    decreases BitCount(remaining), 0
  {
    var kept := ScanTurn(mode, pieces, p, remaining, best);
    KeptScore(mode, pieces, p, remaining, best);
    ChooseUnfold(mode, pieces, p, remaining, best);
    RestCount(remaining);
    ChooseBound(mode, pieces, p, Rest(remaining), kept, result);
  }

  /** A move the scan keeps with a real score is a legal move on the board. */
  lemma {:induction false} ChoosePlayable(mode: Difficulty, pieces: Pieces, p: Player, remaining: bv64, best: Move, result: Move)
    requires mode != PVP && remaining & LegalMoves(pieces, p) == remaining
    requires NO_MOVE_SCORE <= best.score <= -NO_MOVE_SCORE
    requires NO_MOVE_SCORE < best.score ==> Playable(pieces, p, best)
    requires result == ChoosePlay(mode, pieces, p, remaining, best)
    ensures NO_MOVE_SCORE < result.score ==> Playable(pieces, p, result)
    decreases BitCount(remaining), 1
  {
    if remaining != 0 {
      ChoosePlayableStep(mode, pieces, p, remaining, best, result);
    }
  }

  /** ChoosePlayable past the first scored move. */
  lemma {:induction false} ChoosePlayableStep(mode: Difficulty, pieces: Pieces, p: Player, remaining: bv64, best: Move, result: Move)
    requires mode != PVP && remaining != 0 && remaining & LegalMoves(pieces, p) == remaining
    requires NO_MOVE_SCORE <= best.score <= -NO_MOVE_SCORE
    requires NO_MOVE_SCORE < best.score ==> Playable(pieces, p, best)
    requires result == ChoosePlay(mode, pieces, p, remaining, best)
    ensures NO_MOVE_SCORE < result.score ==> Playable(pieces, p, result)
    decreases BitCount(remaining), 0
  {
    var kept := ScanTurn(mode, pieces, p, remaining, best);
    KeptScore(mode, pieces, p, remaining, best);
    KeptPlayable(mode, pieces, p, remaining, best);
    ChooseUnfold(mode, pieces, p, remaining, best);
    RestInside(remaining, LegalMoves(pieces, p));
    RestCount(remaining);
    ChoosePlayable(mode, pieces, p, Rest(remaining), kept, result);
  }

  /** The scan of BestPlay starts from (0, 0) over every move of p. */
  lemma ChooseStart(mode: Difficulty, pieces: Pieces, p: Player)
    requires mode != PVP
    ensures BestPlay(mode, pieces, p) == ChoosePlay(mode, pieces, p, LegalMoves(pieces, p), NewMove(0, 0))
  {
  }

  /** With no move left the scan keeps the move it holds. */
  lemma ChooseDone(mode: Difficulty, pieces: Pieces, p: Player, best: Move)
    requires mode != PVP
    ensures ChoosePlay(mode, pieces, p, 0, best) == best
  {
  }

  /** One turn of the scan of BestPlay. */
  lemma ChooseUnfold(mode: Difficulty, pieces: Pieces, p: Player, remaining: bv64, best: Move)
    requires mode != PVP && remaining != 0
    ensures ChoosePlay(mode, pieces, p, remaining, best)
         == ChoosePlay(mode, pieces, p, Rest(remaining), ScanTurn(mode, pieces, p, remaining, best))
  {
  }

  /** One turn never lowers the kept score and always leaves the sentinel. */
  lemma KeptScore(mode: Difficulty, pieces: Pieces, p: Player, remaining: bv64, best: Move)
    requires mode != PVP && NO_MOVE_SCORE <= best.score <= -NO_MOVE_SCORE
    ensures var kept := ScanTurn(mode, pieces, p, remaining, best);
      best.score <= kept.score && NO_MOVE_SCORE < kept.score <= -NO_MOVE_SCORE
  {
    var square := NextSquare(remaining);
    var moveScore := Signed(p, NegamaxScore(mode, Child(pieces, p, square), Depth(mode),
                                            CurrentOpponent(p), NO_MOVE_SCORE, -best.score));
    ScoreStep(mode, pieces, p, square, best.score, moveScore);
    ScanTurnIs(mode, pieces, p, remaining, best, moveScore);
  }

  /** ScanTurn, with the score of the scanned move named. */
  lemma ScanTurnIs(mode: Difficulty, pieces: Pieces, p: Player, remaining: bv64, best: Move, moveScore: int)
    requires mode != PVP
    requires moveScore == Signed(p, NegamaxScore(mode, Child(pieces, p, NextSquare(remaining)), Depth(mode),
                                                 CurrentOpponent(p), NO_MOVE_SCORE, -best.score))
    ensures ScanTurn(mode, pieces, p, remaining, best) == Improve(best, BoardPosition(NextSquare(remaining)), moveScore)
  {
  }

  /** The move kept after one turn is playable, provided the move it replaces was. */
  lemma KeptPlayable(mode: Difficulty, pieces: Pieces, p: Player, remaining: bv64, best: Move)
    requires mode != PVP && remaining != 0 && remaining & LegalMoves(pieces, p) == remaining
    requires NO_MOVE_SCORE <= best.score <= -NO_MOVE_SCORE
    requires NO_MOVE_SCORE < best.score ==> Playable(pieces, p, best)
    ensures Playable(pieces, p, ScanTurn(mode, pieces, p, remaining, best))
  {
    var square := NextSquare(remaining);
    var moveScore := Signed(p, NegamaxScore(mode, Child(pieces, p, square), Depth(mode),
                                            CurrentOpponent(p), NO_MOVE_SCORE, -best.score));
    ChooseStep(mode, pieces, p, remaining, best, moveScore);
    ScanTurnIs(mode, pieces, p, remaining, best, moveScore);
  }

  /** One scored move keeps the invariant of ChoosePlayable. */
  lemma ChooseStep(mode: Difficulty, pieces: Pieces, p: Player, remaining: bv64, best: Move, moveScore: int)
    requires mode != PVP && remaining != 0 && remaining & LegalMoves(pieces, p) == remaining
    requires NO_MOVE_SCORE <= best.score <= -NO_MOVE_SCORE
    requires NO_MOVE_SCORE < best.score ==> Playable(pieces, p, best)
    requires moveScore == Signed(p, NegamaxScore(mode, Child(pieces, p, NextSquare(remaining)), Depth(mode),
                                                 CurrentOpponent(p), NO_MOVE_SCORE, -best.score))
    ensures Playable(pieces, p, Improve(best, BoardPosition(NextSquare(remaining)), moveScore))
  {
    ScoreStep(mode, pieces, p, NextSquare(remaining), best.score, moveScore);
    NextIsMove(remaining, LegalMoves(pieces, p));
    PlayNext(pieces, p, NextSquare(remaining));
  }

  /**
   * A scored move lies in the score range, and the first one, searched
   * with the full window, lies above the sentinel.
   */
  lemma ScoreStep(mode: Difficulty, pieces: Pieces, p: Player, square: bv64, bestScore: int, moveScore: int)
    requires mode != PVP && NO_MOVE_SCORE <= bestScore <= -NO_MOVE_SCORE
    requires moveScore == Signed(p, NegamaxScore(mode, Child(pieces, p, square), Depth(mode),
                                                 CurrentOpponent(p), NO_MOVE_SCORE, -bestScore))
    ensures NO_MOVE_SCORE <= moveScore <= -NO_MOVE_SCORE
    ensures bestScore == NO_MOVE_SCORE ==> NO_MOVE_SCORE < moveScore
  {
    NegamaxRange(mode, Child(pieces, p, square), Depth(mode), CurrentOpponent(p), NO_MOVE_SCORE, -bestScore);
    if bestScore == NO_MOVE_SCORE {
      FullWindow(mode, Child(pieces, p, square), Depth(mode), CurrentOpponent(p));
      ValueRange(mode, Child(pieces, p, square), Depth(mode), CurrentOpponent(p));
    }
  }

  /**
   * For Black the pruned scan picks the same move, with the same score,
   * as the scan that searches every move to the full depth.
   */
  lemma BestPlayForBlack(mode: Difficulty, pieces: Pieces)
    requires mode != PVP
    ensures BestPlay(mode, pieces, Black) == ReferencePlay(mode, pieces, Black, LegalMoves(pieces, Black), NewMove(0, 0))
  {
    BlackAgrees(mode, pieces, LegalMoves(pieces, Black), NewMove(0, 0));
  }

  lemma {:induction false} BlackAgrees(mode: Difficulty, pieces: Pieces, remaining: bv64, best: Move)
    requires mode != PVP && NO_MOVE_SCORE <= best.score <= 100
    ensures ChoosePlay(mode, pieces, Black, remaining, best) == ReferencePlay(mode, pieces, Black, remaining, best)
    decreases remaining
  {
    if remaining != 0 {
      var square := NextSquare(remaining);
      var child := Child(pieces, Black, square);
      var pruned := NegamaxScore(mode, child, Depth(mode), White, NO_MOVE_SCORE, -best.score);
      var value := GameValue(mode, child, Depth(mode), White);
      BlackStep(mode, child, best.score, pruned, value);
      RestShrinks(remaining);
      BlackAgrees(mode, pieces, Rest(remaining), Improve(best, BoardPosition(square), value));
    }
  }

  /**
   * A move for Black is scored exactly when it beats the kept score, and
   * at most the kept score otherwise; either way both scans keep the same
   * move.
   */
  lemma BlackStep(mode: Difficulty, child: Pieces, bestScore: int, pruned: int, value: int)
    requires mode != PVP && NO_MOVE_SCORE <= bestScore <= 100
    requires pruned == NegamaxScore(mode, child, Depth(mode), White, NO_MOVE_SCORE, -bestScore)
    requires value == GameValue(mode, child, Depth(mode), White)
    ensures value > bestScore ==> pruned == value
    ensures value <= bestScore ==> pruned <= bestScore
    ensures -100 <= value <= 100
  {
    NegamaxAgrees(mode, child, Depth(mode), White, NO_MOVE_SCORE, -bestScore);
    ValueRange(mode, child, Depth(mode), White);
  }
}

/**
 * The game engine: one mutable board, the chosen difficulty, move
 * generation, move playing, and the alpha-beta search that picks the
 * computer's move.
 */
module Models {
  import opened Bits
  import opened Walks
  import opened Unions
  import opened BitShifters
  import opened Types
  import opened Players
  import opened BitBoards
  import opened Rules
  import opened Evaluation
  import opened Cursors
  import opened Search
  import opened Openings

  class Model {
    const board: BitBoard
    var gameMode: Option<Difficulty>

    /** A model with an empty board and no difficulty chosen yet. */
    constructor()
      ensures fresh(board)
      ensures board.pieces == NO_PIECES && gameMode == None
    {
      board := new BitBoard();
      gameMode := None;
    }

    /** A new game in `mode`: the four discs of the opening in the centre. */
    method Init(mode: Difficulty)
      modifies this, board
      ensures gameMode == Some(mode) && board.pieces == START
    {
      gameMode := Some(mode);
      board.SetColorBits(Black, 34628173824);
      board.SetColorBits(White, 68853694464);
      SameColours(board.pieces, START);
    }

    /** The side with more discs on the board, or None on a draw. */
    method EndingScenarios() returns (winner: Option<Player>)
      ensures winner == Winner(board.pieces)
    {
      var scoreBlack := BitCount(board.GetColorBits(Black));
      var scoreWhite := BitCount(board.GetColorBits(White));
      if scoreBlack > scoreWhite {
        winner := Some(Black);
      } else if scoreBlack < scoreWhite {
        winner := Some(White);
      } else {
        winner := None;
      }
    }

    /** Moves of p on the current board, scanned direction by direction. */
    method AvailableMoves(p: Player) returns (validMoves: bv64)
      ensures validMoves == LegalMoves(board.pieces, p)
    {
      validMoves := 0;
      var playerPieces := board.GetColorBits(p);
      var opponentPieces := board.GetColorBits(CurrentOpponent(p));
      var emptySlots := board.EmptySlots();
      ghost var moves := MoveList(playerPieces, opponentPieces, emptySlots);
      for i := 0 to |ALL_DIRECTIONS|
        invariant validMoves == UnionOf(moves[..i])
      {
        MoveAt(i, playerPieces, opponentPieces, emptySlots);
        ShifterScans(ALL_DIRECTIONS[i]);
        validMoves := ScanDirection(Shifter(ALL_DIRECTIONS[i]), playerPieces, opponentPieces, emptySlots, validMoves);
        UnionPrefixStep(moves, i);
      }
      UnionWhole(moves);
    }

    /** Whether p may play the square whose bit is `position`. */
    method IsLegalMove(p: Player, position: bv64) returns (legal: bool)
      ensures legal == IsLegal(board.pieces, p, position)
    {
      var moves := AvailableMoves(p);
      legal := Meets(position, moves);
    }

    /**
     * Plays p's move at c if it is legal: the square and every bridge of
     * opponent discs it closes in turn to p. An illegal move changes nothing.
     */
    method PlayMove(p: Player, c: Coordinates) returns (status: GameStatus)
      modifies board
      ensures (status, board.pieces) == PlayOutcome(old(board.pieces), p, c)
    {
      ghost var before := board.pieces;
      var position := BitPosition(c);
      var legal := IsLegalMove(p, position);
      if legal {
        var currentOpponent := CurrentOpponent(p);
        var playerPieces := board.GetColorBits(p);
        var opponentPieces := board.GetColorBits(currentOpponent);
        assert playerPieces == Colour(before, p) && opponentPieces == Colour(before, currentOpponent);
        var bridgesMask := BridgesMask(position, playerPieces, opponentPieces);
        ghost var player0, opponent0 := playerPieces, opponentPieces;
        playerPieces := playerPieces | bridgesMask;
        opponentPieces := opponentPieces & !bridgesMask;
        board.SetColorBits(p, playerPieces);
        board.SetColorBits(currentOpponent, opponentPieces);
        OpponentInvolution(p);
        assert board.pieces == Arrange(p, playerPieces, opponentPieces) by {
          ArrangeColours(board.pieces, p);
        }
        LegalOutcome(before, p, c, bridgesMask, player0, opponent0, playerPieces, opponentPieces, board.pieces);
        status := Successful;
      } else {
        status := Failed;
      }
    }
    /**
     * The alpha-beta negamax on the board: each move of p is played, searched
     * one level deeper for the opponent with the window negated, and taken
     * back by copying the saved board over the played one. The board ends as
     * it started and the score is the one NegamaxScore defines.
     */
    method Negamax(depth: nat, p: Player, alpha: int, beta: int) returns (result: int)
      requires gameMode.Some? && gameMode.value != PVP
      modifies board
      ensures board.pieces == old(board.pieces)
      ensures result == NegamaxScore(gameMode.value, old(board.pieces), depth, p, alpha, beta)
      decreases depth
    {
      // The search is argued from the lemmas of Search alone.
      hide *;
      ghost var mode, pieces := gameMode.value, board.pieces;
      var currentOpponent := CurrentOpponent(p);
      var playerMoves := AvailableMoves(p);
      var opponentMoves := AvailableMoves(currentOpponent);
      OrZero(playerMoves, opponentMoves);
      NegamaxCases(mode, pieces, depth, p, alpha, beta);
      if depth == 0 || playerMoves | opponentMoves == 0 {
        LeafSigned(mode, pieces, p);
        return -1 * Label(p) * Evaluate(gameMode.value, board.pieces, currentOpponent);
      } else if playerMoves == 0 {
        var passed := Negamax(depth - 1, currentOpponent, -beta, -alpha);
        return -1 * passed;
      }
      var boardCopy := new BitBoard();
      BitBoard.CopyBoard(board, boardCopy);
      var score := NO_MOVE_SCORE;
      var moveIterator: bv64 := 1;
      var a := alpha;
      CursorStart(playerMoves);
      AmongSelf(playerMoves);
      ghost var moves := playerMoves;
      while playerMoves != 0
        invariant boardCopy != board && board.pieces == pieces && boardCopy.pieces == pieces
        invariant gameMode == Some(mode)
        invariant Aligned(playerMoves, moveIterator)
        invariant Among(Pending(playerMoves, moveIterator), moves)
        invariant BranchScore(mode, pieces, depth, p, Pending(playerMoves, moveIterator), score, a, beta)
               == NegamaxScore(mode, pieces, depth, p, alpha, beta)
        decreases BitCount(Pending(playerMoves, moveIterator))
      {
        ghost var remaining := Pending(playerMoves, moveIterator);
        ghost var it := moveIterator;
        var bitTrailingZeroCount;
        bitTrailingZeroCount, moveIterator := SkipToMove(playerMoves, moveIterator);
        NextInside(remaining);
        NextIsMove(remaining, moves);
        PlayNext(pieces, p, moveIterator);
        var _ := PlayMove(p, BoardPosition(moveIterator));
        var childScore := Negamax(depth - 1, currentOpponent, -beta, -a);
        BranchStep(mode, pieces, depth, p, remaining, score, a, beta, childScore);
        score := Max(score, childScore);
        a := Max(a, score);
        BitBoard.CopyBoard(boardCopy, board);
        playerMoves, moveIterator := StepPast(playerMoves, it, bitTrailingZeroCount, moveIterator);
        if a >= beta {
          return -beta;
        }
        RestInside(remaining, moves);
      }
      PendingNone(moveIterator);
      BranchDone(mode, pieces, depth, p, score, a, beta);
      return -1 * score;
    }

    /**
     * The computer's move: every move of p, lowest square first, is played
     * and scored by a negamax search to the depth of the difficulty, and the
     * first move with the highest score is kept. The board ends as it started.
     */
    method MostEvaluatedPlay(p: Player) returns (bestPlay: Move)
      requires gameMode.Some? && gameMode.value != PVP
      modifies board
      ensures board.pieces == old(board.pieces)
      ensures bestPlay == BestPlay(gameMode.value, old(board.pieces), p)
    {
      hide *;
      ghost var mode, pieces := gameMode.value, board.pieces;
      ChooseStart(mode, pieces, p);
      bestPlay := NewMove(0, 0);
      var playerMoves := AvailableMoves(p);
      var currentOpponent := CurrentOpponent(p);
      var boardCopy := new BitBoard();
      BitBoard.CopyBoard(board, boardCopy);
      var depth := Depth(gameMode.value);
      var moveIterator: bv64 := 1;
      CursorStart(playerMoves);
      AmongSelf(playerMoves);
      ghost var moves := playerMoves;
      while playerMoves != 0
        invariant boardCopy != board && board.pieces == pieces && boardCopy.pieces == pieces
        invariant gameMode == Some(mode) && depth == Depth(mode)
        invariant Aligned(playerMoves, moveIterator)
        invariant Among(Pending(playerMoves, moveIterator), moves)
        invariant ChoosePlay(mode, pieces, p, Pending(playerMoves, moveIterator), bestPlay) == BestPlay(mode, pieces, p)
        decreases BitCount(Pending(playerMoves, moveIterator))
      {
        ghost var remaining := Pending(playerMoves, moveIterator);
        ghost var it := moveIterator;
        var bitTrailingZeroCount;
        bitTrailingZeroCount, moveIterator := SkipToMove(playerMoves, moveIterator);
        NextInside(remaining);
        NextIsMove(remaining, moves);
        PlayNext(pieces, p, moveIterator);
        var potentialMove := BoardPosition(moveIterator);
        var _ := PlayMove(p, potentialMove);
        var searched := Negamax(depth, currentOpponent, NO_MOVE_SCORE, -bestPlay.score);
        var currentMoveScore := Label(p) * searched;
        ScanTurnIs(mode, pieces, p, remaining, bestPlay, currentMoveScore);
        ChooseUnfold(mode, pieces, p, remaining, bestPlay);
        if currentMoveScore > bestPlay.score {
          bestPlay := Move(potentialMove.y, potentialMove.x, currentMoveScore);
        }
        BitBoard.CopyBoard(boardCopy, board);
        playerMoves, moveIterator := StepPast(playerMoves, it, bitTrailingZeroCount, moveIterator);
        RestInside(remaining, moves);
      }
      PendingNone(moveIterator);
      ChooseDone(mode, pieces, p, bestPlay);
    }
  }

  /**
   * The first half of a turn of the search loops: numberOfTrailingZeros of
   * the pending moves, and the cursor moved up by as many places onto the
   * lowest pending move.
   */
  lemma CursorSkip(pm: bv64, it: bv64, t: bv8, square: bv64)
    requires pm != 0 && Aligned(pm, it)
    requires t == TrailingZeros(pm) && square == it << t
    ensures IsSingleBit(square) && square == NextSquare(Pending(pm, it))
  {
    var down := pm >> t;
    var next := down >> 1;
    CursorTurn(pm, it, t, square, down, next, square << 1);
  }

  lemma CursorAdvance(pm: bv64, it: bv64, square: bv64, nextPm: bv64, nextIt: bv64)
    requires IsSingleBit(square) && square == LowestBit(Pending(pm, it))
    requires Pending(nextPm, nextIt) == Pending(pm, it) & !square
    ensures Pending(nextPm, nextIt) == Rest(Pending(pm, it))
    ensures BitCount(Pending(nextPm, nextIt)) < BitCount(Pending(pm, it))
  {
    RestAfter(Pending(pm, it), square, Pending(nextPm, nextIt));
  }

  /** Taking the lowest square out of a set of squares leaves Rest, one square smaller. */
  lemma RestAfter(remaining: bv64, square: bv64, after: bv64)
    requires IsSingleBit(square) && square == LowestBit(remaining) && after == remaining & !square
    ensures after == Rest(remaining) && BitCount(after) < BitCount(remaining)
  {
    RestCount(remaining);
  }

  method SkipToMove(playerMoves: bv64, moveIterator: bv64) returns (bitTrailingZeroCount: bv8, cursor: bv64)
    requires playerMoves != 0 && Aligned(playerMoves, moveIterator)
    ensures Landed(playerMoves, moveIterator, bitTrailingZeroCount, cursor)
    ensures IsSingleBit(cursor) && cursor == NextSquare(Pending(playerMoves, moveIterator))
  {
    bitTrailingZeroCount := TrailingZeros(playerMoves);
    cursor := moveIterator << bitTrailingZeroCount;
    CursorSkip(playerMoves, moveIterator, bitTrailingZeroCount, cursor);
  }

  /**
   * The second half of a turn: the pending moves shifted down past the
   * played one and the cursor one place up, which leaves exactly the
   * moves not yet tried.
   */
  method StepPast(playerMoves: bv64, ghost moveIterator: bv64, bitTrailingZeroCount: bv8, cursor: bv64)
    returns (nextMoves: bv64, nextIterator: bv64)
    requires playerMoves != 0 && Aligned(playerMoves, moveIterator)
    requires Landed(playerMoves, moveIterator, bitTrailingZeroCount, cursor)
    ensures Aligned(nextMoves, nextIterator)
    ensures Pending(nextMoves, nextIterator) == Rest(Pending(playerMoves, moveIterator))
    ensures BitCount(Pending(nextMoves, nextIterator)) < BitCount(Pending(playerMoves, moveIterator))
  {
    nextMoves := playerMoves >> bitTrailingZeroCount;
    ghost var down := nextMoves;
    nextMoves := nextMoves >> 1;
    nextIterator := cursor << 1;
    CursorTurn(playerMoves, moveIterator, bitTrailingZeroCount, cursor, down, nextMoves, nextIterator);
    CursorAdvance(playerMoves, moveIterator, cursor, nextMoves, nextIterator);
  }

  /** A legal move's outcome: the board after the flip mask turns over. */
  lemma LegalOutcome(before: Pieces, p: Player, c: Coordinates, mask: bv64,
                     player: bv64, opponent: bv64, mine: bv64, theirs: bv64, after: Pieces)
    requires IsLegal(before, p, BitPosition(c))
    requires player == Colour(before, p) && opponent == Colour(before, CurrentOpponent(p))
    requires mask == FlipMask(BitPosition(c), player, opponent)
    requires mine == player | mask && theirs == opponent & !mask
    requires after == Arrange(p, mine, theirs)
    ensures PlayOutcome(before, p, c) == (Successful, after)
  {
    TurnedOver(before, p, mask, player, opponent, mine, theirs, after);
  }

  /** The colours p and the opponent end with make up the board TurnOver describes. */
  lemma TurnedOver(before: Pieces, p: Player, mask: bv64,
                   player: bv64, opponent: bv64, mine: bv64, theirs: bv64, after: Pieces)
    requires player == Colour(before, p) && opponent == Colour(before, CurrentOpponent(p))
    requires mine == player | mask && theirs == opponent & !mask
    requires after == Arrange(p, mine, theirs)
    ensures after == TurnOver(before, p, mask)
  {
  }

  /** The played square and every disc a move there flips, gathered direction by direction. */
  method BridgesMask(position: bv64, playerPieces: bv64, opponentPieces: bv64) returns (bridgesMask: bv64)
    ensures bridgesMask == FlipMask(position, playerPieces, opponentPieces)
  {
    ShiftersVanish(position);
    BridgesFromAll(position, playerPieces, opponentPieces);
    bridgesMask := CollectBridges(SHIFTERS, BridgeList(position, playerPieces, opponentPieces),
                                  position, playerPieces, opponentPieces);
  }

  /**
   * The direction loop of playMove, over the shifts of the eight
   * directions: the played square together with the bridge found along
   * each shift.
   */
  method CollectBridges(shifters: seq<BitShift>, ghost bridges: seq<bv64>,
                        position: bv64, playerPieces: bv64, opponentPieces: bv64)
    returns (bridgesMask: bv64)
    requires |bridges| == |shifters|
    requires forall k :: 0 <= k < |shifters| ==> Iterate(shifters[k], shifters[k](position), 8) == 0
    requires forall k :: 0 <= k < |shifters| ==> bridges[k] == BridgeAlong(shifters[k], position, playerPieces, opponentPieces)
    ensures bridgesMask == OrFrom(bridges, 0, position)
  {
    bridgesMask := position;
    for i := 0 to |shifters|
      invariant OrFrom(bridges, i, bridgesMask) == OrFrom(bridges, 0, position)
    {
      var bitBridge := BridgeDirection(shifters[i], position, playerPieces, opponentPieces);
      OrFromUnfold(bridges, i, bridgesMask, bitBridge, bridgesMask | bitBridge);
      bridgesMask := bridgesMask | bitBridge;
    }
  }

  /**
   * The inner loop of availableMoves for one direction: it follows runs of
   * opponent discs away from the player's discs and adds every empty square
   * that ends one to the moves found so far. It relies only on two facts
   * about the shift: it maps a subset to a subset, and eight shifts push
   * every square off the board.
   */
  method ScanDirection(shifter: BitShift, playerPieces: bv64, opponentPieces: bv64, emptySlots: bv64, acc: bv64)
    returns (validMoves: bv64)
    requires MonotoneShift(shifter) && Iterate(shifter, ALL_ONES, 8) == 0
    ensures validMoves == acc | MovesAlong(shifter, playerPieces, opponentPieces, emptySlots)
  {
    validMoves := acc;
    var potentialMoves := shifter(playerPieces) & opponentPieces;
    ghost var fuel: nat := 8;
    ghost var reach := shifter(ALL_ONES);
    SubsetStep(shifter, playerPieces, ALL_ONES, opponentPieces, potentialMoves, reach);
    while potentialMoves != 0
      invariant 1 <= fuel <= 8
      invariant reach == Iterate(shifter, ALL_ONES, 9 - fuel)
      invariant potentialMoves & reach == potentialMoves
      invariant ScanFrom(shifter, potentialMoves, opponentPieces, emptySlots, validMoves, fuel)
        == ScanFrom(shifter, shifter(playerPieces) & opponentPieces, opponentPieces, emptySlots, acc, 8)
      decreases fuel
    {
      ghost var found := validMoves;
      ghost var potential := potentialMoves;
      validMoves := validMoves | (shifter(potentialMoves) & emptySlots);
      potentialMoves := shifter(potentialMoves) & opponentPieces;
      ScanFromUnfold(shifter, potential, opponentPieces, emptySlots, found, fuel, validMoves, potentialMoves);
      SubsetStep(shifter, potential, reach, opponentPieces, potentialMoves, shifter(reach));
      reach := shifter(reach);
      fuel := fuel - 1;
    }
    ScanFromMoves(shifter, playerPieces, opponentPieces, emptySlots, acc);
  }

  /**
   * What the scan loop of availableMoves computes along `shift` from the
   * moves `acc` found so far, for at most `fuel` passes.
   */
  function ScanFrom(shift: BitShift, potential: bv64, opponent: bv64, empty: bv64, acc: bv64, fuel: nat): bv64
    decreases fuel
  {
    if fuel == 0 || potential == 0 then acc
    else ScanFrom(shift, shift(potential) & opponent, opponent, empty, acc | (shift(potential) & empty), fuel - 1)
  }

  /** The full scan adds exactly the moves along the shift. */
  lemma ScanFromMoves(shift: BitShift, player: bv64, opponent: bv64, empty: bv64, acc: bv64)
    ensures ScanFrom(shift, shift(player) & opponent, opponent, empty, acc, 8)
      == acc | MovesAlong(shift, player, opponent, empty)
  {
    ScanFromRunMoves(shift, shift(player) & opponent, opponent, empty, acc, 8);
  }

  /** Scanning with fuel adds exactly the moves the runs reach within that fuel. */
  lemma {:induction false} ScanFromRunMoves(shift: BitShift, potential: bv64, opponent: bv64, empty: bv64,
                                             acc: bv64, fuel: nat)
    ensures ScanFrom(shift, potential, opponent, empty, acc, fuel)
      == acc | RunMoves(shift, potential, opponent, empty, fuel)
    decreases fuel, 1
  {
    if fuel > 0 && potential != 0 {
      ScanInduct(shift, potential, opponent, empty, acc, fuel,
                 acc | (shift(potential) & empty), shift(potential) & opponent);
    }
  }

  lemma {:induction false} ScanInduct(shift: BitShift, potential: bv64, opponent: bv64, empty: bv64, acc: bv64,
                                       fuel: nat, nextAcc: bv64, next: bv64)
    requires fuel > 0 && potential != 0
    requires nextAcc == acc | (shift(potential) & empty)
    requires next == shift(potential) & opponent
    ensures ScanFrom(shift, potential, opponent, empty, acc, fuel)
      == acc | RunMoves(shift, potential, opponent, empty, fuel)
    decreases fuel, 0
  {
    ScanFromRunMoves(shift, next, opponent, empty, nextAcc, fuel - 1);
    ScanFromUnfold(shift, potential, opponent, empty, acc, fuel, nextAcc, next);
    ScanStep(shift, potential, opponent, empty, acc, fuel, nextAcc, next);
  }

  /** One pass of the scan loop, with the accumulated and the remaining runs named. */
  lemma {:induction false} ScanFromUnfold(shift: BitShift, potential: bv64, opponent: bv64, empty: bv64, acc: bv64,
                                           fuel: nat, nextAcc: bv64, next: bv64)
    requires fuel > 0 && potential != 0
    requires nextAcc == acc | (shift(potential) & empty)
    requires next == shift(potential) & opponent
    ensures ScanFrom(shift, potential, opponent, empty, acc, fuel)
      == ScanFrom(shift, next, opponent, empty, nextAcc, fuel - 1)
  {
  }

  /**
   * The bridge search of playMove in one direction: the run of opponent
   * discs next to `position` is collected while it lasts and kept only if
   * the square after it holds one of the mover's discs.
   */
  method BridgeDirection(shifter: BitShift, position: bv64, playerPieces: bv64, opponentPieces: bv64)
    returns (bitBridge: bv64)
    requires Iterate(shifter, shifter(position), 8) == 0
    ensures bitBridge == BridgeAlong(shifter, position, playerPieces, opponentPieces)
  {
    var bitIterator := shifter(position);
    bitBridge := 0;
    if Within(bitIterator, opponentPieces) {
      ghost var start := bitIterator;
      bitIterator, bitBridge := CollectRun(shifter, bitIterator, opponentPieces);
      BridgeEnd(shifter, position, playerPieces, opponentPieces, start, bitIterator, bitBridge);
      if !Within(bitIterator, playerPieces) {
        bitBridge := 0;
      }
    } else {
      BridgeMissing(shifter, position, playerPieces, opponentPieces, bitIterator);
    }
  }

  /**
   * The do-while loop of playMove's bridge search, entered with its guard
   * true: it collects opponent discs along the shift while they last.
   */
  method CollectRun(shifter: BitShift, start: bv64, opponentPieces: bv64) returns (bitIterator: bv64, bitBridge: bv64)
    requires Iterate(shifter, start, 8) == 0
    ensures Walk(bitBridge, bitIterator) == WalkFrom(shifter, start, opponentPieces, 0, 8)
    ensures !Within(bitIterator, opponentPieces)
  {
    bitIterator, bitBridge := start, 0;
    ghost var fuel: nat := 8;
    while Within(bitIterator, opponentPieces)
      invariant fuel <= 8 && Iterate(shifter, bitIterator, fuel) == 0
      invariant WalkFrom(shifter, bitIterator, opponentPieces, bitBridge, fuel)
        == WalkFrom(shifter, start, opponentPieces, 0, 8)
      decreases fuel
    {
      ghost var cursor, found := bitIterator, bitBridge;
      bitBridge := bitBridge | bitIterator;
      bitIterator := shifter(bitIterator);
      BridgeLoopStep(shifter, opponentPieces, cursor, found, fuel, bitIterator, bitBridge);
      fuel := fuel - 1;
    }
    WalkStops(shifter, bitIterator, opponentPieces, bitBridge, fuel);
  }

  /** The loop that no longer finds an opponent disc stops where it is. */
  lemma WalkStops(shift: BitShift, cursor: bv64, opponent: bv64, acc: bv64, fuel: nat)
    requires !Within(cursor, opponent)
    ensures WalkFrom(shift, cursor, opponent, acc, fuel) == Walk(acc, cursor)
  {
  }

  /** Where the bridge loop stops: the discs it collected and the square it stopped on. */
  datatype Walk = Walk(collected: bv64, end: bv64)

  /**
   * The bridge loop of playMove from `cursor` on, on top of the discs
   * `acc` collected so far, for at most `fuel` steps.
   */
  function WalkFrom(shift: BitShift, cursor: bv64, opponent: bv64, acc: bv64, fuel: nat): Walk
    decreases fuel
  {
    if fuel > 0 && Within(cursor, opponent) then WalkFrom(shift, shift(cursor), opponent, acc | cursor, fuel - 1)
    else Walk(acc, cursor)
  }

  /** The bridge loop collects the run that Span describes and stops where RunEnd says. */
  lemma {:induction false} WalkFromSpan(shift: BitShift, cursor: bv64, opponent: bv64, acc: bv64, fuel: nat)
    ensures WalkFrom(shift, cursor, opponent, acc, fuel)
      == Walk(acc | Span(shift, cursor, opponent, fuel), RunEnd(shift, cursor, opponent, fuel))
    decreases fuel, 1
  {
    if fuel > 0 && Within(cursor, opponent) {
      WalkInduct(shift, cursor, opponent, acc, fuel, acc | cursor, shift(cursor));
    }
  }

  lemma {:induction false} WalkInduct(shift: BitShift, cursor: bv64, opponent: bv64, acc: bv64, fuel: nat,
                                       nextAcc: bv64, next: bv64)
    requires fuel > 0 && Within(cursor, opponent)
    requires nextAcc == acc | cursor && next == shift(cursor)
    ensures WalkFrom(shift, cursor, opponent, acc, fuel)
      == Walk(acc | Span(shift, cursor, opponent, fuel), RunEnd(shift, cursor, opponent, fuel))
    decreases fuel, 0
  {
    WalkFromSpan(shift, next, opponent, nextAcc, fuel - 1);
    WalkUnfold(shift, cursor, opponent, acc, fuel, nextAcc, next);
    SpanStep(shift, cursor, opponent, acc, fuel, nextAcc, next);
  }

  /** One step of the bridge loop, with the collected discs and the next square named. */
  lemma {:induction false} WalkUnfold(shift: BitShift, cursor: bv64, opponent: bv64, acc: bv64, fuel: nat,
                                       nextAcc: bv64, next: bv64)
    ensures fuel > 0 && Within(cursor, opponent) && nextAcc == acc | cursor && next == shift(cursor) ==>
      WalkFrom(shift, cursor, opponent, acc, fuel) == WalkFrom(shift, next, opponent, nextAcc, fuel - 1) &&
      RunEnd(shift, cursor, opponent, fuel) == RunEnd(shift, next, opponent, fuel - 1)
  {
  }

  /** Collecting one square moves it from the run into the collected discs. */
  lemma {:induction false} SpanStep(shift: BitShift, cursor: bv64, opponent: bv64, acc: bv64, fuel: nat,
                                     nextAcc: bv64, next: bv64)
    ensures fuel > 0 && Within(cursor, opponent) && nextAcc == acc | cursor && next == shift(cursor) ==>
      nextAcc | Span(shift, next, opponent, fuel - 1) == acc | Span(shift, cursor, opponent, fuel)
  {
  }

  /** One pass of the bridge loop keeps all of its invariants. */
  lemma BridgeLoopStep(shift: BitShift, opponent: bv64, cursor: bv64, acc: bv64, fuel: nat,
                       next: bv64, nextAcc: bv64)
    requires Iterate(shift, cursor, fuel) == 0 && Within(cursor, opponent)
    requires nextAcc == acc | cursor && next == shift(cursor)
    ensures 1 <= fuel && Iterate(shift, next, fuel - 1) == 0
    ensures WalkFrom(shift, cursor, opponent, acc, fuel) == WalkFrom(shift, next, opponent, nextAcc, fuel - 1)
  {
    if fuel > 0 {
      IterateShifted(shift, cursor, fuel - 1);
    }
    WalkUnfold(shift, cursor, opponent, acc, fuel, nextAcc, next);
  }

  /** Shifting first and then n times is shifting n + 1 times. */
  lemma {:induction false} IterateShifted(shift: BitShift, x: bv64, n: nat)
    ensures Iterate(shift, shift(x), n) == Iterate(shift, x, n + 1)
    decreases n
  {
    if n > 0 {
      IterateShifted(shift, x, n - 1);
    }
  }

  /**
   * When the loop stops, the square it stopped on ends the run, and what
   * it collected is the bridge if that square holds a mover's disc.
   */
  lemma BridgeEnd(shift: BitShift, position: bv64, player: bv64, opponent: bv64, start: bv64,
                  end: bv64, collected: bv64)
    ensures start == shift(position) && Walk(collected, end) == WalkFrom(shift, start, opponent, 0, 8)
      ==> BridgeAlong(shift, position, player, opponent) == if Within(end, player) then collected else 0
  {
    WalkFromSpan(shift, start, opponent, 0, 8);
  }

  /** A move with no opponent disc next to it bridges nothing in that direction. */
  lemma BridgeMissing(shift: BitShift, position: bv64, player: bv64, opponent: bv64, start: bv64)
    requires start == shift(position)
    requires !Within(start, opponent)
    ensures BridgeAlong(shift, position, player, opponent) == 0
  {
  }

  /** The shift maps every subset of a mask to a subset of the mask's image. */
  ghost predicate MonotoneShift(shift: BitShift)
  {
    forall a: bv64, b: bv64 {:trigger MonotoneAt(shift, a, b)} :: MonotoneAt(shift, a, b)
  }

  /** x shifted n times. */
  function Iterate(shift: BitShift, x: bv64, n: nat): bv64
  {
    if n == 0 then x else shift(Iterate(shift, x, n - 1))
  }

  /** Every board shift meets the two demands of ScanDirection. */
  lemma ShifterScans(d: Direction)
    ensures MonotoneShift(Shifter(d)) && Iterate(Shifter(d), ALL_ONES, 8) == 0
  {
    forall a: bv64, b: bv64
      ensures MonotoneAt(Shifter(d), a, b)
    {
      AllMonotone(d, a, b);
    }
    IterateShiftN(d, ALL_ONES, 8);
    EightShiftsVanish(d, ALL_ONES);
  }

  lemma {:induction false} IterateShiftN(d: Direction, x: bv64, n: nat)
    ensures Iterate(Shifter(d), x, n) == ShiftN(d, x, n)
  {
    if n > 0 {
      IterateShiftN(d, x, n - 1);
    }
  }

  /**
   * One pass of the scan: what it adds to the accumulated moves and what
   * it leaves to scan together still make up the same total.
   */
  lemma {:induction false} ScanStep(shift: BitShift, potential: bv64, opponent: bv64, empty: bv64, acc: bv64, fuel: nat,
                 nextAcc: bv64, next: bv64)
    requires fuel > 0 && potential != 0
    requires nextAcc == acc | (shift(potential) & empty)
    requires next == shift(potential) & opponent
    ensures nextAcc | RunMoves(shift, next, opponent, empty, fuel - 1)
      == acc | RunMoves(shift, potential, opponent, empty, fuel)
  {
  }

  /** Shifting a subset and masking it keeps it inside the shifted whole. */
  lemma SubsetStep(shift: BitShift, potential: bv64, reach: bv64, opponent: bv64, next: bv64, nextReach: bv64)
    requires MonotoneShift(shift)
    requires potential & reach == potential
    requires next == shift(potential) & opponent && nextReach == shift(reach)
    ensures next & nextReach == next
  {
    assert MonotoneAt(shift, potential, reach);
  }

  /** The mask `acc` with the masks from the i-th on added, one at a time. */
  function OrFrom(masks: seq<bv64>, i: nat, acc: bv64): bv64
    decreases |masks| - i
  {
    if i >= |masks| then acc else OrFrom(masks, i + 1, acc | masks[i])
  }

  /** One pass of a loop that adds the i-th mask, with the mask and the new value named. */
  lemma OrFromUnfold(masks: seq<bv64>, i: nat, acc: bv64, mask: bv64, next: bv64)
    ensures i < |masks| && mask == masks[i] && next == acc | mask
      ==> OrFrom(masks, i, acc) == OrFrom(masks, i + 1, next)
  {
  }

  /** The union of the first i masks, counted from the front. */
  function UnionBefore(masks: seq<bv64>, i: nat): bv64
    requires i <= |masks|
  {
    if i == 0 then 0 else UnionBefore(masks, i - 1) | masks[i - 1]
  }

  /** Adding the masks from the i-th on to the union of those before it gives the union of all. */
  lemma {:induction false} OrFromUnion(masks: seq<bv64>, i: nat, base: bv64, acc: bv64)
    requires i <= |masks| && acc == base | UnionBefore(masks, i)
    ensures OrFrom(masks, i, acc) == base | UnionBefore(masks, |masks|)
    decreases |masks| - i, 1
  {
    if i < |masks| {
      OrFromUnionStep(masks, i, base, acc);
    } else {
      OrFromUnionEnd(masks, i, base, acc);
    }
  }

  lemma {:induction false} OrFromUnionStep(masks: seq<bv64>, i: nat, base: bv64, acc: bv64)
    requires i < |masks| && acc == base | UnionBefore(masks, i)
    ensures OrFrom(masks, i, acc) == base | UnionBefore(masks, |masks|)
    decreases |masks| - i, 0
  {
    var next := acc | masks[i];
    UnionGrows(masks, i, base, acc, next);
    OrFromUnion(masks, i + 1, base, next);
    OrFromPasses(masks, i, base, acc, next);
  }

  lemma OrFromUnionEnd(masks: seq<bv64>, i: nat, base: bv64, acc: bv64)
    requires i == |masks| && acc == base | UnionBefore(masks, i)
    ensures OrFrom(masks, i, acc) == base | UnionBefore(masks, |masks|)
  {
  }

  lemma UnionGrows(masks: seq<bv64>, i: nat, base: bv64, acc: bv64, next: bv64)
    requires i < |masks| && acc == base | UnionBefore(masks, i) && next == acc | masks[i]
    ensures next == base | UnionBefore(masks, i + 1)
  {
    UnionBeforeStep(masks, i, base, acc, next);
  }

  lemma OrFromPasses(masks: seq<bv64>, i: nat, base: bv64, acc: bv64, next: bv64)
    requires i < |masks| && next == acc | masks[i]
    requires OrFrom(masks, i + 1, next) == base | UnionBefore(masks, |masks|)
    ensures OrFrom(masks, i, acc) == base | UnionBefore(masks, |masks|)
  {
    OrFromUnfold(masks, i, acc, masks[i], next);
  }

  /** One more mask in the union, with the old and the new value named. */
  lemma UnionBeforeStep(masks: seq<bv64>, i: nat, base: bv64, acc: bv64, next: bv64)
    ensures i < |masks| && acc == base | UnionBefore(masks, i) && next == acc | masks[i]
      ==> next == base | UnionBefore(masks, i + 1)
  {
  }

  /** Counted from the front or from the back, the union of a prefix is the same. */
  lemma {:induction false} UnionBeforePrefix(masks: seq<bv64>, i: nat)
    requires i <= |masks|
    ensures UnionBefore(masks, i) == UnionOf(masks[..i])
    decreases i
  {
    if i > 0 {
      UnionBeforePrefix(masks, i - 1);
      UnionPrefixStep(masks, i - 1);
    }
  }

  /** The shifts of the eight directions, in the order of ALL_DIRECTIONS. */
  const SHIFTERS: seq<BitShift> := seq(|ALL_DIRECTIONS|, j requires 0 <= j < |ALL_DIRECTIONS| => Shifter(ALL_DIRECTIONS[j]))

  /** Eight steps along any of the eight shifts leave the board. */
  lemma ShiftersVanish(position: bv64)
    ensures forall k :: 0 <= k < |SHIFTERS| ==> Iterate(SHIFTERS[k], SHIFTERS[k](position), 8) == 0
  {
    forall k | 0 <= k < |SHIFTERS|
      ensures Iterate(SHIFTERS[k], SHIFTERS[k](position), 8) == 0
    {
      ShifterVanishes(ALL_DIRECTIONS[k], Shifter(ALL_DIRECTIONS[k])(position));
    }
  }

  /**
   * The listed bridges are the bridges along the eight shifts, and adding
   * them to the played square one at a time gives the flip mask of the move.
   */
  lemma BridgesFromAll(position: bv64, player: bv64, opponent: bv64)
    ensures |BridgeList(position, player, opponent)| == |SHIFTERS|
    ensures forall k :: 0 <= k < |SHIFTERS| ==>
      BridgeList(position, player, opponent)[k] == BridgeAlong(SHIFTERS[k], position, player, opponent)
    ensures OrFrom(BridgeList(position, player, opponent), 0, position) == FlipMask(position, player, opponent)
  {
    var bridges := BridgeList(position, player, opponent);
    forall k | 0 <= k < |SHIFTERS|
      ensures bridges[k] == BridgeAlong(SHIFTERS[k], position, player, opponent)
    {
      BridgeListShifter(k, position, player, opponent, bridges);
    }
    OrFromWhole(bridges, position);
  }

  /** Adding every listed mask to base, one at a time, gives base and the union of the list. */
  lemma OrFromWhole(masks: seq<bv64>, base: bv64)
    ensures OrFrom(masks, 0, base) == base | UnionOf(masks)
  {
    OrFromUnion(masks, 0, base, base);
    UnionBeforeWhole(masks);
  }

  /** Counted from the front, the union of the whole list is its union. */
  lemma UnionBeforeWhole(masks: seq<bv64>)
    ensures UnionBefore(masks, |masks|) == UnionOf(masks)
  {
    if |masks| > 0 {
      UnionBeforePrefix(masks, |masks| - 1);
    }
  }

  /** The i-th listed bridge is the bridge along the i-th shift. */
  lemma BridgeListShifter(i: nat, position: bv64, player: bv64, opponent: bv64, bridges: seq<bv64>)
    requires i < |SHIFTERS| && bridges == BridgeList(position, player, opponent)
    ensures i < |bridges| && bridges[i] == BridgeAlong(SHIFTERS[i], position, player, opponent)
  {
  }

  /** Eight board shifts clear any mask. */
  lemma ShifterVanishes(d: Direction, x: bv64)
    ensures Iterate(Shifter(d), x, 8) == 0
  {
    IterateShiftN(d, x, 8);
    EightShiftsVanish(d, x);
  }
}

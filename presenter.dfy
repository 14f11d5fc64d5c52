/**
 * The presenter: it starts a game with Black to move and plays one turn at
 * a time for the side to move, either the square the person chose or the
 * computer's best square, and reports what happened: a refused move, a
 * move after which the opponent plays, a move after which the opponent
 * has to pass, or the end of the game with its winner.
 */
module Presenters {
  import opened Bits
  import opened Types
  import opened Players
  import opened BitBoards
  import opened Rules
  import opened Search
  import opened Openings
  import opened Models

  /**
   * What a turn reports: its status, a player (the side to move next, the
   * side that has to pass, or the winner) and the board after the move.
   * A refused move reports neither a player nor a board.
   */
  datatype Information = Information(status: GameStatus, player: Option<Player>, board: Option<Pieces>)

  /** The square played: the one given, or the computer's best one. */
  function ChosenSquare(mode: Difficulty, pieces: Pieces, current: Player, coordinates: Option<Coordinates>): Coordinates
    requires coordinates.None? ==> mode != PVP
  {
    match coordinates
    case Some(c) => c
    case None => BestPlay(mode, pieces, current).Square()
  }

  /**
   * One turn of `current` at square c on `pieces`: the report, the side to
   * move afterwards and the board afterwards.
   */
  function Turn(pieces: Pieces, current: Player, c: Coordinates): (Information, Player, Pieces)
  {
    var (status, after) := PlayOutcome(pieces, current, c);
    if status == Failed then (Information(Failed, None, None), current, after)
    else
      var opponent := CurrentOpponent(current);
      var mine := LegalMoves(after, current);
      var theirs := LegalMoves(after, opponent);
      if mine | theirs == 0 then (Information(Ended, Winner(after), Some(after)), current, after)
      else if theirs == 0 then (Information(Skipped, Some(opponent), Some(after)), current, after)
      else (Information(Successful, Some(opponent), Some(after)), opponent, after)
  }

  /** A game in progress: the colours never share a square and the side to move has a move. */
  predicate InPlay(pieces: Pieces, current: Player)
  {
    Disjoint(pieces) && LegalMoves(pieces, current) != 0
  }

  class Presenter {
    const model: Model
    var currentPlayer: Player

    /** A presenter over a fresh model: empty board, no game mode yet. */
    constructor()
      ensures fresh(model) && fresh(model.board)
      ensures model.board.pieces == NO_PIECES && model.gameMode == None
      ensures currentPlayer == Black
    {
      model := new Model();
      currentPlayer := Black;
    }

    /** A new game in `mode`: the opening board, with Black to move. */
    method StartGame(mode: Difficulty) returns (info: Information)
      modifies this, model, model.board
      ensures currentPlayer == Black
      ensures model.gameMode == Some(mode) && model.board.pieces == START
      ensures info == Information(Successful, Some(Black), Some(START))
    {
      currentPlayer := Black;
      model.Init(mode);
      var board := model.board.pieces;
      info := Information(Successful, Some(currentPlayer), Some(board));
    }

    /**
     * One turn of the side to move, at the given square or, with none
     * given, at the computer's choice: the report, the side to move next
     * and the board are those of Turn.
     */
    method PlayerTurn(coordinates: Option<Coordinates>) returns (info: Information)
      requires model.gameMode.Some?
      requires coordinates.None? ==> model.gameMode.value != PVP
      modifies this, model.board
      ensures model.gameMode == old(model.gameMode)
      ensures (info, currentPlayer, model.board.pieces)
           == Turn(old(model.board.pieces), old(currentPlayer),
                   ChosenSquare(model.gameMode.value, old(model.board.pieces), old(currentPlayer), coordinates))
    {
      // The turn is argued from the contracts of the model and the lemmas below.
      hide *;
      ghost var before, mover := model.board.pieces, currentPlayer;
      var c: Coordinates;
      if coordinates.None? {
        var best := model.MostEvaluatedPlay(currentPlayer);
        c := best.Square();
        ChosenBest(model.gameMode.value, before, mover);
      } else {
        c := coordinates.value;
        ChosenGiven(model.gameMode.value, before, mover, c);
      }
      var status := model.PlayMove(currentPlayer, c);
      if status == Failed {
        TurnFailed(before, mover, c);
        return Information(Failed, None, None);
      }
      var opponent := CurrentOpponent(currentPlayer);
      var board := model.board.pieces;
      var availablePlayer := model.AvailableMoves(currentPlayer);
      var availableOpponent := model.AvailableMoves(opponent);
      TurnPlayed(before, mover, c);
      if availablePlayer | availableOpponent == 0 {
        var winner := model.EndingScenarios();
        return Information(Ended, winner, Some(board));
      }
      if availableOpponent == 0 {
        return Information(Skipped, Some(opponent), Some(board));
      }
      currentPlayer := opponent;
      return Information(Successful, Some(currentPlayer), Some(board));
    }
  }

  lemma ChosenBest(mode: Difficulty, pieces: Pieces, current: Player)
    requires mode != PVP
    ensures ChosenSquare(mode, pieces, current, None) == BestPlay(mode, pieces, current).Square()
  {
  }

  lemma ChosenGiven(mode: Difficulty, pieces: Pieces, current: Player, c: Coordinates)
    ensures ChosenSquare(mode, pieces, current, Some(c)) == c
  {
  }

  /** A refused move reports Failed and leaves the board and the side to move as they were. */
  lemma TurnFailed(pieces: Pieces, current: Player, c: Coordinates)
    requires PlayOutcome(pieces, current, c).0 == Failed
    ensures PlayOutcome(pieces, current, c).1 == pieces
    ensures Turn(pieces, current, c) == (Information(Failed, None, None), current, pieces)
  {
    OutcomeCases(pieces, current, c);
  }

  /** An accepted move: the three outcomes, decided by who can move on the new board. */
  lemma TurnPlayed(pieces: Pieces, current: Player, c: Coordinates)
    requires PlayOutcome(pieces, current, c).0 != Failed
    ensures var after := PlayOutcome(pieces, current, c).1;
            var mine := LegalMoves(after, current);
            var theirs := LegalMoves(after, CurrentOpponent(current));
            && (mine | theirs == 0 ==>
                  Turn(pieces, current, c) == (Information(Ended, Winner(after), Some(after)), current, after))
            && (mine | theirs != 0 && theirs == 0 ==>
                  Turn(pieces, current, c)
                  == (Information(Skipped, Some(CurrentOpponent(current)), Some(after)), current, after))
            && (theirs != 0 ==>
                  Turn(pieces, current, c)
                  == (Information(Successful, Some(CurrentOpponent(current)), Some(after)), CurrentOpponent(current), after))
  {
  }

  // -----------------------------------------------------------------------
  // The game flow the presenter keeps

  /** The opening is a game in progress with Black, who moves first, able to move. */
  lemma StartInPlay()
    ensures InPlay(START, Black)
  {
    StartShape();
    StartMovesBlack();
  }

  /** A turn is refused exactly when the square is not a legal move of the side to move. */
  lemma TurnRefused(pieces: Pieces, current: Player, c: Coordinates)
    ensures Turn(pieces, current, c).0.status == Failed <==> !IsLegal(pieces, current, BitPosition(c))
  {
    OutcomeCases(pieces, current, c);
  }

  /**
   * Who moves after a turn: a refused turn changes neither the board nor
   * the side to move; a pass leaves the same side to move, the opponent
   * having no move; otherwise the opponent moves next.
   */
  lemma TurnNextPlayer(pieces: Pieces, current: Player, c: Coordinates)
    ensures Turn(pieces, current, c).0.status == Failed ==>
              Turn(pieces, current, c).1 == current && Turn(pieces, current, c).2 == pieces
    ensures Turn(pieces, current, c).0.status == Skipped ==>
              Turn(pieces, current, c).1 == current
              && LegalMoves(Turn(pieces, current, c).2, CurrentOpponent(current)) == 0
              && LegalMoves(Turn(pieces, current, c).2, current) != 0
    ensures Turn(pieces, current, c).0.status == Successful ==>
              Turn(pieces, current, c).1 == CurrentOpponent(current)
              && LegalMoves(Turn(pieces, current, c).2, CurrentOpponent(current)) != 0
  {
    hide *;
    if PlayOutcome(pieces, current, c).0 == Failed {
      TurnFailed(pieces, current, c);
    } else {
      TurnPlayed(pieces, current, c);
      var after := PlayOutcome(pieces, current, c).1;
      OrZero(LegalMoves(after, current), LegalMoves(after, CurrentOpponent(current)));
    }
  }

  /** On a board whose colours never share a square, an accepted turn adds one disc and keeps them apart. */
  lemma TurnAddsDisc(pieces: Pieces, current: Player, c: Coordinates)
    requires Disjoint(pieces)
    ensures Disjoint(Turn(pieces, current, c).2)
    ensures Turn(pieces, current, c).0.status != Failed ==>
              BitCount(Occupied(Turn(pieces, current, c).2)) == BitCount(Occupied(pieces)) + 1
  {
    hide *;
    PlayEffects(pieces, current, c);
    OutcomeCases(pieces, current, c);
    var status, after := PlayOutcome(pieces, current, c).0, PlayOutcome(pieces, current, c).1;
    EffectsOf(pieces, current, BitPosition(c), status, after);
    if status == Failed {
      TurnFailed(pieces, current, c);
    } else {
      TurnPlayed(pieces, current, c);
      TurnBoard(pieces, current, c);
    }
  }

  /** Unless the turn ended the game, the game is still in progress after it. */
  lemma TurnKeepsInPlay(pieces: Pieces, current: Player, c: Coordinates)
    requires InPlay(pieces, current)
    ensures Turn(pieces, current, c).0.status != Ended ==>
              InPlay(Turn(pieces, current, c).2, Turn(pieces, current, c).1)
  {
    hide *;
    InPlayParts(pieces, current);
    TurnAddsDisc(pieces, current, c);
    TurnNextPlayer(pieces, current, c);
    var t := Turn(pieces, current, c);
    if t.0.status == Failed || t.0.status == Skipped || t.0.status == Successful {
      InPlayOf(t.2, t.1);
    }
  }

  /** The board an accepted turn leaves is the board PlayOutcome gives. */
  lemma TurnBoard(pieces: Pieces, current: Player, c: Coordinates)
    ensures Turn(pieces, current, c).2 == PlayOutcome(pieces, current, c).1
  {
  }

  /**
   * A turn ends the game exactly when, after an accepted move, neither side
   * has a move; the report then names the side with more discs, or no one
   * on a draw.
   */
  lemma TurnEnds(pieces: Pieces, current: Player, c: Coordinates)
    ensures Turn(pieces, current, c).0.status == Ended <==>
              && Turn(pieces, current, c).0.status != Failed
              && LegalMoves(Turn(pieces, current, c).2, current) == 0
              && LegalMoves(Turn(pieces, current, c).2, CurrentOpponent(current)) == 0
    ensures Turn(pieces, current, c).0.status == Ended ==>
              Turn(pieces, current, c).0.player == Winner(Turn(pieces, current, c).2)
  {
    hide *;
    OutcomeCases(pieces, current, c);
    if PlayOutcome(pieces, current, c).0 == Failed {
      TurnFailed(pieces, current, c);
    } else {
      TurnPlayed(pieces, current, c);
      var after := PlayOutcome(pieces, current, c).1;
      OrZero(LegalMoves(after, current), LegalMoves(after, CurrentOpponent(current)));
    }
  }

  lemma InPlayParts(pieces: Pieces, p: Player)
    requires InPlay(pieces, p)
    ensures Disjoint(pieces) && LegalMoves(pieces, p) != 0
  {
  }

  lemma InPlayOf(pieces: Pieces, p: Player)
    requires Disjoint(pieces) && LegalMoves(pieces, p) != 0
    ensures InPlay(pieces, p)
  {
  }

  lemma EffectsOf(pieces: Pieces, p: Player, position: bv64, status: GameStatus, after: Pieces)
    requires MoveEffects(pieces, p, position, status, after)
    ensures Disjoint(after)
    ensures status == Failed ==> after == pieces
    ensures status == Successful ==> BitCount(Occupied(after)) == BitCount(Occupied(pieces)) + 1
  {
  }

  /**
   * The computer's move is never refused when the side to move has a
   * move: the square it picks is a legal one.
   */
  lemma ComputerTurnAccepted(mode: Difficulty, pieces: Pieces, current: Player)
    requires mode != PVP && LegalMoves(pieces, current) != 0
    ensures Turn(pieces, current, ChosenSquare(mode, pieces, current, None)).0.status != Failed
  {
    BestPlayLegal(mode, pieces, current);
    TurnRefused(pieces, current, ChosenSquare(mode, pieces, current, None));
  }
}

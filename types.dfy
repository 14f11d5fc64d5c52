/**
 * Plain data of the game: the difficulty levels with their search depths,
 * the status codes returned to the caller, board coordinates and the move
 * record produced by the best-move search.
 */
module Types {

  /** A value that may be absent (Java's null). */
  datatype Option<+T> = None | Some(value: T)

  /** Game mode: player-versus-player, or one of three AI levels. */
  datatype Difficulty = PVP | Beginner | Intermediate | Hardcore

  /** Search depth configured for each difficulty. */
  function Depth(mode: Difficulty): nat
  {
    match mode
    case PVP => 0
    case Beginner => 4
    case Intermediate => 8
    case Hardcore => 12
  }

  /** Outcome of a move as reported to the caller. */
  datatype GameStatus = Successful | Failed | Skipped | Ended

  /** A board square: row `y` and column `x`, both 1..8 on the board. */
  datatype Coordinates = Coordinates(y: int, x: int)

  predicate OnBoard(c: Coordinates)
  {
    1 <= c.y <= 8 && 1 <= c.x <= 8
  }

  /** Score of a move nobody has evaluated yet. */
  const NO_MOVE_SCORE: int := -1000

  /** A square together with its search score. */
  datatype Move = Move(y: int, x: int, score: int)
  {
    /** The square of the move. */
    function Square(): Coordinates
    {
      Coordinates(y, x)
    }
  }

  /** A fresh move at (y, x) carries the sentinel score. */
  function NewMove(y: int, x: int): (m: Move)
    ensures m.Square() == Coordinates(y, x) && m.score == NO_MOVE_SCORE
  {
    Move(y, x, NO_MOVE_SCORE)
  }
}

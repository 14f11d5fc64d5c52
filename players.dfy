/** The two colours and the score sign each carries. */
module Players {

  datatype Player = Black | White

  /** Sign the search uses to read a score from this player's side. */
  function Label(p: Player): (sign: int)
    ensures sign == 1 || sign == -1
    ensures sign == 1 <==> p == Black
  {
    match p
    case Black => 1
    case White => -1
  }

  /** Character used to draw this player's discs. */
  function Icon(p: Player): char
  {
    match p
    case Black => 'X'
    case White => 'O'
  }

  /** The other colour; it always has the opposite label. */
  function CurrentOpponent(p: Player): (q: Player)
    ensures q != p
    ensures Label(q) == -Label(p)
  {
    match p
    case Black => White
    case White => Black
  }

  lemma OpponentInvolution(p: Player)
    ensures CurrentOpponent(CurrentOpponent(p)) == p
  {
  }
}

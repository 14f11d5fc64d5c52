/**
 * The board: one 64-bit mask per colour, and the codec between board
 * coordinates and bit positions. Square (y, x) lives at bit
 * 8*(y-1) + (8-x), so row 1 is the low byte and column 8 is bit 0 of a row.
 */
module BitBoards {
  import opened Bits
  import opened BitShifters
  import opened Types
  import opened Players

  /** The colour masks, one for each player. */
  type Pieces = m: map<Player, bv64> | Black in m && White in m
    witness map[Black := 0, White := 0]

  /** A board with no discs. */
  const NO_PIECES: Pieces := map[Black := 0, White := 0]

  /** The mask of player p's discs. */
  function Colour(pieces: Pieces, p: Player): bv64
  {
    match p
    case Black => pieces[Black]
    case White => pieces[White]
  }

  /** The board on which p holds `mine` and p's opponent holds `theirs`. */
  function Arrange(p: Player, mine: bv64, theirs: bv64): (pieces: Pieces)
    ensures Colour(pieces, p) == mine && Colour(pieces, CurrentOpponent(p)) == theirs
  {
    match p
    case Black => map[Black := mine, White := theirs]
    case White => map[Black := theirs, White := mine]
  }

  /** A mutable board holding the two colour masks. */
  class BitBoard {
    var pieces: Pieces

    /** An empty board. */
    constructor()
      ensures pieces == NO_PIECES
    {
      pieces := NO_PIECES;
    }

    /** A board holding exactly the given masks. */
    constructor FromBits(blackBits: bv64, whiteBits: bv64)
      ensures pieces == map[Black := blackBits, White := whiteBits]
      ensures GetColorBits(Black) == blackBits && GetColorBits(White) == whiteBits
    {
      pieces := map[Black := blackBits, White := whiteBits];
    }

    /** The mask of player p's discs. */
    function GetColorBits(p: Player): bv64
      reads this
    {
      Colour(pieces, p)
    }

    /** Replaces player p's mask; the other colour is untouched. */
    method SetColorBits(p: Player, bits: bv64)
      modifies this
      ensures pieces == old(pieces)[p := bits]
      ensures GetColorBits(p) == bits
      ensures GetColorBits(CurrentOpponent(p)) == old(GetColorBits(CurrentOpponent(p)))
    {
      pieces := pieces[p := bits];
    }

    /** The squares holding no disc of either colour. */
    function EmptySlots(): (empty: bv64)
      reads this
      ensures empty & pieces[Black] == 0 && empty & pieces[White] == 0
      ensures empty | pieces[Black] | pieces[White] == ALL_ONES
    {
      !pieces[Black] & !pieces[White]
    }

    /** Copies both colours of `from` into `dest`; `from` is left as it was. */
    static method CopyBoard(from: BitBoard, dest: BitBoard)
      modifies dest
      ensures dest.pieces == old(from.pieces)
      ensures from != dest ==> from.pieces == old(from.pieces)
    {
      dest.SetColorBits(Black, from.GetColorBits(Black));
      dest.SetColorBits(White, from.GetColorBits(White));
      SameColours(dest.pieces, old(from.pieces));
    }
  }

  /** Two boards with the same two colour masks are the same board. */
  lemma SameColours(a: Pieces, b: Pieces)
    requires a[Black] == b[Black] && a[White] == b[White]
    ensures a == b
  {
    forall p | p in a.Keys ensures p in b.Keys && a[p] == b[p] {
      match p
      case Black =>
      case White =>
    }
    forall p | p in b.Keys ensures p in a.Keys {
      match p
      case Black =>
      case White =>
    }
  }

  /** A board is the arrangement of its own two colour masks, seen from either player. */
  lemma ArrangeColours(pieces: Pieces, p: Player)
    ensures Arrange(p, Colour(pieces, p), Colour(pieces, CurrentOpponent(p))) == pieces
  {
    SameColours(Arrange(p, Colour(pieces, p), Colour(pieces, CurrentOpponent(p))), pieces);
  }

  /**
   * Java's `<<` on a long: only the low six bits of the int count are used,
   * which is the count modulo 64 (exact for every int, since 64 divides 2^32).
   */
  function JavaShiftLeft(x: bv64, count: int): bv64
  {
    ShiftLeft(x, JavaShiftCount(count))
  }

  /** The part of an int shift count that a long shift uses. */
  function JavaShiftCount(count: int): (k: bv8)
    ensures k < 64
  {
    (count % 64) as bv8
  }

  /** x shifted left by n < 64 places. */
  function ShiftLeft(x: bv64, n: bv8): bv64
    requires n < 64
  {
    x << n
  }

  /** The mask of square c, shifted exactly as the Java code shifts it. */
  function BitPosition(c: Coordinates): (position: bv64)
  {
    JavaShiftLeft(JavaShiftLeft(1, 8 - c.x), 8 * (c.y - 1))
  }

  /** The square of the lowest set bit of position; (9, 8) for the empty mask. */
  function BoardPosition(position: bv64): (c: Coordinates)
    ensures position != 0 <==> OnBoard(c)
  {
    var count := TrailingZeros(position) as int;
    Coordinates(count / 8 + 1, 8 - (count - count / 8 * 8))
  }

  /** Row of an on-board square counted from 0, as a bit-vector. */
  function RowIndex(c: Coordinates): (r: bv8)
    requires OnBoard(c)
    ensures r < 8 && r as int == c.y - 1
  {
    (c.y - 1) as bv8
  }

  /** Bit of an on-board square within its row byte (column 8 is bit 0). */
  function ColumnBit(c: Coordinates): (b: bv8)
    requires OnBoard(c)
    ensures b < 8 && b as int == 8 - c.x
  {
    (8 - c.x) as bv8
  }

  /** The mask of row r (from 0) and in-row bit b. */
  function Square(r: bv8, b: bv8): bv64
    requires r < 8 && b < 8
  {
    1 << (r * 8 + b)
  }

  /** The bit index 8*(y-1) + 8 - x of an on-board square. */
  function SquareIndex(c: Coordinates): (k: bv8)
    requires OnBoard(c)
    ensures k < 64 && k as int == 8 * (c.y - 1) + 8 - c.x
  {
    IndexValue(RowIndex(c), ColumnBit(c));
    RowIndex(c) * 8 + ColumnBit(c)
  }

  lemma IndexValue(r: bv8, b: bv8)
    requires r < 8 && b < 8
    ensures (r * 8 + b) as int == 8 * (r as int) + b as int
  {
  }

  /** For an in-range count the Java shift is the plain shift. */
  lemma JavaShiftInRange(x: bv64, count: int, k: bv8)
    requires 0 <= count < 64 && k as int == count
    ensures JavaShiftLeft(x, count) == x << k
  {
    assert JavaShiftCount(count) == k by {
      assert count % 64 == count;
      assert k as int as bv8 == k;
    }
  }

  lemma SplitShift(r: bv8, b: bv8)
    requires r < 8 && b < 8
    ensures ((1 as bv64) << b) << (r * 8) == 1 << (r * 8 + b)
  {
  }

  lemma RowTimesEight(r: bv8)
    requires r < 8
    ensures (r * 8) as int == 8 * (r as int)
  {
  }

  /** An on-board square is the single bit 8*(y-1) + 8 - x. */
  lemma BitPositionIndex(c: Coordinates)
    requires OnBoard(c)
    ensures BitPosition(c) == 1 << SquareIndex(c)
    ensures BitPosition(c) == Square(RowIndex(c), ColumnBit(c))
  {
    BitPositionSquare(c);
  }

  lemma BitPositionSquare(c: Coordinates)
    requires OnBoard(c)
    ensures BitPosition(c) == Square(RowIndex(c), ColumnBit(c))
  {
    var r, b := RowIndex(c), ColumnBit(c);
    JavaShiftInRange(1, 8 - c.x, b);
    RowTimesEight(r);
    JavaShiftInRange(1 << b, 8 * (c.y - 1), r * 8);
    SplitShift(r, b);
  }

  lemma OneBitIsSingle(k: bv8)
    requires k < 64
    ensures IsSingleBit(1 << k)
  {
  }

  /** The mask of an on-board square has exactly one bit set. */
  lemma BitPositionIsSingle(c: Coordinates)
    requires OnBoard(c)
    ensures IsSingleBit(BitPosition(c))
  {
    BitPositionIndex(c);
    OneBitIsSingle(SquareIndex(c));
  }

  /** Two shifts of the one-bit mask are one shift by the sum, or nothing past bit 63. */
  lemma ShiftTwice(j: bv8, k: bv8)
    requires j < 64 && k < 64
    ensures (1 as bv64 << j) << k == if j + k < 64 then 1 << (j + k) else 0
  {
  }

  /**
   * The mask BitPosition builds for any coordinates, on the board or off
   * it, is empty or a single square.
   */
  lemma BitPositionAtMostOne(c: Coordinates)
    ensures BitPosition(c) == 0 || IsSingleBit(BitPosition(c))
  {
    hide *;
    var j, k := JavaShiftCount(8 - c.x), JavaShiftCount(8 * (c.y - 1));
    BitPositionShifts(c, j, k);
    ShiftTwice(j, k);
    if j + k < 64 {
      OneBitIsSingle(j + k);
    }
  }

  lemma BitPositionShifts(c: Coordinates, j: bv8, k: bv8)
    requires j == JavaShiftCount(8 - c.x) && k == JavaShiftCount(8 * (c.y - 1))
    ensures BitPosition(c) == ((1 as bv64) << j) << k
  {
  }

  lemma IndexFromInt(k: bv8, j: bv8)
    requires k as int == j as int
    ensures k == j
  {
  }

  lemma DivideByEight(q: int, r: int)
    requires 0 <= r < 8
    ensures (8 * q + r) / 8 == q
    ensures (8 * q + r) - (8 * q + r) / 8 * 8 == r
  {
  }

  /** Decoding the mask of an on-board square gives the square back. */
  lemma {:induction false} BoardPositionOfBitPosition(c: Coordinates)
    requires OnBoard(c)
    ensures BoardPosition(BitPosition(c)) == c
  {
    var k := SquareIndex(c);
    BitPositionIndex(c);
    TrailingZerosOfBit(k);
    assert TrailingZeros(BitPosition(c)) == k;
    DivideByEight(c.y - 1, 8 - c.x);
  }

  /** Encoding the decoded square gives the lowest set bit back. */
  lemma BitPositionOfBoardPosition(p: bv64)
    requires p != 0
    ensures BitPosition(BoardPosition(p)) == LowestBit(p)
    ensures IsSingleBit(p) ==> BitPosition(BoardPosition(p)) == p
  {
    var c := BoardPosition(p);
    var t := TrailingZeros(p);
    TrailingZerosIsLowestBit(p);
    BoardPositionIndex(p);
    BitPositionIndex(c);
    if IsSingleBit(p) {
      SingleBitIsLowest(p);
    }
  }

  /** The decoded square of a non-empty mask has the trailing-zero count as its index. */
  lemma BoardPositionIndex(p: bv64)
    requires p != 0
    ensures OnBoard(BoardPosition(p))
    ensures SquareIndex(BoardPosition(p)) == TrailingZeros(p)
  {
    IndexFromInt(SquareIndex(BoardPosition(p)), TrailingZeros(p));
  }

  /** The square one step from c in direction d (possibly off the board). */
  function Neighbour(c: Coordinates, d: Direction): Coordinates
  {
    Coordinates(c.y + RowStep(d), c.x + ColumnStep(d))
  }

  /** Row index after one step in direction d (wrapping below 0). */
  function StepRow(d: Direction, r: bv8): bv8
  {
    match d
    case NorthWest => r + 1
    case North => r + 1
    case NorthEast => r + 1
    case East => r
    case SouthEast => r - 1
    case South => r - 1
    case SouthWest => r - 1
    case West => r
  }

  /** In-row bit after one step in direction d; east lowers it, west raises it. */
  function StepBit(d: Direction, b: bv8): bv8
  {
    match d
    case NorthWest => b + 1
    case North => b
    case NorthEast => b - 1
    case East => b - 1
    case SouthEast => b - 1
    case South => b
    case SouthWest => b + 1
    case West => b + 1
  }

  /** Shifting square (r, b) in direction d gives the stepped square, or 0 off the board. */
  predicate ShiftsSquare(d: Direction, r: bv8, b: bv8)
    requires r < 8 && b < 8
  {
    Shift(d, Square(r, b))
      == if StepRow(d, r) < 8 && StepBit(d, b) < 8 then Square(StepRow(d, r), StepBit(d, b)) else 0
  }

  lemma NorthWestShiftsSquare(r: bv8, b: bv8) requires r < 8 && b < 8 ensures ShiftsSquare(NorthWest, r, b) {}
  lemma NorthShiftsSquare(r: bv8, b: bv8) requires r < 8 && b < 8 ensures ShiftsSquare(North, r, b) {}
  lemma NorthEastShiftsSquare(r: bv8, b: bv8) requires r < 8 && b < 8 ensures ShiftsSquare(NorthEast, r, b) {}
  lemma EastShiftsSquare(r: bv8, b: bv8) requires r < 8 && b < 8 ensures ShiftsSquare(East, r, b) {}
  lemma SouthEastShiftsSquare(r: bv8, b: bv8) requires r < 8 && b < 8 ensures ShiftsSquare(SouthEast, r, b) {}
  lemma SouthShiftsSquare(r: bv8, b: bv8) requires r < 8 && b < 8 ensures ShiftsSquare(South, r, b) {}
  lemma SouthWestShiftsSquare(r: bv8, b: bv8) requires r < 8 && b < 8 ensures ShiftsSquare(SouthWest, r, b) {}
  lemma WestShiftsSquare(r: bv8, b: bv8) requires r < 8 && b < 8 ensures ShiftsSquare(West, r, b) {}

  /** ShiftsSquare holds in every direction. */
  lemma AllShiftsSquare(d: Direction, r: bv8, b: bv8)
    requires r < 8 && b < 8
    ensures ShiftsSquare(d, r, b)
  {
    match d
    case NorthWest => NorthWestShiftsSquare(r, b);
    case North => NorthShiftsSquare(r, b);
    case NorthEast => NorthEastShiftsSquare(r, b);
    case East => EastShiftsSquare(r, b);
    case SouthEast => SouthEastShiftsSquare(r, b);
    case South => SouthShiftsSquare(r, b);
    case SouthWest => SouthWestShiftsSquare(r, b);
    case West => WestShiftsSquare(r, b);
  }

  /**
   * With r and b the row and in-row bit of c, the stepped indices are those
   * of the neighbouring square.
   */
  predicate NeighbourIndexed(c: Coordinates, d: Direction, r: bv8, b: bv8)
  {
    && (OnBoard(Neighbour(c, d)) <==> StepRow(d, r) < 8 && StepBit(d, b) < 8)
    && (OnBoard(Neighbour(c, d)) ==>
         StepRow(d, r) as int == Neighbour(c, d).y - 1 && StepBit(d, b) as int == 8 - Neighbour(c, d).x)
  }

  predicate Indexes(c: Coordinates, r: bv8, b: bv8)
  {
    OnBoard(c) && r as int == c.y - 1 && b as int == 8 - c.x
  }

  lemma NorthWestNeighbourIndexed(c: Coordinates, r: bv8, b: bv8) requires Indexes(c, r, b) ensures NeighbourIndexed(c, NorthWest, r, b) {}
  lemma NorthNeighbourIndexed(c: Coordinates, r: bv8, b: bv8) requires Indexes(c, r, b) ensures NeighbourIndexed(c, North, r, b) {}
  lemma NorthEastNeighbourIndexed(c: Coordinates, r: bv8, b: bv8) requires Indexes(c, r, b) ensures NeighbourIndexed(c, NorthEast, r, b) {}
  lemma EastNeighbourIndexed(c: Coordinates, r: bv8, b: bv8) requires Indexes(c, r, b) ensures NeighbourIndexed(c, East, r, b) {}
  lemma SouthEastNeighbourIndexed(c: Coordinates, r: bv8, b: bv8) requires Indexes(c, r, b) ensures NeighbourIndexed(c, SouthEast, r, b) {}
  lemma SouthNeighbourIndexed(c: Coordinates, r: bv8, b: bv8) requires Indexes(c, r, b) ensures NeighbourIndexed(c, South, r, b) {}
  lemma SouthWestNeighbourIndexed(c: Coordinates, r: bv8, b: bv8) requires Indexes(c, r, b) ensures NeighbourIndexed(c, SouthWest, r, b) {}
  lemma WestNeighbourIndexed(c: Coordinates, r: bv8, b: bv8) requires Indexes(c, r, b) ensures NeighbourIndexed(c, West, r, b) {}

  /** NeighbourIndexed holds in every direction. */
  lemma AllNeighbourIndexed(c: Coordinates, d: Direction, r: bv8, b: bv8)
    requires Indexes(c, r, b)
    ensures NeighbourIndexed(c, d, r, b)
  {
    match d
    case NorthWest => NorthWestNeighbourIndexed(c, r, b);
    case North => NorthNeighbourIndexed(c, r, b);
    case NorthEast => NorthEastNeighbourIndexed(c, r, b);
    case East => EastNeighbourIndexed(c, r, b);
    case SouthEast => SouthEastNeighbourIndexed(c, r, b);
    case South => SouthNeighbourIndexed(c, r, b);
    case SouthWest => SouthWestNeighbourIndexed(c, r, b);
    case West => WestNeighbourIndexed(c, r, b);
  }

  /**
   * One square shifted in direction d is exactly the neighbouring square in
   * that direction when it is on the board, and nothing otherwise.
   */
  lemma ShiftSquare(c: Coordinates, d: Direction)
    requires OnBoard(c)
    ensures Shift(d, BitPosition(c))
      == if OnBoard(Neighbour(c, d)) then BitPosition(Neighbour(c, d)) else 0
  {
    var r, b := RowIndex(c), ColumnBit(c);
    BitPositionIndex(c);
    AllShiftsSquare(d, r, b);
    AllNeighbourIndexed(c, d, r, b);
    if OnBoard(Neighbour(c, d)) {
      var n := Neighbour(c, d);
      BitPositionIndex(n);
      IndexFromInt(RowIndex(n), StepRow(d, r));
      IndexFromInt(ColumnBit(n), StepBit(d, b));
    }
  }

  lemma SquareOnEdges(r: bv8, b: bv8)
    requires r < 8 && b < 8
    ensures Square(r, b) & LEFT_EDGE_MASK != 0 <==> b == 7
    ensures Square(r, b) & RIGHT_EDGE_MASK != 0 <==> b == 0
  {
  }

  /** LEFT_EDGE_MASK is exactly column 1 and RIGHT_EDGE_MASK exactly column 8. */
  lemma EdgeMasksAreColumns(c: Coordinates)
    requires OnBoard(c)
    ensures BitPosition(c) & LEFT_EDGE_MASK != 0 <==> c.x == 1
    ensures BitPosition(c) & RIGHT_EDGE_MASK != 0 <==> c.x == 8
  {
    BitPositionIndex(c);
    SquareOnEdges(RowIndex(c), ColumnBit(c));
  }
}

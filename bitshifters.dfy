/**
 * The eight one-square shifts of a bitboard. Bit 8*(row-1) + (8-column)
 * holds the square (row, column); north is row+1 and west is column-1.
 * The sideways shifts clear the column a square would wrap into.
 */
module BitShifters {
  import opened Bits
  import opened Walks

  datatype Direction =
    NorthWest | North | NorthEast | East | SouthEast | South | SouthWest | West

  /** Every direction once, in declaration order. */
  const ALL_DIRECTIONS: seq<Direction> :=
    [NorthWest, North, NorthEast, East, SouthEast, South, SouthWest, West]

  /** Column 1 (bit 7 of every row). */
  const LEFT_EDGE_MASK: bv64 := 0x8080_8080_8080_8080
  /** Column 8 (bit 0 of every row). */
  const RIGHT_EDGE_MASK: bv64 := 0x0101_0101_0101_0101

  /** Row 8, the top byte. */
  const TOP_ROW: bv64 := 0xFF00_0000_0000_0000
  /** Row 1, the bottom byte. */
  const BOTTOM_ROW: bv64 := 0x0000_0000_0000_00FF

  // The eight shifts, one function per direction.

  function ShiftNorthWest(x: bv64): bv64 { (x << 9) & !RIGHT_EDGE_MASK }
  function ShiftNorth(x: bv64): bv64 { x << 8 }
  function ShiftNorthEast(x: bv64): bv64 { (x << 7) & !LEFT_EDGE_MASK }
  function ShiftEast(x: bv64): bv64 { (x >> 1) & !LEFT_EDGE_MASK }
  function ShiftSouthEast(x: bv64): bv64 { (x >> 9) & !LEFT_EDGE_MASK }
  function ShiftSouth(x: bv64): bv64 { x >> 8 }
  function ShiftSouthWest(x: bv64): bv64 { (x >> 7) & !RIGHT_EDGE_MASK }
  function ShiftWest(x: bv64): bv64 { (x << 1) & !RIGHT_EDGE_MASK }

  /** The shift registered for direction d. */
  function Shifter(d: Direction): BitShift
  {
    match d
    case NorthWest => ShiftNorthWest
    case North => ShiftNorth
    case NorthEast => ShiftNorthEast
    case East => ShiftEast
    case SouthEast => ShiftSouthEast
    case South => ShiftSouth
    case SouthWest => ShiftSouthWest
    case West => ShiftWest
  }

  /** Moves every square of x one step in direction d; squares leaving the board vanish. */
  function Shift(d: Direction, x: bv64): bv64
  {
    Shifter(d)(x)
  }

  /** The direction pointing the other way. */
  function Opposite(d: Direction): (e: Direction)
    ensures e != d
  {
    match d
    case NorthWest => SouthEast
    case North => South
    case NorthEast => SouthWest
    case East => West
    case SouthEast => NorthWest
    case South => North
    case SouthWest => NorthEast
    case West => East
  }

  /** Change of row for one step in direction d. */
  function RowStep(d: Direction): int
  {
    match d
    case NorthWest => 1
    case North => 1
    case NorthEast => 1
    case East => 0
    case SouthEast => -1
    case South => -1
    case SouthWest => -1
    case West => 0
  }

  /** Change of column for one step in direction d. */
  function ColumnStep(d: Direction): int
  {
    match d
    case NorthWest => -1
    case North => 0
    case NorthEast => 1
    case East => 1
    case SouthEast => 1
    case South => 0
    case SouthWest => -1
    case West => -1
  }

  /** n successive shifts in direction d. */
  function ShiftN(d: Direction, x: bv64, n: nat): bv64
  {
    if n == 0 then x else Shift(d, ShiftN(d, x, n - 1))
  }

  /** The direction list holds every direction exactly once. */
  lemma AllDirectionsComplete(d: Direction)
    ensures d in ALL_DIRECTIONS
    ensures |ALL_DIRECTIONS| == 8
  {
  }

  /** Opposite is an involution and reverses both steps. */
  lemma OppositeInvolution(d: Direction)
    ensures Opposite(Opposite(d)) == d
    ensures RowStep(Opposite(d)) == -RowStep(d)
    ensures ColumnStep(Opposite(d)) == -ColumnStep(d)
  {
  }

  /** The shift maps a subset a of b to a subset of the image of b. */
  predicate MonotoneAt(shift: BitShift, a: bv64, b: bv64)
  {
    a & b == a ==> shift(a) & shift(b) == shift(a)
  }

  /** The reverse image of q under `back` meets m iff q meets the image of m. */
  predicate AdjointAt(shift: BitShift, back: BitShift, q: bv64, m: bv64)
  {
    Meets(back(q), m) == Meets(q, shift(m))
  }

  /** The shift keeps x at most one square. */
  predicate KeepsAt(shift: BitShift, x: bv64)
  {
    AtMostOne(x) ==> AtMostOne(shift(x))
  }

  lemma NorthWestMonotone(a: bv64, b: bv64) ensures MonotoneAt(Shifter(NorthWest), a, b) {}
  lemma NorthMonotone(a: bv64, b: bv64) ensures MonotoneAt(Shifter(North), a, b) {}
  lemma NorthEastMonotone(a: bv64, b: bv64) ensures MonotoneAt(Shifter(NorthEast), a, b) {}
  lemma EastMonotone(a: bv64, b: bv64) ensures MonotoneAt(Shifter(East), a, b) {}
  lemma SouthEastMonotone(a: bv64, b: bv64) ensures MonotoneAt(Shifter(SouthEast), a, b) {}
  lemma SouthMonotone(a: bv64, b: bv64) ensures MonotoneAt(Shifter(South), a, b) {}
  lemma SouthWestMonotone(a: bv64, b: bv64) ensures MonotoneAt(Shifter(SouthWest), a, b) {}
  lemma WestMonotone(a: bv64, b: bv64) ensures MonotoneAt(Shifter(West), a, b) {}

  /** MonotoneAt holds in every direction. */
  lemma AllMonotone(d: Direction, a: bv64, b: bv64)
    ensures MonotoneAt(Shifter(d), a, b)
  {
    match d
    case NorthWest => NorthWestMonotone(a, b);
    case North => NorthMonotone(a, b);
    case NorthEast => NorthEastMonotone(a, b);
    case East => EastMonotone(a, b);
    case SouthEast => SouthEastMonotone(a, b);
    case South => SouthMonotone(a, b);
    case SouthWest => SouthWestMonotone(a, b);
    case West => WestMonotone(a, b);
  }

  lemma NorthWestAdjoint(q: bv64, m: bv64) ensures AdjointAt(ShiftNorthWest, ShiftSouthEast, q, m) {}
  lemma NorthAdjoint(q: bv64, m: bv64) ensures AdjointAt(ShiftNorth, ShiftSouth, q, m) {}
  lemma NorthEastAdjoint(q: bv64, m: bv64) ensures AdjointAt(ShiftNorthEast, ShiftSouthWest, q, m) {}
  lemma EastAdjoint(q: bv64, m: bv64) ensures AdjointAt(ShiftEast, ShiftWest, q, m) {}
  lemma SouthEastAdjoint(q: bv64, m: bv64) ensures AdjointAt(ShiftSouthEast, ShiftNorthWest, q, m) {}
  lemma SouthAdjoint(q: bv64, m: bv64) ensures AdjointAt(ShiftSouth, ShiftNorth, q, m) {}
  lemma SouthWestAdjoint(q: bv64, m: bv64) ensures AdjointAt(ShiftSouthWest, ShiftNorthEast, q, m) {}
  lemma WestAdjoint(q: bv64, m: bv64) ensures AdjointAt(ShiftWest, ShiftEast, q, m) {}

  /** AdjointAt holds for every direction and its opposite. */
  lemma AllAdjoint(d: Direction, q: bv64, m: bv64)
    ensures AdjointAt(Shifter(d), Shifter(Opposite(d)), q, m)
  {
    match d
    case NorthWest => NorthWestAdjoint(q, m);
    case North => NorthAdjoint(q, m);
    case NorthEast => NorthEastAdjoint(q, m);
    case East => EastAdjoint(q, m);
    case SouthEast => SouthEastAdjoint(q, m);
    case South => SouthAdjoint(q, m);
    case SouthWest => SouthWestAdjoint(q, m);
    case West => WestAdjoint(q, m);
  }

  lemma NorthWestKeeps(x: bv64) ensures KeepsAt(ShiftNorthWest, x) {}
  lemma NorthKeeps(x: bv64) ensures KeepsAt(ShiftNorth, x) {}
  lemma NorthEastKeeps(x: bv64) ensures KeepsAt(ShiftNorthEast, x) {}
  lemma EastKeeps(x: bv64) ensures KeepsAt(ShiftEast, x) {}
  lemma SouthEastKeeps(x: bv64) ensures KeepsAt(ShiftSouthEast, x) {}
  lemma SouthKeeps(x: bv64) ensures KeepsAt(ShiftSouth, x) {}
  lemma SouthWestKeeps(x: bv64) ensures KeepsAt(ShiftSouthWest, x) {}
  lemma WestKeeps(x: bv64) ensures KeepsAt(ShiftWest, x) {}

  /** KeepsAt holds in every direction. */
  lemma AllKeeps(d: Direction, x: bv64)
    ensures KeepsAt(Shifter(d), x)
  {
    match d
    case NorthWest => NorthWestKeeps(x);
    case North => NorthKeeps(x);
    case NorthEast => NorthEastKeeps(x);
    case East => EastKeeps(x);
    case SouthEast => SouthEastKeeps(x);
    case South => SouthKeeps(x);
    case SouthWest => SouthWestKeeps(x);
    case West => WestKeeps(x);
  }

  /**
   * Shifting one way and the other way are adjoint: the image of m meets q
   * exactly when m meets the reverse image of q.
   */
  lemma ShifterAdjoint(d: Direction)
    ensures Adjoint(Shifter(d), Shifter(Opposite(d)))
  {
    forall q: bv64, m: bv64
      ensures Meets(Shifter(Opposite(d))(q), m) == Meets(q, Shifter(d)(m))
    {
      AllAdjoint(d, q, m);
    }
  }

  /** A single square shifts to a single square or off the board. */
  lemma ShifterKeepsAtMostOne(d: Direction)
    ensures KeepsAtMostOne(Shifter(d))
  {
    forall q: bv64
      ensures AtMostOne(q) ==> AtMostOne(Shifter(d)(q))
    {
      AllKeeps(d, q);
    }
  }

  /** Eight steps from the whole board leave nothing. */
  predicate VanishesAfterEight(d: Direction)
  {
    ShiftN(d, ALL_ONES, 8) == 0
  }

  lemma NorthWestVanishes() ensures VanishesAfterEight(NorthWest) {}
  lemma NorthVanishes() ensures VanishesAfterEight(North) {}
  lemma NorthEastVanishes() ensures VanishesAfterEight(NorthEast) {}
  lemma EastVanishes() ensures VanishesAfterEight(East) {}
  lemma SouthEastVanishes() ensures VanishesAfterEight(SouthEast) {}
  lemma SouthVanishes() ensures VanishesAfterEight(South) {}
  lemma SouthWestVanishes() ensures VanishesAfterEight(SouthWest) {}
  lemma WestVanishes() ensures VanishesAfterEight(West) {}

  /** VanishesAfterEight holds in every direction. */
  lemma AllVanish(d: Direction)
    ensures VanishesAfterEight(d)
  {
    match d
    case NorthWest => NorthWestVanishes();
    case North => NorthVanishes();
    case NorthEast => NorthEastVanishes();
    case East => EastVanishes();
    case SouthEast => SouthEastVanishes();
    case South => SouthVanishes();
    case SouthWest => SouthWestVanishes();
    case West => WestVanishes();
  }

  /**
   * Shifting in direction d moves no square out of an empty board, and
   * shifts the squares of a union independently of each other.
   */
  predicate DistributesIn(d: Direction, a: bv64, b: bv64)
  {
    Shift(d, 0) == 0 && Shift(d, a | b) == Shift(d, a) | Shift(d, b)
  }

  lemma NorthWestDistributes(a: bv64, b: bv64) ensures DistributesIn(NorthWest, a, b) {}
  lemma NorthDistributes(a: bv64, b: bv64) ensures DistributesIn(North, a, b) {}
  lemma NorthEastDistributes(a: bv64, b: bv64) ensures DistributesIn(NorthEast, a, b) {}
  lemma EastDistributes(a: bv64, b: bv64) ensures DistributesIn(East, a, b) {}
  lemma SouthEastDistributes(a: bv64, b: bv64) ensures DistributesIn(SouthEast, a, b) {}
  lemma SouthDistributes(a: bv64, b: bv64) ensures DistributesIn(South, a, b) {}
  lemma SouthWestDistributes(a: bv64, b: bv64) ensures DistributesIn(SouthWest, a, b) {}
  lemma WestDistributes(a: bv64, b: bv64) ensures DistributesIn(West, a, b) {}

  /** Every shift maps the empty board to itself and a union to the union of the images. */
  lemma ShiftDistributes(d: Direction, a: bv64, b: bv64)
    ensures DistributesIn(d, a, b)
  {
    match d
    case NorthWest => NorthWestDistributes(a, b);
    case North => NorthDistributes(a, b);
    case NorthEast => NorthEastDistributes(a, b);
    case East => EastDistributes(a, b);
    case SouthEast => SouthEastDistributes(a, b);
    case South => SouthDistributes(a, b);
    case SouthWest => SouthWestDistributes(a, b);
    case West => WestDistributes(a, b);
  }

  /** Shifting a subset gives a subset. */
  lemma ShiftMonotone(d: Direction, a: bv64, b: bv64)
    requires a & b == a
    ensures Shift(d, a) & Shift(d, b) == Shift(d, a)
  {
    AllMonotone(d, a, b);
  }

  /** The eastward shifts never land on column 1, the westward ones never on column 8. */
  lemma ShiftAvoidsEdges(x: bv64)
    ensures Shift(NorthEast, x) & LEFT_EDGE_MASK == 0
    ensures Shift(East, x) & LEFT_EDGE_MASK == 0
    ensures Shift(SouthEast, x) & LEFT_EDGE_MASK == 0
    ensures Shift(NorthWest, x) & RIGHT_EDGE_MASK == 0
    ensures Shift(SouthWest, x) & RIGHT_EDGE_MASK == 0
    ensures Shift(West, x) & RIGHT_EDGE_MASK == 0
  {
  }

  /** North and south are plain shifts by a row: row 8 leaves going north, row 1 going south. */
  lemma VerticalShiftsDropRows(x: bv64)
    ensures Shift(North, x) == Shift(North, x & !TOP_ROW)
    ensures Shift(North, x & TOP_ROW) == 0
    ensures Shift(South, x) == Shift(South, x & !BOTTOM_ROW)
    ensures Shift(South, x & BOTTOM_ROW) == 0
  {
  }

  /** Each shift only ever keeps part of the shifted whole board. */
  lemma ShiftNWithin(d: Direction, x: bv64, n: nat)
    ensures ShiftN(d, x, n) & ShiftN(d, ALL_ONES, n) == ShiftN(d, x, n)
  {
    if n > 0 {
      ShiftNWithin(d, x, n - 1);
      ShiftMonotone(d, ShiftN(d, x, n - 1), ShiftN(d, ALL_ONES, n - 1));
    }
  }

  /** Eight steps in one direction leave the board, whatever the start. */
  lemma EightShiftsVanish(d: Direction, x: bv64)
    ensures ShiftN(d, x, 8) == 0
  {
    ShiftNWithin(d, x, 8);
    AllVanish(d);
  }
}

/**
 * The opening position the engine sets up, and what the rules give on it:
 * the moves of either side and the board after Black's first move at
 * row 3, column 5. These are the values the repository's own unit tests
 * expect.
 */
module Openings {
  import opened Bits
  import opened Walks
  import opened Unions
  import opened BitShifters
  import opened Types
  import opened Players
  import opened BitBoards
  import opened Rules

  /** Black's two discs of the opening. */
  const START_BLACK: bv64 := 34628173824
  /** White's two discs of the opening. */
  const START_WHITE: bv64 := 68853694464
  /** The opening board: four discs in the centre, two of each colour. */
  const START: Pieces := map[Black := START_BLACK, White := START_WHITE]

  /** The empty squares of the opening. */
  const START_EMPTY: bv64 := 0xFFFF_FFE7_E7FF_FFFF

  /** The opening holds four discs, two per side, on distinct squares. */
  lemma StartShape()
    ensures Empty(START) == START_EMPTY
    ensures START_BLACK & START_WHITE == 0
    ensures BitCount(START_BLACK) == 2 && BitCount(START_WHITE) == 2
  {
    StartCount(START_BLACK, 0x8_0000_0000, 0x1000_0000);
    StartCount(START_WHITE, 0x10_0000_0000, 0x800_0000);
  }

  lemma StartCount(discs: bv64, high: bv64, low: bv64)
    requires IsSingleBit(high) && IsSingleBit(low) && high & low == 0 && discs == high | low
    ensures BitCount(discs) == 2
  {
    BitCountUnion(high, low);
    BitCountSingle(high);
    BitCountSingle(low);
  }

  // ---------------------------------------------------------------------
  // Moves along one direction
  // ---------------------------------------------------------------------

  /** No opponent disc next to the player's discs: no move along the shift. */
  lemma NoRun(shift: BitShift, player: bv64, opponent: bv64, empty: bv64)
    requires shift(player) & opponent == 0
    ensures MovesAlong(shift, player, opponent, empty) == 0
  {
  }

  /** A run one disc long: the move is the square past it, if empty. */
  lemma OneRun(shift: BitShift, player: bv64, opponent: bv64, empty: bv64, first: bv64, landing: bv64)
    requires first == shift(player) & opponent && first != 0
    requires shift(first) & opponent == 0 && landing == shift(first) & empty
    ensures MovesAlong(shift, player, opponent, empty) == landing
  {
    assert RunMoves(shift, 0, opponent, empty, 7) == 0;
  }

  /** The union of a list of eight masks, one mask at a time. */
  lemma UnionOfEight(masks: seq<bv64>, v0: bv64, v1: bv64, v2: bv64, v3: bv64,
                     v4: bv64, v5: bv64, v6: bv64, v7: bv64)
    requires |masks| == 8
    requires masks[0] == v0 && masks[1] == v1 && masks[2] == v2 && masks[3] == v3
    requires masks[4] == v4 && masks[5] == v5 && masks[6] == v6 && masks[7] == v7
    ensures UnionOf(masks) == v0 | v1 | v2 | v3 | v4 | v5 | v6 | v7
  {
    UnionOfFirstFour(masks, v0, v1, v2, v3);
    UnionOfLastFour(masks, v0 | v1 | v2 | v3, v4, v5, v6, v7);
    UnionWhole(masks);
  }

  lemma UnionOfFirstFour(masks: seq<bv64>, v0: bv64, v1: bv64, v2: bv64, v3: bv64)
    requires |masks| == 8
    requires masks[0] == v0 && masks[1] == v1 && masks[2] == v2 && masks[3] == v3
    ensures UnionOf(masks[..4]) == v0 | v1 | v2 | v3
  {
    assert UnionOf(masks[..0]) == 0;
    UnionPrefixStep(masks, 0);
    UnionPrefixStep(masks, 1);
    UnionPrefixStep(masks, 2);
    UnionPrefixStep(masks, 3);
  }

  lemma UnionOfLastFour(masks: seq<bv64>, before: bv64, v4: bv64, v5: bv64, v6: bv64, v7: bv64)
    requires |masks| == 8 && UnionOf(masks[..4]) == before
    requires masks[4] == v4 && masks[5] == v5 && masks[6] == v6 && masks[7] == v7
    ensures UnionOf(masks[..8]) == before | v4 | v5 | v6 | v7
  {
    UnionPrefixStep(masks, 4);
    UnionPrefixStep(masks, 5);
    UnionPrefixStep(masks, 6);
    UnionPrefixStep(masks, 7);
  }

  // ---------------------------------------------------------------------
  // The moves of the opening
  // ---------------------------------------------------------------------

  /** Black opens with four moves: north, east, south and west of the centre. */
  lemma StartMovesBlack()
    ensures LegalMoves(START, Black) == 17729692631040
  {
    StartShape();
    var masks := MoveList(START_BLACK, START_WHITE, START_EMPTY);
    BlackNorthward(masks);
    BlackSouthward(masks);
    UnionOfEight(masks, 0, 17592186044416, 0, 67108864, 0, 524288, 0, 137438953472);
  }

  lemma BlackNorthward(masks: seq<bv64>)
    requires masks == MoveList(START_BLACK, START_WHITE, START_EMPTY)
    ensures |masks| == 8
    ensures masks[0] == 0 && masks[1] == 17592186044416 && masks[2] == 0 && masks[3] == 67108864
  {
    var player, opponent, empty := START_BLACK, START_WHITE, START_EMPTY;
    NoRun(ShiftNorthWest, player, opponent, empty);
    OneRun(ShiftNorth, player, opponent, empty, 0x10_0000_0000, 17592186044416);
    NoRun(ShiftNorthEast, player, opponent, empty);
    OneRun(ShiftEast, player, opponent, empty, 0x800_0000, 67108864);
  }

  lemma BlackSouthward(masks: seq<bv64>)
    requires masks == MoveList(START_BLACK, START_WHITE, START_EMPTY)
    ensures |masks| == 8
    ensures masks[4] == 0 && masks[5] == 524288 && masks[6] == 0 && masks[7] == 137438953472
  {
    var player, opponent, empty := START_BLACK, START_WHITE, START_EMPTY;
    NoRun(ShiftSouthEast, player, opponent, empty);
    OneRun(ShiftSouth, player, opponent, empty, 0x800_0000, 524288);
    NoRun(ShiftSouthWest, player, opponent, empty);
    OneRun(ShiftWest, player, opponent, empty, 0x10_0000_0000, 137438953472);
  }

  /** White's four opening moves mirror Black's. */
  lemma StartMovesWhite()
    ensures LegalMoves(START, White) == 8813810810880
  {
    StartShape();
    var masks := MoveList(START_WHITE, START_BLACK, START_EMPTY);
    WhiteNorthward(masks);
    WhiteSouthward(masks);
    UnionOfEight(masks, 0, 8796093022208, 0, 17179869184, 0, 1048576, 0, 536870912);
  }

  lemma WhiteNorthward(masks: seq<bv64>)
    requires masks == MoveList(START_WHITE, START_BLACK, START_EMPTY)
    ensures |masks| == 8
    ensures masks[0] == 0 && masks[1] == 8796093022208 && masks[2] == 0 && masks[3] == 17179869184
  {
    var player, opponent, empty := START_WHITE, START_BLACK, START_EMPTY;
    NoRun(ShiftNorthWest, player, opponent, empty);
    OneRun(ShiftNorth, player, opponent, empty, 0x8_0000_0000, 8796093022208);
    NoRun(ShiftNorthEast, player, opponent, empty);
    OneRun(ShiftEast, player, opponent, empty, 0x8_0000_0000, 17179869184);
  }

  lemma WhiteSouthward(masks: seq<bv64>)
    requires masks == MoveList(START_WHITE, START_BLACK, START_EMPTY)
    ensures |masks| == 8
    ensures masks[4] == 0 && masks[5] == 1048576 && masks[6] == 0 && masks[7] == 536870912
  {
    var player, opponent, empty := START_WHITE, START_BLACK, START_EMPTY;
    NoRun(ShiftSouthEast, player, opponent, empty);
    OneRun(ShiftSouth, player, opponent, empty, 0x1000_0000, 1048576);
    NoRun(ShiftSouthWest, player, opponent, empty);
    OneRun(ShiftWest, player, opponent, empty, 0x1000_0000, 536870912);
  }

  // ---------------------------------------------------------------------
  // Black's move at row 3, column 5
  // ---------------------------------------------------------------------

  /** No opponent disc next to the played square: nothing turns over that way. */
  lemma NoBridge(shift: BitShift, position: bv64, player: bv64, opponent: bv64)
    requires !Within(shift(position), opponent)
    ensures BridgeAlong(shift, position, player, opponent) == 0
  {
  }

  /** One opponent disc, closed by one of the mover's: that disc turns over. */
  lemma OneBridge(shift: BitShift, position: bv64, player: bv64, opponent: bv64, first: bv64, end: bv64)
    requires first == shift(position) && Within(first, opponent)
    requires end == shift(first) && !Within(end, opponent) && Within(end, player)
    ensures BridgeAlong(shift, position, player, opponent) == first
  {
    assert RunEnd(shift, end, opponent, 7) == end;
    assert Span(shift, end, opponent, 7) == 0;
  }

  /** The square at row 3, column 5: bit 3 of its row, row 3 starting at bit 16. */
  lemma SquareThreeFive()
    ensures BitPosition(Coordinates(3, 5)) == 524288
  {
    ShiftCountOf(3);
    ShiftCountOf(16);
  }

  lemma ShiftCountOf(count: int)
    requires 0 <= count < 64
    ensures JavaShiftCount(count) == count as bv8
  {
  }

  /** Black at row 3, column 5 turns over the White disc above it. */
  lemma StartFlips()
    ensures FlipMask(524288, START_BLACK, START_WHITE) == 0x808_0000
  {
    var bridges := BridgeList(524288, START_BLACK, START_WHITE);
    FlipsNorthward(bridges);
    FlipsSouthward(bridges);
    UnionOfEight(bridges, 0, 0x800_0000, 0, 0, 0, 0, 0, 0);
  }

  lemma FlipsNorthward(bridges: seq<bv64>)
    requires bridges == BridgeList(524288, START_BLACK, START_WHITE)
    ensures |bridges| == 8
    ensures bridges[0] == 0 && bridges[1] == 0x800_0000 && bridges[2] == 0 && bridges[3] == 0
  {
    var position, player, opponent := 524288, START_BLACK, START_WHITE;
    NoBridge(ShiftNorthWest, position, player, opponent);
    OneBridge(ShiftNorth, position, player, opponent, 0x800_0000, 0x8_0000_0000);
    NoBridge(ShiftNorthEast, position, player, opponent);
    NoBridge(ShiftEast, position, player, opponent);
  }

  lemma FlipsSouthward(bridges: seq<bv64>)
    requires bridges == BridgeList(524288, START_BLACK, START_WHITE)
    ensures |bridges| == 8
    ensures bridges[4] == 0 && bridges[5] == 0 && bridges[6] == 0 && bridges[7] == 0
  {
    var position, player, opponent := 524288, START_BLACK, START_WHITE;
    NoBridge(ShiftSouthEast, position, player, opponent);
    NoBridge(ShiftSouth, position, player, opponent);
    NoBridge(ShiftSouthWest, position, player, opponent);
    NoBridge(ShiftWest, position, player, opponent);
  }

  /** Black's first move at row 3, column 5 succeeds and leaves Black four discs to White's one. */
  lemma StartPlay()
    ensures PlayOutcome(START, Black, Coordinates(3, 5))
         == (Successful, map[Black := 34762915840, White := 68719476736])
  {
    SquareThreeFive();
    StartMovesBlack();
    StartFlips();
  }
}

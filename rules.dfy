/**
 * The rules of Reversi on bitboards, as functions of the two colour masks:
 * which squares a player may take, which discs a move flips, the board a
 * move produces and the winner by disc count.
 */
module Rules {
  import opened Bits
  import opened Walks
  import opened Unions
  import opened BitShifters
  import opened Types
  import opened Players
  import opened BitBoards

  /** The two colours never share a square. */
  predicate Disjoint(pieces: Pieces)
  {
    pieces[Black] & pieces[White] == 0
  }

  /** Every square holding a disc. */
  function Occupied(pieces: Pieces): bv64
  {
    pieces[Black] | pieces[White]
  }

  /** Every square holding no disc, computed as the board computes it. */
  function Empty(pieces: Pieces): bv64
  {
    !pieces[Black] & !pieces[White]
  }

  // ---------------------------------------------------------------------
  // Move generation

  /** The moves along the j-th of the eight directions (nothing past the eighth). */
  function MovesToward(j: int, player: bv64, opponent: bv64, empty: bv64): bv64
  {
    if 0 <= j < |ALL_DIRECTIONS| then MovesAlong(Shifter(ALL_DIRECTIONS[j]), player, opponent, empty) else 0
  }

  /** The eight per-direction move masks, in the order of ALL_DIRECTIONS. */
  function MoveList(player: bv64, opponent: bv64, empty: bv64): seq<bv64>
  {
    seq(|ALL_DIRECTIONS|, j => MovesToward(j, player, opponent, empty))
  }

  /** Every move of `player` into `empty`, over all eight directions. */
  function AllMoves(player: bv64, opponent: bv64, empty: bv64): bv64
  {
    UnionOf(MoveList(player, opponent, empty))
  }

  /** Every square where player p may move; none of them is occupied. */
  function LegalMoves(pieces: Pieces, p: Player): bv64
  {
    AllMoves(Colour(pieces, p), Colour(pieces, CurrentOpponent(p)), Empty(pieces))
  }

  /** Every occupied square is outside the empty mask the board computes. */
  lemma EmptyComplement(pieces: Pieces)
    ensures !Empty(pieces) == Occupied(pieces)
  {
    NotBoth(pieces[Black], pieces[White]);
  }

  lemma NotBoth(a: bv64, b: bv64)
    ensures !(!a & !b) == a | b
  {
  }

  /** No legal move is on an occupied square. */
  lemma LegalMovesUnoccupied(pieces: Pieces, p: Player)
    ensures LegalMoves(pieces, p) & Occupied(pieces) == 0
  {
    EmptyComplement(pieces);
    AllMovesInEmpty(Colour(pieces, p), Colour(pieces, CurrentOpponent(p)), Empty(pieces));
  }

  /** Every move found lies in `empty`. */
  lemma AllMovesInEmpty(player: bv64, opponent: bv64, empty: bv64)
    ensures AllMoves(player, opponent, empty) & !empty == 0
  {
    MovesEachEmpty(player, opponent, empty);
    UnionOutside(MoveList(player, opponent, empty), !empty);
  }

  lemma MovesEachEmpty(player: bv64, opponent: bv64, empty: bv64)
    ensures forall j :: 0 <= j < |MoveList(player, opponent, empty)| ==>
      MoveList(player, opponent, empty)[j] & !empty == 0
  {
    forall j | 0 <= j < |MoveList(player, opponent, empty)|
      ensures MoveList(player, opponent, empty)[j] & !empty == 0
    {
      MovesTowardEmpty(j, player, opponent, empty);
    }
  }

  lemma MovesTowardEmpty(j: int, player: bv64, opponent: bv64, empty: bv64)
    ensures MovesToward(j, player, opponent, empty) & !empty == 0
  {
    if 0 <= j < |ALL_DIRECTIONS| {
      MovesAlongEmpty(Shifter(ALL_DIRECTIONS[j]), player, opponent, empty);
    }
  }

  /** A player's discs and the opponent's together are all the occupied squares. */
  lemma ColourUnion(pieces: Pieces, p: Player)
    ensures Colour(pieces, p) | Colour(pieces, CurrentOpponent(p)) == Occupied(pieces)
  {
    if p == White {
      OrCommutes(pieces[White], pieces[Black]);
    }
  }

  /** With disjoint colours, a player's discs and the opponent's never share a square. */
  lemma ColoursDisjoint(pieces: Pieces, p: Player)
    requires Disjoint(pieces)
    ensures Colour(pieces, p) & Colour(pieces, CurrentOpponent(p)) == 0
  {
    if p == White {
      AndCommutes(pieces[Black], pieces[White]);
    }
  }

  /** Colours that never share a square make a disjoint board. */
  lemma DisjointFromColours(pieces: Pieces, p: Player)
    requires Colour(pieces, p) & Colour(pieces, CurrentOpponent(p)) == 0
    ensures Disjoint(pieces)
  {
    if p == White {
      AndCommutes(pieces[White], pieces[Black]);
    }
  }

  lemma OrCommutes(a: bv64, b: bv64)
    ensures a | b == b | a
  {
  }

  lemma AndCommutes(a: bv64, b: bv64)
    ensures a & b == b & a
  {
  }

  // ---------------------------------------------------------------------
  // Bridges and flips

  /** The bridge from `position` along the j-th direction (nothing past the eighth). */
  function BridgeToward(j: int, position: bv64, player: bv64, opponent: bv64): bv64
  {
    if 0 <= j < |ALL_DIRECTIONS| then BridgeAlong(Shifter(ALL_DIRECTIONS[j]), position, player, opponent) else 0
  }

  /** The eight per-direction bridges, in the order of ALL_DIRECTIONS. */
  function BridgeList(position: bv64, player: bv64, opponent: bv64): seq<bv64>
  {
    seq(|ALL_DIRECTIONS|, j => BridgeToward(j, position, player, opponent))
  }

  /** Every opponent disc a move at `position` closes in, over all eight directions. */
  function AllBridges(position: bv64, player: bv64, opponent: bv64): bv64
  {
    UnionOf(BridgeList(position, player, opponent))
  }

  /** The played square together with every disc it flips. */
  function FlipMask(position: bv64, player: bv64, opponent: bv64): bv64
  {
    position | AllBridges(position, player, opponent)
  }

  /** The opponent discs that p turns over by playing `position`. */
  function Flips(pieces: Pieces, p: Player, position: bv64): bv64
  {
    AllBridges(position, Colour(pieces, p), Colour(pieces, CurrentOpponent(p)))
  }

  /** The board after the squares of `mask` join p and leave p's opponent. */
  function TurnOver(pieces: Pieces, p: Player, mask: bv64): Pieces
  {
    Arrange(p, Colour(pieces, p) | mask, Colour(pieces, CurrentOpponent(p)) & !mask)
  }

  /** The board after p plays `position`: the flip mask joins p and leaves the opponent. */
  function Play(pieces: Pieces, p: Player, position: bv64): Pieces
  {
    TurnOver(pieces, p, FlipMask(position, Colour(pieces, p), Colour(pieces, CurrentOpponent(p))))
  }

  /** Whether p may play `position`, as the engine tests it. */
  predicate IsLegal(pieces: Pieces, p: Player, position: bv64)
  {
    Meets(position, LegalMoves(pieces, p))
  }

  /** Status and board after p asks to play square c: FAILED changes nothing. */
  function PlayOutcome(pieces: Pieces, p: Player, c: Coordinates): (GameStatus, Pieces)
  {
    var position := BitPosition(c);
    if IsLegal(pieces, p, position) then (Successful, Play(pieces, p, position))
    else (Failed, pieces)
  }

  // ---------------------------------------------------------------------
  // Move generation agrees with flipping

  /** The index of the direction opposite the j-th one: four places on, cyclically. */
  function OppositeIndex(j: int): int
  {
    if j < 4 then j + 4 else j - 4
  }

  /** The direction opposite the j-th one is the OppositeIndex(j)-th. */
  lemma OppositeAt(j: int)
    requires 0 <= j < 8
    ensures |ALL_DIRECTIONS| == 8
    ensures Opposite(ALL_DIRECTIONS[j]) == ALL_DIRECTIONS[OppositeIndex(j)]
  {
  }

  /**
   * A single square is a move along the j-th direction iff it is empty and
   * the bridge from it along the opposite direction is non-empty.
   */
  lemma TowardIff(j: int, p: bv64, player: bv64, opponent: bv64, empty: bv64)
    requires 0 <= j < 8
    requires IsSingleBit(p)
    requires player & opponent == 0
    ensures Meets(p, MoveList(player, opponent, empty)[j])
      == (Meets(p, empty) && BridgeList(p, player, opponent)[OppositeIndex(j)] != 0)
  {
    MoveAt(j, player, opponent, empty);
    BridgeOpposite(j, p, player, opponent);
    DirectionIff(ALL_DIRECTIONS[j], p, player, opponent, empty,
      MoveList(player, opponent, empty)[j], BridgeList(p, player, opponent)[OppositeIndex(j)]);
  }

  lemma MoveAt(j: int, player: bv64, opponent: bv64, empty: bv64)
    requires 0 <= j < 8
    ensures |ALL_DIRECTIONS| == |MoveList(player, opponent, empty)| == 8
    ensures MoveList(player, opponent, empty)[j] == MovesAlong(Shifter(ALL_DIRECTIONS[j]), player, opponent, empty)
  {
  }

  lemma BridgeOpposite(j: int, p: bv64, player: bv64, opponent: bv64)
    requires 0 <= j < 8
    ensures |ALL_DIRECTIONS| == |BridgeList(p, player, opponent)| == 8
    ensures BridgeList(p, player, opponent)[OppositeIndex(j)]
      == BridgeAlong(Shifter(Opposite(ALL_DIRECTIONS[j])), p, player, opponent)
  {
    OppositeAt(j);
  }

  /** The same along one direction d, whose bridges run along Opposite(d). */
  lemma DirectionIff(d: Direction, p: bv64, player: bv64, opponent: bv64, empty: bv64, moves: bv64, bridge: bv64)
    requires moves == MovesAlong(Shifter(d), player, opponent, empty)
    requires bridge == BridgeAlong(Shifter(Opposite(d)), p, player, opponent)
    requires IsSingleBit(p)
    requires player & opponent == 0
    ensures Meets(p, moves) == (Meets(p, empty) && bridge != 0)
  {
    ShifterAdjoint(d);
    ShifterKeepsAtMostOne(Opposite(d));
    MovesAlongBridge(Shifter(d), Shifter(Opposite(d)), p, player, opponent, empty);
  }

  /**
   * On masks: a single square is a move over all eight directions iff it is
   * empty and some bridge from it is non-empty.
   */
  lemma MovesIffBridges(p: bv64, player: bv64, opponent: bv64, empty: bv64)
    requires IsSingleBit(p)
    requires player & opponent == 0
    ensures Meets(p, AllMoves(player, opponent, empty))
      == (Meets(p, empty) && AllBridges(p, player, opponent) != 0)
  {
    MovesGiveBridges(p, player, opponent, empty);
    BridgesGiveMoves(p, player, opponent, empty);
  }

  lemma MovesGiveBridges(p: bv64, player: bv64, opponent: bv64, empty: bv64)
    requires IsSingleBit(p)
    requires player & opponent == 0
    ensures Meets(p, AllMoves(player, opponent, empty))
      ==> Meets(p, empty) && AllBridges(p, player, opponent) != 0
  {
    var moves, bridges := MoveList(player, opponent, empty), BridgeList(p, player, opponent);
    UnionMeets(moves, p);
    if Meets(p, UnionOf(moves)) {
      var j :| 0 <= j < |moves| && Meets(p, moves[j]);
      TowardIff(j, p, player, opponent, empty);
      UnionHasMember(bridges, OppositeIndex(j));
    }
  }

  lemma BridgesGiveMoves(p: bv64, player: bv64, opponent: bv64, empty: bv64)
    requires IsSingleBit(p)
    requires player & opponent == 0
    ensures Meets(p, empty) && AllBridges(p, player, opponent) != 0
      ==> Meets(p, AllMoves(player, opponent, empty))
  {
    var moves, bridges := MoveList(player, opponent, empty), BridgeList(p, player, opponent);
    UnionNonEmpty(bridges);
    if Meets(p, empty) && UnionOf(bridges) != 0 {
      var k :| 0 <= k < |bridges| && bridges[k] != 0;
      var j := OppositeIndex(k);
      TowardIff(j, p, player, opponent, empty);
      assert OppositeIndex(j) == k;
      UnionMeetsMember(moves, j, p);
    }
  }

  /**
   * On a board where the colours are disjoint, a single square is a legal
   * move iff it is empty and playing it flips at least one opponent disc.
   */
  lemma LegalIffFlips(pieces: Pieces, p: Player, position: bv64)
    requires Disjoint(pieces)
    requires IsSingleBit(position)
    ensures IsLegal(pieces, p, position)
      <==> position & Occupied(pieces) == 0 && Flips(pieces, p, position) != 0
  {
    LegalGivesFlips(pieces, p, position);
    FlipsGiveLegal(pieces, p, position);
  }

  lemma LegalGivesFlips(pieces: Pieces, p: Player, position: bv64)
    requires Disjoint(pieces)
    requires IsSingleBit(position)
    ensures IsLegal(pieces, p, position)
      ==> position & Occupied(pieces) == 0 && Flips(pieces, p, position) != 0
  {
    var player, opponent := Colour(pieces, p), Colour(pieces, CurrentOpponent(p));
    ColoursDisjoint(pieces, p);
    SingleEmpty(position, pieces[Black], pieces[White]);
    MovesGiveBridges(position, player, opponent, Empty(pieces));
    MeetsSymmetric(position, LegalMoves(pieces, p));
  }

  lemma FlipsGiveLegal(pieces: Pieces, p: Player, position: bv64)
    requires Disjoint(pieces)
    requires IsSingleBit(position)
    ensures position & Occupied(pieces) == 0 && Flips(pieces, p, position) != 0
      ==> IsLegal(pieces, p, position)
  {
    var player, opponent := Colour(pieces, p), Colour(pieces, CurrentOpponent(p));
    ColoursDisjoint(pieces, p);
    SingleEmpty(position, pieces[Black], pieces[White]);
    BridgesGiveMoves(position, player, opponent, Empty(pieces));
    MeetsSymmetric(position, LegalMoves(pieces, p));
  }

  /** Only opponent discs are flipped. */
  lemma FlipsAreOpponents(position: bv64, player: bv64, opponent: bv64)
    ensures AllBridges(position, player, opponent) & opponent == AllBridges(position, player, opponent)
  {
    BridgesEachWithin(position, player, opponent);
    UnionInside(BridgeList(position, player, opponent), opponent);
  }

  lemma BridgesEachWithin(position: bv64, player: bv64, opponent: bv64)
    ensures forall j :: 0 <= j < |BridgeList(position, player, opponent)| ==>
      BridgeList(position, player, opponent)[j] & opponent == BridgeList(position, player, opponent)[j]
  {
    forall j | 0 <= j < |BridgeList(position, player, opponent)|
      ensures BridgeList(position, player, opponent)[j] & opponent == BridgeList(position, player, opponent)[j]
    {
      BridgeTowardWithin(j, position, player, opponent);
    }
  }

  lemma BridgeTowardWithin(j: int, position: bv64, player: bv64, opponent: bv64)
    ensures BridgeToward(j, position, player, opponent) & opponent == BridgeToward(j, position, player, opponent)
  {
    if 0 <= j < |ALL_DIRECTIONS| {
      BridgeWithin(Shifter(ALL_DIRECTIONS[j]), position, player, opponent);
    }
  }

  /** After a move the mover's and the opponent's new masks are still disjoint. */
  lemma PlayKeepsApart(position: bv64, player: bv64, opponent: bv64)
    requires player & opponent == 0
    ensures (player | FlipMask(position, player, opponent))
          & (opponent & !FlipMask(position, player, opponent)) == 0
  {
    var mask := FlipMask(position, player, opponent);
    JoinApart(player, opponent, mask, player | mask, opponent & !mask);
  }

  lemma JoinApart(player: bv64, opponent: bv64, mask: bv64, mine: bv64, theirs: bv64)
    requires mine == player | mask && theirs == opponent & !mask
    requires player & opponent == 0
    ensures mine & theirs == 0
  {
  }

  /** The flip mask holds the played square and otherwise only opponent discs. */
  lemma FlipMaskShape(position: bv64, player: bv64, opponent: bv64)
    ensures position & FlipMask(position, player, opponent) == position
    ensures FlipMask(position, player, opponent) & !(position | opponent) == 0
  {
    FlipsAreOpponents(position, player, opponent);
    MaskShape(position, opponent, AllBridges(position, player, opponent), FlipMask(position, player, opponent));
  }

  lemma MaskShape(position: bv64, opponent: bv64, flips: bv64, mask: bv64)
    requires mask == position | flips
    requires flips & opponent == flips
    ensures position & mask == position
    ensures mask & !(position | opponent) == 0
  {
  }

  /** A move fills exactly the played square: the discs cover the old ones plus it. */
  lemma PlayFillsSquare(position: bv64, player: bv64, opponent: bv64)
    ensures (player | FlipMask(position, player, opponent))
          | (opponent & !FlipMask(position, player, opponent)) == (player | opponent) | position
  {
    FlipMaskShape(position, player, opponent);
    JoinCovers(player, opponent, position, FlipMask(position, player, opponent),
      player | FlipMask(position, player, opponent), opponent & !FlipMask(position, player, opponent));
  }

  lemma JoinCovers(player: bv64, opponent: bv64, position: bv64, mask: bv64, mine: bv64, theirs: bv64)
    requires mine == player | mask && theirs == opponent & !mask
    requires position & mask == position
    requires mask & !(position | opponent) == 0
    ensures mine | theirs == (player | opponent) | position
  {
  }

  /** Outside the flip mask every square keeps its colour. */
  lemma PlayKeepsOutside(position: bv64, player: bv64, opponent: bv64)
    ensures (player | FlipMask(position, player, opponent)) & !FlipMask(position, player, opponent)
      == player & !FlipMask(position, player, opponent)
    ensures (opponent & !FlipMask(position, player, opponent)) & !FlipMask(position, player, opponent)
      == opponent & !FlipMask(position, player, opponent)
  {
    MaskedOut(player, opponent, FlipMask(position, player, opponent));
  }

  lemma MaskedOut(player: bv64, opponent: bv64, mask: bv64)
    ensures (player | mask) & !mask == player & !mask
    ensures (opponent & !mask) & !mask == opponent & !mask
  {
  }

  /** Playing a single empty square adds exactly one disc to the board. */
  lemma PlayCountsOne(position: bv64, player: bv64, opponent: bv64)
    requires player & opponent == 0
    requires IsSingleBit(position)
    requires (player | opponent) & position == 0
    ensures BitCount(player | FlipMask(position, player, opponent))
          + BitCount(opponent & !FlipMask(position, player, opponent))
         == BitCount(player) + BitCount(opponent) + 1
  {
    FlipMaskShape(position, player, opponent);
    CountAfterMask(position, player, opponent, FlipMask(position, player, opponent));
  }

  /**
   * The counting argument of a move, for any mask made of the played square
   * and opponent discs.
   */
  lemma CountAfterMask(position: bv64, player: bv64, opponent: bv64, mask: bv64)
    requires player & opponent == 0
    requires IsSingleBit(position)
    requires (player | opponent) & position == 0
    requires position & mask == position
    requires mask & !(position | opponent) == 0
    ensures BitCount(player | mask) + BitCount(opponent & !mask) == BitCount(player) + BitCount(opponent) + 1
  {
    CountNamed(position, player, opponent, mask, player | mask, opponent & !mask);
  }

  lemma CountNamed(position: bv64, player: bv64, opponent: bv64, mask: bv64, mine: bv64, theirs: bv64)
    requires mine == player | mask && theirs == opponent & !mask
    requires player & opponent == 0
    requires IsSingleBit(position)
    requires (player | opponent) & position == 0
    requires position & mask == position
    requires mask & !(position | opponent) == 0
    ensures BitCount(mine) + BitCount(theirs) == BitCount(player) + BitCount(opponent) + 1
  {
    JoinApart(player, opponent, mask, mine, theirs);
    JoinCovers(player, opponent, position, mask, mine, theirs);
    CountDisjoint(mine, theirs, (player | opponent) | position);
    CountWithSquare(position, player, opponent);
  }

  /** The discs of two disjoint masks add up. */
  lemma CountDisjoint(a: bv64, b: bv64, both: bv64)
    requires a | b == both
    requires a & b == 0
    ensures BitCount(both) == BitCount(a) + BitCount(b)
  {
    BitCountUnion(a, b);
  }

  lemma CountWithSquare(position: bv64, player: bv64, opponent: bv64)
    requires player & opponent == 0
    requires IsSingleBit(position)
    requires (player | opponent) & position == 0
    ensures BitCount((player | opponent) | position) == BitCount(player) + BitCount(opponent) + 1
  {
    BitCountUnion(player | opponent, position);
    BitCountUnion(player, opponent);
    BitCountSingle(position);
  }


  /** A legal move takes at least one disc from the opponent. */
  lemma PlayTakes(position: bv64, player: bv64, opponent: bv64, empty: bv64)
    requires player & opponent == 0
    requires IsSingleBit(position)
    requires Meets(position, AllMoves(player, opponent, empty))
    ensures BitCount(opponent & !FlipMask(position, player, opponent)) < BitCount(opponent)
  {
    LegalFlipsSome(position, player, opponent, empty);
    MaskTakes(position, player, opponent);
  }

  /** A legal move turns at least one opponent disc. */
  lemma LegalFlipsSome(position: bv64, player: bv64, opponent: bv64, empty: bv64)
    requires player & opponent == 0
    requires IsSingleBit(position)
    requires Meets(position, AllMoves(player, opponent, empty))
    ensures opponent & FlipMask(position, player, opponent) != 0
  {
    LegalHasBridge(position, player, opponent, empty);
    FlipMaskTakes(position, player, opponent);
  }

  lemma LegalHasBridge(position: bv64, player: bv64, opponent: bv64, empty: bv64)
    requires player & opponent == 0
    requires IsSingleBit(position)
    requires Meets(position, AllMoves(player, opponent, empty))
    ensures AllBridges(position, player, opponent) != 0
  {
    MovesGiveBridges(position, player, opponent, empty);
  }

  /** Turning some opponent discs leaves the opponent fewer discs. */
  lemma MaskTakes(position: bv64, player: bv64, opponent: bv64)
    requires opponent & FlipMask(position, player, opponent) != 0
    ensures BitCount(opponent & !FlipMask(position, player, opponent)) < BitCount(opponent)
  {
    CountTaken(opponent, FlipMask(position, player, opponent), opponent & !FlipMask(position, player, opponent));
  }

  lemma FlipMaskTakes(position: bv64, player: bv64, opponent: bv64)
    requires AllBridges(position, player, opponent) != 0
    ensures opponent & FlipMask(position, player, opponent) != 0
  {
    FlipsAreOpponents(position, player, opponent);
    TakenNonEmpty(position, opponent, AllBridges(position, player, opponent), FlipMask(position, player, opponent));
  }

  lemma TakenNonEmpty(position: bv64, opponent: bv64, flips: bv64, mask: bv64)
    requires mask == position | flips
    requires flips & opponent == flips
    requires flips != 0
    ensures opponent & mask != 0
  {
  }

  /** Removing a mask that meets x leaves fewer discs. */
  lemma CountTaken(x: bv64, mask: bv64, rest: bv64)
    requires rest == x & !mask
    requires x & mask != 0
    ensures BitCount(rest) < BitCount(x)
  {
    SplitByMask(x, mask);
    BitCountZero(x & mask);
  }

  lemma SplitByMask(x: bv64, mask: bv64)
    ensures BitCount(x) == BitCount(x & !mask) + BitCount(x & mask)
  {
    DisjointHalves(x, mask);
    BitCountUnion(x & !mask, x & mask);
  }

  lemma DisjointHalves(x: bv64, mask: bv64)
    ensures (x & !mask) & (x & mask) == 0
    ensures (x & !mask) | (x & mask) == x
  {
  }

  /**
   * What a move request does to a board whose colours never share a
   * square: a failed request leaves the board as it was; a successful one
   * keeps the colours apart, fills exactly the played square, adds one
   * disc, and changes no square outside its flip mask.
   */
  lemma PlayEffects(pieces: Pieces, p: Player, c: Coordinates)
    requires Disjoint(pieces)
    ensures MoveEffects(pieces, p, BitPosition(c), PlayOutcome(pieces, p, c).0, PlayOutcome(pieces, p, c).1)
  {
    hide *;
    OutcomeCases(pieces, p, c);
    if IsLegal(pieces, p, BitPosition(c)) {
      BitPositionAtMostOne(c);
      LegalIsMove(pieces, p, BitPosition(c));
      LegalEffects(pieces, p, BitPosition(c));
    } else {
      FailedEffects(pieces, p, BitPosition(c));
    }
  }

  /**
   * What a request at `position` may do to `pieces`, given its status and
   * the board it leaves: a refused request leaves the board as it was; the
   * colours stay apart; an accepted one fills exactly the played square,
   * adds one disc, and changes no square outside its flip mask.
   */
  ghost predicate MoveEffects(pieces: Pieces, p: Player, position: bv64, status: GameStatus, after: Pieces)
  {
    && (status == Failed ==> after == pieces)
    && Disjoint(after)
    && (status == Successful ==>
          && Occupied(after) == Occupied(pieces) | position
          && BitCount(Occupied(after)) == BitCount(Occupied(pieces)) + 1
          && var mask := FlipMask(position, Colour(pieces, p), Colour(pieces, CurrentOpponent(p)));
             && Colour(after, p) & !mask == Colour(pieces, p) & !mask
             && Colour(after, CurrentOpponent(p)) & !mask == Colour(pieces, CurrentOpponent(p)) & !mask)
  }

  /** A refused request changes nothing. */
  lemma FailedEffects(pieces: Pieces, p: Player, position: bv64)
    requires Disjoint(pieces)
    ensures MoveEffects(pieces, p, position, Failed, pieces)
  {
  }

  /** The effects of a legal move, on the board Play builds. */
  lemma LegalEffects(pieces: Pieces, p: Player, position: bv64)
    requires Disjoint(pieces)
    requires position == 0 || IsSingleBit(position)
    requires Meets(position, LegalMoves(pieces, p))
    ensures MoveEffects(pieces, p, position, Successful, Play(pieces, p, position))
  {
    PlayApart(pieces, p, position);
    PlayFills(pieces, p, position);
    PlayOutside(pieces, p, position);
  }

  lemma OutcomeCases(pieces: Pieces, p: Player, c: Coordinates)
    ensures IsLegal(pieces, p, BitPosition(c)) ==>
              PlayOutcome(pieces, p, c) == (Successful, Play(pieces, p, BitPosition(c)))
    ensures !IsLegal(pieces, p, BitPosition(c)) ==> PlayOutcome(pieces, p, c) == (Failed, pieces)
  {
  }

  lemma LegalIsMove(pieces: Pieces, p: Player, position: bv64)
    ensures IsLegal(pieces, p, position) ==> Meets(position, LegalMoves(pieces, p))
  {
  }

  /** A move keeps the colours apart. */
  lemma PlayApart(pieces: Pieces, p: Player, position: bv64)
    requires Disjoint(pieces)
    ensures Disjoint(Play(pieces, p, position))
  {
    hide *;
    PlayColoursApart(pieces, p, position);
    DisjointFromColours(Play(pieces, p, position), p);
  }

  lemma PlayColoursApart(pieces: Pieces, p: Player, position: bv64)
    requires Disjoint(pieces)
    ensures Colour(Play(pieces, p, position), p) & Colour(Play(pieces, p, position), CurrentOpponent(p)) == 0
  {
    hide *;
    PlayArranged(pieces, p, position);
    ColoursDisjoint(pieces, p);
    PlayKeepsApart(position, Colour(pieces, p), Colour(pieces, CurrentOpponent(p)));
  }

  /** A legal move fills exactly its own square, which was empty: one disc more. */
  lemma PlayFills(pieces: Pieces, p: Player, position: bv64)
    requires position == 0 || IsSingleBit(position)
    requires Meets(position, LegalMoves(pieces, p))
    ensures Occupied(Play(pieces, p, position)) == Occupied(pieces) | position
    ensures BitCount(Occupied(Play(pieces, p, position))) == BitCount(Occupied(pieces)) + 1
  {
    hide *;
    PlayFillsFree(pieces, p, position);
    CountOneMore(Occupied(pieces), position);
  }

  /** A legal move lands on a free square and occupies exactly it as well. */
  lemma PlayFillsFree(pieces: Pieces, p: Player, position: bv64)
    requires position == 0 || IsSingleBit(position)
    requires Meets(position, LegalMoves(pieces, p))
    ensures IsSingleBit(position) && Occupied(pieces) & position == 0
    ensures Occupied(Play(pieces, p, position)) == Occupied(pieces) | position
  {
    hide *;
    MoveSquareFree(pieces, p, position);
    PlayOccupies(pieces, p, position);
  }

  /** The square of a legal move is a single empty square. */
  lemma MoveSquareFree(pieces: Pieces, p: Player, position: bv64)
    requires position == 0 || IsSingleBit(position)
    requires Meets(position, LegalMoves(pieces, p))
    ensures IsSingleBit(position) && Occupied(pieces) & position == 0
  {
    hide *;
    LegalMovesUnoccupied(pieces, p);
    SquareEmpty(position, LegalMoves(pieces, p), Occupied(pieces));
  }

  /** The discs after a move are the discs before it and the played square. */
  lemma PlayOccupies(pieces: Pieces, p: Player, position: bv64)
    ensures Occupied(Play(pieces, p, position)) == Occupied(pieces) | position
  {
    hide *;
    PlayColoursCover(pieces, p, position);
    ColourUnion(pieces, p);
    ColourUnion(Play(pieces, p, position), p);
  }

  lemma PlayColoursCover(pieces: Pieces, p: Player, position: bv64)
    ensures Colour(Play(pieces, p, position), p) | Colour(Play(pieces, p, position), CurrentOpponent(p))
         == (Colour(pieces, p) | Colour(pieces, CurrentOpponent(p))) | position
  {
    hide *;
    PlayArranged(pieces, p, position);
    PlayFillsSquare(position, Colour(pieces, p), Colour(pieces, CurrentOpponent(p)));
  }

  /** One square added to a mask that lacks it counts one more. */
  lemma CountOneMore(occupied: bv64, position: bv64)
    requires IsSingleBit(position) && occupied & position == 0
    ensures BitCount(occupied | position) == BitCount(occupied) + 1
  {
    BitCountUnion(occupied, position);
    BitCountSingle(position);
  }

  /** Outside its flip mask a move changes no square of either colour. */
  lemma PlayOutside(pieces: Pieces, p: Player, position: bv64)
    ensures var mask := FlipMask(position, Colour(pieces, p), Colour(pieces, CurrentOpponent(p)));
            Colour(Play(pieces, p, position), p) & !mask == Colour(pieces, p) & !mask
            && Colour(Play(pieces, p, position), CurrentOpponent(p)) & !mask
               == Colour(pieces, CurrentOpponent(p)) & !mask
  {
    hide *;
    PlayArranged(pieces, p, position);
    PlayKeepsOutside(position, Colour(pieces, p), Colour(pieces, CurrentOpponent(p)));
  }

  /** The colours after a move: the flip mask joins the mover and leaves the opponent. */
  lemma PlayArranged(pieces: Pieces, p: Player, position: bv64)
    ensures Colour(Play(pieces, p, position), p)
         == Colour(pieces, p) | FlipMask(position, Colour(pieces, p), Colour(pieces, CurrentOpponent(p)))
    ensures Colour(Play(pieces, p, position), CurrentOpponent(p))
         == Colour(pieces, CurrentOpponent(p)) & !FlipMask(position, Colour(pieces, p), Colour(pieces, CurrentOpponent(p)))
  {
  }

  /** A played square among the moves, which avoid the discs, is empty. */
  lemma SquareEmpty(position: bv64, moves: bv64, occupied: bv64)
    requires position == 0 || IsSingleBit(position)
    requires Meets(position, moves) && moves & occupied == 0
    ensures IsSingleBit(position) && (occupied & position == 0)
  {
  }

  /** The player with more discs, or None on equal counts. */
  function Winner(pieces: Pieces): (winner: Option<Player>)
    ensures winner == Some(Black) <==> BitCount(pieces[Black]) > BitCount(pieces[White])
    ensures winner == Some(White) <==> BitCount(pieces[Black]) < BitCount(pieces[White])
    ensures winner == None <==> BitCount(pieces[Black]) == BitCount(pieces[White])
  {
    var scoreBlack, scoreWhite := BitCount(pieces[Black]), BitCount(pieces[White]);
    if scoreBlack > scoreWhite then Some(Black)
    else if scoreBlack < scoreWhite then Some(White)
    else None
  }

  /** Swapping the colours swaps the winner. */
  lemma WinnerSwap(pieces: Pieces)
    ensures Winner(map[Black := pieces[White], White := pieces[Black]])
      == match Winner(pieces)
         case None => None
         case Some(p) => Some(CurrentOpponent(p))
  {
  }
}

# Reversi bitboard engine in Dafny

This project models the core of a Java Reversi (Othello) engine and proves
properties of that model.

**The board.** The board is a pair of 64-bit masks, one per colour.
- Square (row `y`, column `x`) is bit `8*(y-1) + (8-x)`.
- Eight one-square shifts (north-west … west) move a whole mask at once.
- The sideways shifts clear the column a square would wrap into.

**The engine.** It does the following:
- finds every legal move of a side with one sweep per direction;
- plays a move by turning over every run of opponent discs the new disc closes;
- scores boards with a per-difficulty heuristic;
- picks the computer's move with an alpha-beta negamax search.

The search plays each candidate on the live board and takes it back by
copying a saved board over it.

**The presenter.** It drives the game:
- it starts with the opening position and Black to move;
- each turn either plays the square chosen by a person or asks the engine;
- it reports the turn as refused (`Failed`), passed to the opponent (`Successful`), a pass forced on the opponent (`Skipped`), or the end of the game with its winner (`Ended`).

**Modules.** They follow the Java classes:

| Module | Models |
|---|---|
| `Bits` | `Long.bitCount` and `Long.numberOfTrailingZeros`, on `bv64` |
| `BitShifters` | `BitShifters` |
| `Walks` | the sweep along one direction, generic in the shift |
| `Unions` | the OR of the eight per-direction masks |
| `Players` | `Player` |
| `Types` | `Difficulty`, `GameStatus`, `Coordinates` and `Move` |
| `BitBoards` | `BitBoard`, a class whose `pieces` map the Java setters update |
| `Rules` | the value-level meaning of move generation, flipping and the winner |
| `Evaluation` | `Evaluate` |
| `Cursors` | the move cursor of the search loops (`>>> tz`, `<< tz`, `>>> 1`, `<< 1`) |
| `Search` | the pure reference of `negamax` and `mostEvaluatedPlay`, plus an unpruned game value |
| `Openings` | the opening position and the values the repository's unit tests expect |
| `Models` | `Model`, a class over a `BitBoard`; its methods keep the Java loops |
| `Presenters` | `Presenter`, a class over a `Model`, and the turn it plays |

**How the methods are proved.**
- Each method is proved against a function of `Rules` or `Search`: for example `AvailableMoves == LegalMoves(board.pieces, p)`, and `Negamax` equals `NegamaxScore` and leaves the board as it found it.
- Lemmas then state what those functions promise.
- The move generator finds exactly the empty squares that close a bridge, and a move turns over exactly those bridges.
- The search stays inside the alpha-beta window and agrees with the unpruned game value.
- Every turn of the presenter keeps the game playable until it ends.

## Model

| member | source | states |
|---|---|---|
| Types.NewMove | src/MVP/Move.java:30-34 | a new move sits on the given square with the sentinel score -1000 |
| Players.Label | src/MVP/Enums/Player.java:17-18 | the heuristic label is +1 or -1, and +1 exactly for Black |
| Players.CurrentOpponent | src/MVP/Enums/Player.java:52-58 | the opponent is the other colour and carries the opposite label |
| Players.OpponentInvolution | src/MVP/Enums/Player.java:52-58 | the opponent of the opponent is the player again |
| Bits.BitCount | src/MVP/Model.java:46-47 | a population count of a 64-bit mask is at most 64 |
| Bits.TrailingZeros | src/MVP/Model.java:205 | the trailing-zero count is at most 64, and 64 exactly for the empty mask, as `Long.numberOfTrailingZeros` |
| Bits.TrailingZerosIsLowestBit | src/MVP/Model.java:205-206 | for a non-empty mask, `1 << numberOfTrailingZeros` is its lowest set bit |
| Bits.BitCountUnion | src/MVP/Model.java:46-47 | the counts of two disjoint masks add up under OR |
| BitShifters.AllDirectionsComplete | src/BIT_MANAGEMENT/BitShifters.java:21-80 | the direction list holds each of the eight registered directions once |
| BitShifters.ShiftDistributes | src/BIT_MANAGEMENT/BitShifters.java:21-80 | every shift maps the empty mask to itself and a union to the union of the images |
| BitShifters.ShiftMonotone | src/BIT_MANAGEMENT/BitShifters.java:21-80 | every shift maps a sub-mask to a sub-mask of the image |
| BitShifters.ShifterAdjoint | src/BIT_MANAGEMENT/BitShifters.java:21-80 | the image of m under a shift meets q exactly when m meets the opposite shift of q |
| BitShifters.ShifterKeepsAtMostOne | src/BIT_MANAGEMENT/BitShifters.java:21-80 | a single square shifts to a single square or off the board |
| BitShifters.ShiftAvoidsEdges | src/BIT_MANAGEMENT/BitShifters.java:37-80 | the eastward shifts never land on column 1 and the westward ones never land on column 8 |
| BitShifters.VerticalShiftsDropRows | src/BIT_MANAGEMENT/BitShifters.java:29-64 | north drops row 8 and south drops row 1; the other rows move whole |
| BitShifters.EightShiftsVanish | src/BIT_MANAGEMENT/BitShifters.java:21-80 | eight steps in one direction leave the board whatever the start, which bounds every sweep loop |
| BitBoards.BitBoard.constructor | src/BIT_MANAGEMENT/BitBoard.java:14-20 | a new board holds no disc of either colour |
| BitBoards.BitBoard.FromBits | src/BIT_MANAGEMENT/BitBoard.java:22-27 | a board built from two masks holds exactly those masks |
| BitBoards.BitBoard.SetColorBits | src/BIT_MANAGEMENT/BitBoard.java:34-37 | only the given colour's mask is replaced; the other colour is unchanged |
| BitBoards.BitBoard.EmptySlots | src/BIT_MANAGEMENT/BitBoard.java:39-42 | the empty squares meet neither colour, and together with both colours they cover all 64 squares |
| BitBoards.BitBoard.CopyBoard | src/BIT_MANAGEMENT/BitBoard.java:59-63 | the destination ends with the source's two masks; a distinct source is unchanged |
| BitBoards.BitPositionIndex | src/BIT_MANAGEMENT/BitBoard.java:44-49 | on the board, the bit of (y, x) is `1 << (8*(y-1) + 8-x)` |
| BitBoards.BitPositionIsSingle | src/BIT_MANAGEMENT/BitBoard.java:44-49 | the bit of an on-board square is a single bit |
| BitBoards.BitPositionAtMostOne | src/BIT_MANAGEMENT/BitBoard.java:44-49 | for any coordinates, even off the board, the position has at most one bit |
| BitBoards.BoardPosition | src/BIT_MANAGEMENT/BitBoard.java:51-57 | the decoded square is on the board exactly when the position is non-empty |
| BitBoards.BoardPositionOfBitPosition | src/BIT_MANAGEMENT/BitBoard.java:44-57 | decoding the bit of an on-board square gives the square back |
| BitBoards.BitPositionOfBoardPosition | src/BIT_MANAGEMENT/BitBoard.java:44-57 | encoding a decoded position gives its lowest bit, so a single bit comes back unchanged |
| BitBoards.BoardPositionIndex | src/BIT_MANAGEMENT/BitBoard.java:51-57 | a non-empty position decodes to the on-board square whose index is its trailing-zero count |
| BitBoards.ShiftSquare | src/BIT_MANAGEMENT/BitShifters.java:21-80 | shifting a square's bit gives the bit of its neighbour in that direction, or 0 past the edge |
| BitBoards.EdgeMasksAreColumns | src/BIT_MANAGEMENT/BitShifters.java:14-15 | LEFT_EDGE_MASK is exactly column 1 and RIGHT_EDGE_MASK exactly column 8 |
| Walks.MovesAlongBridge | src/MVP/Model.java:75-141 | a square is found by the sweep in one direction exactly when it is empty and closes a bridge in the opposite direction |
| Walks.MovesAlongEmpty | src/MVP/Model.java:82 | a sweep only ever reports empty squares |
| Walks.BridgeWithin | src/MVP/Model.java:126-136 | a bridge holds only opponent discs |
| Rules.LegalMovesUnoccupied | src/MVP/Model.java:65-88 | no legal move lies on an occupied square |
| Rules.MovesIffBridges | src/MVP/Model.java:75-141 | a square is among the available moves exactly when it is empty and some direction closes a bridge from it |
| Rules.LegalIffFlips | src/MVP/Model.java:90-141 | a square is legal exactly when it is empty and the move turns something over |
| Rules.FlipsAreOpponents | src/MVP/Model.java:115-141 | the bridges of a move hold only opponent discs |
| Rules.LegalFlipsSome | src/MVP/Model.java:104-145 | a legal move turns over at least one opponent disc |
| Rules.PlayTakes | src/MVP/Model.java:144-145 | a legal move strictly lowers the opponent's disc count |
| Rules.PlayKeepsApart | src/MVP/Model.java:144-145 | the colours stay disjoint after the masks are updated |
| Rules.PlayFillsSquare | src/MVP/Model.java:144-145 | the discs after the update are the discs before plus the played square |
| Rules.PlayKeepsOutside | src/MVP/Model.java:144-145 | no square outside the flip mask changes colour |
| Rules.PlayCountsOne | src/MVP/Model.java:144-145 | playing an empty square adds exactly one disc in total |
| Rules.PlayEffects | src/MVP/Model.java:100-155 | on a board with disjoint colours, a refused move leaves the board as it was; otherwise the colours stay apart, exactly the played square is filled, one disc is added, and nothing outside the flip mask changes |
| Rules.Winner | src/MVP/Model.java:43-61 | Black wins exactly on more discs, White exactly on fewer, and no one on a tie |
| Rules.WinnerSwap | src/MVP/Model.java:43-61 | swapping the colours swaps the winner |
| Evaluation.Evaluate | src/MVP/Evaluate.java:18-65 | the heuristic lies in 0..100; it is 0 for Intermediate and Hardcore; for Beginner it lies between one and four times the disc count, and is 0 exactly when the side has no disc |
| Evaluation.BeginnerBounds | src/MVP/Evaluate.java:21-43 | the Beginner score lies between one and four times the disc count, and is 0 exactly for no disc |
| Evaluation.BeginnerMonotone | src/MVP/Evaluate.java:21-43 | more discs never lower the Beginner score |
| Evaluation.BeginnerAdditive | src/MVP/Evaluate.java:21-43 | the Beginner score of two disjoint sets of discs is the sum of their scores |
| Evaluation.BeginnerSquare | src/MVP/Evaluate.java:29-38 | one disc is worth 4 on a corner, 2 elsewhere on the outer ring and 1 inside |
| Evaluation.EvaluateIgnoresOpponent | src/MVP/Evaluate.java:24-27 | the score depends on the evaluated side's discs only |
| Cursors.CursorStart | src/MVP/Model.java:198 | the cursor starts at bit 0 with every move pending |
| Cursors.ShiftDownIs | src/MVP/Model.java:216 | the one-place-at-a-time shift used by the loop is `>>>` by the trailing-zero count |
| Cursors.ShiftUpIs | src/MVP/Model.java:206 | the one-place-at-a-time shift used by the loop is `<<` by the trailing-zero count |
| Cursors.CursorTurn | src/MVP/Model.java:205-218 | one iteration lands on the lowest pending move and leaves exactly the other pending moves |
| Cursors.PendingNone | src/MVP/Model.java:202 | when the move mask is empty no move is pending, so the loop has seen every move |
| Search.Max | src/MVP/Model.java:211-212 | `Math.max`: at least both arguments and equal to one of them |
| Search.RestCount | src/MVP/Model.java:216-218 | stepping past the lowest pending move removes exactly one move |
| Search.Leaf | src/MVP/Model.java:182-186 | a leaf score lies in -100..100 |
| Search.LeafSigned | src/MVP/Model.java:185 | a leaf scores -1 times the player's label times the heuristic of the opponent |
| Search.NegamaxCases | src/MVP/Model.java:176-202 | leaf at depth 0 or when nobody can move; a pass spends one level with the window negated; otherwise the scan over the moves |
| Search.NegamaxAgrees | src/MVP/Model.java:174-227 | for any window inside -1000..1000: when the negated game value lies strictly inside (alpha, beta), the pruned score equals the game value; when it lies at or past a bound, the negated pruned score lies at or past the same bound |
| Search.FullWindow | src/MVP/Model.java:174-227 | with the full window (-1000, 1000) the pruned search returns the unpruned game value |
| Search.NegamaxRange | src/MVP/Model.java:174-227 | for windows inside -1000..1000 the score stays inside -1000..1000 |
| Search.ValueRange | src/MVP/Model.java:174-227 | the unpruned game value lies in -100..100 |
| Search.Signed | src/MVP/Model.java:257 | a score seen from the player is the label times the score |
| Search.Improve | src/MVP/Model.java:259-264 | only a strictly higher score replaces the best move, so ties keep the earlier move; the kept score is the maximum |
| Search.BestPlay | src/MVP/Model.java:231-276 | with no move available the result is (0, 0) with the sentinel score |
| Search.BestPlayLegal | src/MVP/Model.java:231-276 | when the side has a move, the chosen square is on the board and legal, with a score in (-1000, 1000] |
| Search.BestPlayForBlack | src/MVP/Model.java:231-276 | for Black, the pruned choice equals the scan that searches every move with the full window |
| Openings.StartShape | src/MVP/Model.java:39-40 | the opening has two discs per side on four distinct squares, and the other 60 squares are empty |
| Openings.StartMovesBlack | test/test_MVP/Model/test_availableMoves.java:16-21 | Black's available moves at the opening are 17729692631040 |
| Openings.StartMovesWhite | test/test_MVP/Model/test_availableMoves.java:16-21 | White's available moves at the opening are 8813810810880 |
| Openings.StartPlay | test/test_MVP/Model/test_playMove.java:16-24 | Black at (3, 5) succeeds and leaves Black 34762915840 and White 68719476736 |
| Models.Model.constructor | src/MVP/Model.java:30-34 | a new model has an empty board and no difficulty |
| Models.Model.Init | src/MVP/Model.java:36-41 | the difficulty is set and the board is the opening position |
| Models.Model.EndingScenarios | src/MVP/Model.java:43-61 | the reported side is Winner of the board |
| Models.Model.AvailableMoves | src/MVP/Model.java:65-88 | the direction-by-direction sweep returns LegalMoves of the board |
| Models.Model.IsLegalMove | src/MVP/Model.java:90-93 | the answer is IsLegal: the position meets the available moves |
| Models.Model.PlayMove | src/MVP/Model.java:100-155 | the status and the new board are PlayOutcome of the old board (see Rules.PlayEffects) |
| Models.Model.Negamax | src/MVP/Model.java:174-227 | the board ends as it started and the result is NegamaxScore of the starting board |
| Models.Model.MostEvaluatedPlay | src/MVP/Model.java:231-276 | the board ends as it started and the move is BestPlay of the starting board |
| Models.SkipToMove | src/MVP/Model.java:205-206 | the cursor lands on the lowest pending move, a single bit |
| Models.StepPast | src/MVP/Model.java:216-218 | after the step exactly the other pending moves remain, strictly fewer than before |
| Models.ScanDirection | src/MVP/Model.java:77-84 | the while loop adds exactly the moves of one direction to the accumulator |
| Models.BridgesMask | src/MVP/Model.java:112-141 | the mask is the played square together with every closed bridge |
| Models.BridgeDirection | src/MVP/Model.java:117-137 | the do-while and the closing test give the bridge of one direction, or nothing |
| Models.CollectRun | src/MVP/Model.java:126-129 | the do-while collects the run of opponent discs and stops on the first non-opponent square |
| Presenters.Presenter.constructor | src/MVP/Presenter.java:43-46 | a new presenter owns a fresh model with an empty board and no difficulty |
| Presenters.Presenter.StartGame | src/MVP/Presenter.java:58-67 | Black moves first on the opening board, reported as Successful |
| Presenters.Presenter.PlayerTurn | src/MVP/Presenter.java:83-121 | the report, the side to move and the board are Turn of the old state at the given square, or at the computer's choice when none is given |
| Presenters.StartInPlay | src/MVP/Presenter.java:58-67 | the opening board has disjoint colours and Black, who moves first, has a move |
| Presenters.TurnRefused | src/MVP/Presenter.java:90-96 | a turn is refused exactly when the square is not a legal move |
| Presenters.TurnNextPlayer | src/MVP/Presenter.java:93-120 | a refused turn changes nothing; a pass keeps the mover, who still has a move while the opponent has none; otherwise the opponent, who has a move, moves next |
| Presenters.TurnEnds | src/MVP/Presenter.java:102-109 | the game ends exactly when, after an accepted move, neither side can move, and the report then names Winner of the board |
| Presenters.TurnAddsDisc | src/MVP/Presenter.java:90-100 | on a board with disjoint colours, a turn keeps them disjoint, and an accepted turn adds exactly one disc |
| Presenters.TurnKeepsInPlay | src/MVP/Presenter.java:83-121 | from a game in progress, every turn that does not end the game leaves a game in progress for the side to move next |
| Presenters.ComputerTurnAccepted | src/MVP/Presenter.java:86-90 | when the side to move has a move, the computer's choice is never refused |

## Left out

- The text user interface (`View`), the entry point (`Main`) and all printing are not modelled, because they are I/O. Printing covers the score line in `mostEvaluatedPlay` and the commented trace in `playerTurn`.
- The Java dispatch tables become functions over a `match`: the `HashMap` of shift lambdas (`BitShifters.shift`) and the `HashMap` of heuristics (`Evaluate.heuristicDic`).
  - The sweeps visit the directions in a fixed order, not the `keySet()` order. Their results are OR-ed, so the order does not change them.
  - The `IBitShift`, `IEvaluate`, `IBitBoard` and `IPresenter` interfaces are not modelled.
- `Model.getBoard` is not modelled. It returns the live board object, and `Information` keeps that same reference.
  - The model reports a snapshot of the two masks instead (`Information.board: Option<Pieces>`).
  - So an `Information` seen after a later move does not show that move.
- Presenters.Presenter.constructor: Java leaves `currentPlayer` null until `startGame`. The model starts it at Black.
- Presenters.Presenter.StartGame: the Java parameter has type `GameMode` (depths 0/5/7/9), yet it is passed to `Model.init`, which takes a `Difficulty` (depths 0/4/8/12). The model takes a `Difficulty`, the type `Model` uses.
- Presenters.Presenter.PlayerTurn requires that a game has been started. Before `startGame` the Java model has no difficulty and no current player, and fails on the first lookup.
  - It also requires a square to be given in player-versus-player mode.
  - In Java the computer's choice in that mode evaluates leaves with the PVP heuristic, which is missing from `heuristicDic` (a null lookup).
  - Models.Model.Negamax, Models.Model.MostEvaluatedPlay and Evaluation.Evaluate exclude PVP for the same reason.
- Search.BestPlayForBlack: agreement with the scan that searches every move in full is proved for Black only.
  - For White the window `(-1000, -bestPlay.score)` is passed without the label's sign.
  - A pruned child score can then differ from the full one.
  - The model reproduces the Java window as written. It also reproduces the `-beta` cutoff and the level spent on a pass.
- Java `int` arithmetic is modelled with unbounded integers, with no loss. Scores stay within -1000..1000 (Search.NegamaxRange) and depths are small.
- The search copies the board into a fresh `BitBoard` (`boardCopy`) and copies it back after each move, as Java does.
  - The model proves the board ends as it started.
  - It does not model the garbage left behind.

## Findings

No defect in the source is claimed. The sign of White's window is left as written (see Search.BestPlayForBlack under "Left out").

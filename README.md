# Cat-collecting level mode and sliding puzzle, in Dafny

PuzzleProject is a browser game with two modes. This project models the
rules behind both modes and proves properties of them.

- **Level mode.** Cat pieces stand on a rectangular board with obstacles and
  typed targets. The player selects a piece and moves it in a straight line:
  with a key press (one step, or the whole slide with Shift) or by clicking a
  cell in the piece's row or column. The level is solved when every target
  holds a piece of its type.
- **Classic mode.** An n × n sliding puzzle. A tile next to the blank trades
  places with it, and the board is shuffled by random legal moves.
- **The clock.** Both modes show elapsed seconds as `mm:ss`.

The modules:

- `LevelTypes`: the level-mode records (`Coord`, `Piece`, `Target`,
  `Obstacle`, `LevelDefinition`, `Direction`, `MoveResult`).
- `LevelBoard`: the board engine `LevelModel`.
  - First, its rules as functions on a `Board` value (`Blocked`, `MaxSlide`,
    `PathClear`, `ApplyMove`, `Solved`) and the lemmas about them.
  - Then the class `LevelModel` itself. It has the mutable piece table as a
    field, and its methods (loops included) are proved against those
    functions.
- `LevelSession`: the non-DOM part of `LevelController`.
  - Key decoding and level wrap-around.
  - How a key press or a cell click becomes a `(direction, steps)` move.
  - The class `LevelController`, with fields `levelIndex`,
    `selectedPieceId`, `steps`, `seconds` and its `LevelModel`.
- `LevelScenarios`: worked examples.
  - `LoneSlide` and `LoneMove` hold on any board with a single piece.
  - The others are on square w × w boards. Most are stated for every w >= 2,
    and the slide to an obstacle for every obstacle column from 2 to w - 1.
  - `OccupiedCellRefused` and `DiagonalClickIgnored` are stated for the
    5 × 5 board only.
- `Puzzle`: the classic-mode logic. It covers the solved state, the solved
  check, adjacency, a move, the list of legal moves, and the shuffle with its
  random draws passed in.
- `TimeFormat`: `formatTime`, with JavaScript's `String` and `padStart`.
- `JsMath`: JavaScript's `%` (it truncates toward zero), `Math.abs`, and
  division facts.
- `Wrappers`: `Option`.

Conventions:

- **Absent ids.** The TypeScript code tests optional ids (`ignoreId`, `movingId`,
  `selectedPieceId`) for truthiness, so an empty string acts exactly like an
  absent id. The model therefore writes "no id" as `""`.
- **The piece table.** The `Map` of pieces in `LevelModel` is modelled as a sequence
  in insertion order, because `getPieceAt` returns the first match in that
  order.
- **Obstacles.** They are a set of coordinates. `LevelModel`'s string key
  `${x},${y}` is injective on integer pairs, so the set holds the same
  information.

`getMaxSteps` stops at the last free cell, so a slide never ends on an
obstacle. With a piece at (0, 0) and an obstacle at (2, 0) the slide to the
right is 1 and the piece lands at (1, 0) (`LevelScenarios.ObstacleStopsSlide`
and `LevelScenarios.SlideToObstacle`).

`isObstacle` has no member of its own: its key lookup is the membership test
`c in b.obstacles` inside `LevelBoard.Blocked`.

## Model

| member | source | states |
|---|---|---|
| LevelBoard.Vector | src/level-mode/LevelModel.ts:10-15 | each direction is a unit vector along exactly one axis |
| LevelBoard.StepAdd | src/level-mode/LevelModel.ts:83-89 | stepping i cells then j cells equals stepping i + j cells, which is why the walk one cell at a time in `getMaxSteps` reaches offset k |
| LevelBoard.ObstacleCells | src/level-mode/LevelModel.ts:27 | the obstacle set holds exactly the positions of the level's obstacles |
| LevelBoard.Inside | src/level-mode/LevelModel.ts:59-61 | reference definition of `isInside`: the cells with 0 <= x < boardW and 0 <= y < boardH; `Blocked` proves every other cell blocked |
| LevelBoard.PieceAt | src/level-mode/LevelModel.ts:47-57 | absent iff no unskipped piece is at the cell; otherwise a piece of the table that sits there and is not skipped |
| LevelBoard.PieceAtFirst | src/level-mode/LevelModel.ts:47-57 | the piece found is the first one in table order that sits at the cell and is not skipped |
| LevelBoard.IndexOfId | src/level-mode/LevelModel.ts:42-45 | the table position of the (first) piece with the id, or absent iff no piece has it |
| LevelBoard.Lookup | src/level-mode/LevelModel.ts:42-45 | `pieces.get`: absent iff no piece has the id; otherwise a piece of the table with that id |
| LevelBoard.Blocked | src/level-mode/LevelModel.ts:59-75 | blocked off the board and on obstacles; elsewhere blocked iff a piece other than the mover occupies the cell |
| LevelBoard.SlideFrom | src/level-mode/LevelModel.ts:83-91 | every cell at offsets 1..k is free and the cell at k + 1 is blocked |
| LevelBoard.MaxSlide | src/level-mode/LevelModel.ts:77-92 | 0 for an unknown piece; otherwise the number of consecutive free cells from the neighbouring cell |
| LevelBoard.PathClear | src/level-mode/LevelModel.ts:94-110 | reference definition of `canMove`: steps > 0, the piece exists, and every cell at offsets 1..steps is free; `CanMoveIffWithinSlide` relates it to the slide |
| LevelBoard.ApplyMove | src/level-mode/LevelModel.ts:112-128 | reference definition of `movePiece` on a board value; `MoveSpec` states what it does and `MovePreservesValid` what it keeps |
| LevelBoard.SlideUnique | src/level-mode/LevelModel.ts:77-92 | the slide is the only count with all cells up to it free and the next one blocked |
| LevelBoard.CanMoveIffWithinSlide | src/level-mode/LevelModel.ts:77-110 | `canMove(p, d, s)` holds iff the piece exists and 1 <= s <= `getMaxSteps(p, d)` |
| LevelBoard.SlideIsLongestMove | src/level-mode/LevelModel.ts:77-110 | when the slide k is positive, `canMove(k)` holds and `canMove(k + 1)` fails |
| LevelBoard.CanMovePrefix | src/level-mode/LevelModel.ts:94-110 | `canMove(k)` implies `canMove(j)` for every 1 <= j <= k |
| LevelBoard.IndexOfIdSameIds | src/level-mode/LevelModel.ts:126 | replacing a piece in the table by one with the same id keeps every id at its table position |
| LevelBoard.MoveSpec | src/level-mode/LevelModel.ts:112-128 | a move succeeds iff `canMove`; on success only the moved piece changes, to old position + steps · vector with id and type kept, and the result reports `moved` and the requested steps; on failure the board is unchanged and the result is `{moved: false, steps: 0}` |
| LevelBoard.FailedMoveIdempotent | src/level-mode/LevelModel.ts:113-119 | repeating a failed move gives the same board and result |
| LevelBoard.MovePreservesValid | src/level-mode/LevelModel.ts:117-126 | any move keeps ids distinct, every piece on the board, off the obstacles, and no two pieces on one cell |
| LevelBoard.Solved | src/level-mode/LevelModel.ts:130-135 | reference definition of `isSolved`: every target's first occupant has the target's type; `SolvedIff` restates it by covering pieces |
| LevelBoard.PieceAtUnique | src/level-mode/LevelModel.ts:47-57 | on a board without overlapping pieces, `getPieceAt` without a skip id finds the piece standing on the cell |
| LevelBoard.SolvedIff | src/level-mode/LevelModel.ts:130-135 | on a valid board the level is solved iff every target has a piece of its type on its cell; with no targets it is solved |
| LevelBoard.PieceAtUpdateElsewhere | src/level-mode/LevelModel.ts:47-57 | replacing a piece by one that is also not at the cell does not change what `getPieceAt` finds there |
| LevelBoard.MoveOffTargetsKeepsSolved | src/level-mode/LevelModel.ts:112-135 | moving a piece between cells that are not target cells leaves `isSolved` unchanged |
| LevelBoard.LevelModel.constructor | src/level-mode/LevelModel.ts:23-28 | the engine holds the level's pieces, targets and obstacle cells, and a well-formed level gives a valid board |
| LevelBoard.LevelModel.GetPieceById | src/level-mode/LevelModel.ts:42-45 | a piece is returned iff the table has one with the id, and it carries that id |
| LevelBoard.LevelModel.GetPieceAt | src/level-mode/LevelModel.ts:47-57 | the loop returns what `PieceAt` specifies |
| LevelBoard.LevelModel.IsBlocked | src/level-mode/LevelModel.ts:67-75 | returns what `Blocked` specifies |
| LevelBoard.LevelModel.GetMaxSteps | src/level-mode/LevelModel.ts:77-92 | the while loop returns the slide `MaxSlide`; it ends because the distance to the board edge shrinks |
| LevelBoard.LevelModel.CanMove | src/level-mode/LevelModel.ts:94-110 | the for loop returns `PathClear`: steps > 0, the piece exists, and every cell at offsets 1..steps is free |
| LevelBoard.LevelModel.MovePiece | src/level-mode/LevelModel.ts:112-128 | the new table and the result are those of `ApplyMove` on the old board, and a valid board stays valid |
| LevelBoard.LevelModel.IsSolved | src/level-mode/LevelModel.ts:130-135 | the loop over targets returns `Solved` |
| LevelSession.NextDirection | src/level-mode/LevelController.ts:7-28 | ArrowUp/w/W give up, ArrowDown/s/S down, ArrowLeft/a/A left, ArrowRight/d/D right, each iff; every other key gives nothing |
| LevelSession.WrapLevel | src/level-mode/LevelController.ts:184-187 | for delta ±1 the new index is in range: the next or previous level, with the last wrapping to the first and the first to the last |
| LevelSession.WrapLevelRoundTrip | src/level-mode/LevelController.ts:184-187 | going to the next level and back, or back and forward, returns to the same level |
| LevelSession.CellIntent | src/level-mode/LevelController.ts:230-238 | no move iff the click is on the piece's own cell or off its row and column; otherwise a direction that reaches the clicked cell, with the exact distance under the modifier and 1 step without |
| LevelSession.CellMoveIntent | src/level-mode/LevelController.ts:222-238 | reference definition of the move a click asks for: none without a selection or for an unknown piece, otherwise `CellIntent` from the piece's cell; `MisalignedClickIgnored` and `ModifiedCellMoveIsExact` state its cases |
| LevelSession.DirectionalSteps | src/level-mode/LevelController.ts:214-219 | reference definition of the step count of a key press: the whole slide with the modifier, 1 without; `RunToWallStops` states what the full slide does |
| LevelSession.Perform | src/level-mode/LevelController.ts:241-247 | reference definition of `performMove` on a board: no attempt without a selection or with steps <= 0, otherwise `movePiece` |
| LevelSession.RunToWallStops | src/level-mode/LevelController.ts:214-219 | a modified directional move of a piece that can move moves it the whole slide, and then its slide in that direction is 0 |
| LevelSession.ModifiedCellMoveIsExact | src/level-mode/LevelController.ts:235-238 | a modified cell move lands the piece exactly on the clicked cell or changes nothing |
| LevelSession.MisalignedClickIgnored | src/level-mode/LevelController.ts:230-234 | a click off the piece's row and column, or on its own cell, asks for no move |
| LevelSession.LevelController.constructor | src/level-mode/LevelController.ts:55-128 | the session starts on level 0 with no selection and both counters at 0 |
| LevelSession.LevelController.LoadLevel | src/level-mode/LevelController.ts:193-199 | sets the index, builds a fresh engine for that level, clears the selection and sets steps and seconds to 0 |
| LevelSession.LevelController.SwitchLevel | src/level-mode/LevelController.ts:184-187 | loads the wrapped neighbouring level |
| LevelSession.LevelController.ReloadLevel | src/level-mode/LevelController.ts:189-191 | loads the current level from scratch |
| LevelSession.LevelController.ResetTimer | src/level-mode/LevelController.ts:289-292 | seconds back to 0, nothing else changes |
| LevelSession.LevelController.SelectPiece | src/level-mode/LevelController.ts:209-212 | the selection becomes the given id |
| LevelSession.LevelController.HandleMoveResult | src/level-mode/LevelController.ts:249-262 | the step counter rises by exactly 1 on a move, whatever its distance, and is unchanged otherwise; completion iff a move happened and the board is solved |
| LevelSession.LevelController.PerformMove | src/level-mode/LevelController.ts:241-247 | nothing happens without a selection or with steps <= 0; otherwise the board becomes that of `movePiece`, and the counter and completion follow the move |
| LevelSession.LevelController.HandleDirectionalMove | src/level-mode/LevelController.ts:214-220 | moves the selected piece by its whole slide with the modifier and by 1 without, as `performMove` |
| LevelSession.LevelController.HandleCellMove | src/level-mode/LevelController.ts:222-239 | a click asking for no move changes nothing; otherwise the move of `CellIntent` is performed |
| LevelScenarios.LoneSlide | src/level-mode/LevelModel.ts:47-92 | a piece alone on the board never blocks itself: it slides up to the first cell off the board or on an obstacle |
| LevelScenarios.LoneMove | src/level-mode/LevelModel.ts:112-128 | a possible move of a lone piece moves it the requested number of cells |
| LevelScenarios.OpenRowSlide | src/level-mode/LevelController.ts:214-219 | on an empty top row the modified slide of the corner piece is the board width minus 1 (4 on a 5 × 5 board) |
| LevelScenarios.SlideOntoTarget | src/level-mode/LevelModel.ts:112-128 | that slide lands the piece on the target in the far corner |
| LevelScenarios.TargetReachedSolves | src/level-mode/LevelModel.ts:130-135 | the level is unsolved with the piece in its starting corner and solved with it on the target |
| LevelScenarios.ObstacleStopsSlide | src/level-mode/LevelModel.ts:77-110 | an obstacle ox cells away stops the slide at ox - 1 and a move of ox cells is refused |
| LevelScenarios.SlideToObstacle | src/level-mode/LevelController.ts:214-219 | the modified slide towards the obstacle lands the piece next to it, and the level stays unsolved |
| LevelScenarios.OccupiedCellRefused | src/level-mode/LevelModel.ts:94-119 | a step into a cell held by another piece is refused and the board is unchanged |
| LevelScenarios.DiagonalClickIgnored | src/level-mode/LevelController.ts:230-234 | a click at (4, 3) for a piece at (0, 0) asks for no move, with or without the modifier |
| Puzzle.CreateSolvedState | src/logic/puzzle.ts:9-22 | the state has the given size and n² slots |
| Puzzle.SolvedStateIsSolved | src/logic/puzzle.ts:9-38 | the solved state is well formed, is solved, has the blank at n² - 1, and holds each of 0..n² - 1 once |
| Puzzle.SolvedIffCanonical | src/logic/puzzle.ts:9-38 | a well-formed state is solved iff it is the solved state of its size |
| Puzzle.Solved | src/logic/puzzle.ts:30-38 | reference definition of `isSolved`; `SolvedIffCanonical` proves it holds exactly of the solved state of the size |
| Puzzle.IsSolved | src/logic/puzzle.ts:30-38 | the loop returns the reference predicate `Solved`: slots 0..n² - 2 hold 1..n² - 1 and the last slot holds the blank |
| Puzzle.IndexToRowCol | src/logic/puzzle.ts:40-43 | a non-negative index is row · size + column with the column in 0..size - 1; a negative index gives a negative row |
| Puzzle.IsAdjacent | src/logic/puzzle.ts:45-51 | reference definition of `isAdjacent`, false for size 0; `AdjacentIff` and `AdjacentSymmetricIrreflexive` state what it means |
| Puzzle.AdjacentSymmetricIrreflexive | src/logic/puzzle.ts:45-51 | adjacency is symmetric and no index is adjacent to itself |
| Puzzle.AdjacentIff | src/logic/puzzle.ts:40-51 | two slots are adjacent iff they are size apart (one row apart) or 1 apart without a row break between them |
| Puzzle.GetMovableIndexes | src/logic/puzzle.ts:53-61 | exactly the slots adjacent to the blank, in strictly ascending order |
| Puzzle.MoveTile | src/logic/puzzle.ts:63-72 | a slot not adjacent to the blank leaves the state unchanged; an adjacent one moves its tile to the old blank, puts 0 at the slot, makes it the blank and keeps every other tile; the blank index changes iff the move is legal |
| Puzzle.MovePreservesTiles | src/logic/puzzle.ts:63-72 | a move keeps the state well formed and the tiles the same multiset |
| Puzzle.MoveReversible | src/logic/puzzle.ts:63-72 | moving the old blank slot back after a legal move restores the state |
| Puzzle.Replay | src/logic/puzzle.ts:76-88 | a state reached by a sequence of clicks is well formed, has the same size and the same multiset of tiles |
| Puzzle.Without | src/logic/puzzle.ts:81 | the filter keeps exactly the elements different from the value |
| Puzzle.ShuffleByMoves | src/logic/puzzle.ts:76-88 | the shuffled state is the replay of the input under clicks, each on a slot next to the blank of the state it acts on, so it stays well formed with the same size and tiles |
| Puzzle.LegalClicksAppend | src/logic/puzzle.ts:79-85 | a click next to the blank after a sequence of such clicks extends that sequence |
| Puzzle.ReplayAppend | src/logic/puzzle.ts:79-85 | replaying one more click is one more `moveTile` |
| TimeFormat.Digits | src/ui/view.ts:96 | `String` of a natural number is a non-empty digit string without a leading zero, one digit iff below 10 |
| TimeFormat.ToString | src/ui/view.ts:96 | `String` of a natural number is a digit string without a leading zero that reads back as the number; of a negative number, a minus sign followed by such a string for its magnitude |
| TimeFormat.Pad2 | src/ui/view.ts:96 | `padStart(2, '0')` leaves strings of two or more characters alone and left-fills shorter ones with zeros to length 2 |
| TimeFormat.FormatTime | src/ui/view.ts:93-97 | for a non-negative count the reading has at least 5 characters with the colon third from the end |
| TimeFormat.DigitsRoundTrip | src/ui/view.ts:96 | reading the digits of n back gives n |
| TimeFormat.LeadingZero | src/ui/view.ts:96 | a leading zero does not change the value of a digit string |
| TimeFormat.Pad2Digits | src/ui/view.ts:96 | padding a digit string keeps it a digit string of the same value |
| TimeFormat.FormatTimeReadsBack | src/ui/view.ts:93-97 | for a non-negative count the reading is mm:ss, with ss two digits below 60 and mm at least two digits, and mm · 60 + ss is the count |
| TimeFormat.FormatTimeInjective | src/ui/view.ts:93-97 | different non-negative counts give different readings |
| TimeFormat.FormatTimeWidth | src/ui/view.ts:96 | below 6000 seconds the reading has exactly 5 characters |
| TimeFormat.FormatTimeExamples | src/ui/view.ts:31 | 0 s reads "00:00", the header's initial text, and 75 s reads "01:15" |
| TimeFormat.FormatTimeHundredMinutes | src/ui/view.ts:93-97 | 6000 s reads "100:00": the minutes are padded, never truncated |
| TimeFormat.FormatTimeNegative | src/ui/view.ts:93-97 | -1 s reads "-1:-1", since floor division gives -1 minutes and JavaScript's `%` gives -1 seconds |
| JsMath.TruncRem | src/logic/puzzle.ts:42 | JavaScript's `%` for a positive divisor: the remainder has the sign of the dividend, is smaller than the divisor in magnitude, and differs from the dividend by a multiple of the divisor, which fixes its value; on non-negative dividends it is the Euclidean one |
| JsMath.Abs | src/logic/puzzle.ts:48-49 | `Math.abs`: a non-negative number equal to n or -n |

## Left out

- All DOM work is not part of this model. That covers `LevelView`, `createView`, `renderGrid` and `updateHud`, the view calls inside `loadLevel`, `selectPiece` and `handleMoveResult`, and `src/main.ts`. It is presentation with no rule to check.
- Event decoding (`closest`, `dataset`, the cell index to coordinate arithmetic) is not modelled; the clicked cell and the key are parameters.
- Timers are left out: `startTimer`, `stopTimer` and the `setInterval` tick that adds 1 to `seconds` are asynchronous. `seconds` is a field that `loadLevel` and `resetTimer` set to 0.
- `getPieces` and `getTargets` return copies; `getLevel` returns the level object itself, which no caller changes. The model reads the pieces and targets through `State()` and holds the level as the constant field `level`.
- Defensive copies (`{ ...piece }`, `cloneState`) are not modelled. Datatypes are values, so a copy is the value itself, and `MoveTile` builds a new state without touching its input.
- Non-integer and non-finite numbers are not modelled. Coordinates, sizes, step counts and seconds are integers.
- Numbers are unbounded integers. JavaScript's loss of precision above 2^53 (where `steps += 1` and `seconds += 1` stop changing the value) and `String`'s exponent form from 10^21 (`formatTime(6e22)` reads `1e+21:00`) are not modelled; no play of the game reaches either.
- The default arguments of `createSolvedState` (`DEFAULT_SIZE`, 4) and `shuffleByMoves` (200 moves) are not modelled; the size and the number of moves are always parameters.
- The puzzle size is a natural number. A size of 0 is kept: it gives no slots, `isAdjacent` is false because the JavaScript code divides by zero and NaN compares false, and the state is not solved.
- Malformed levels (overlapping pieces, ids shared by two pieces, a piece on an obstacle cell, entities off the board) are a precondition of the engine and the session, since the TypeScript `LevelModel` does not handle them.
- `formatTime` appears twice in the TypeScript code, in `src/ui/view.ts` and in `src/level-mode/LevelController.ts`, with the same body. It is modelled once, as `TimeFormat.FormatTime`.
- `Math.random` in `shuffleByMoves` is replaced by a sequence of draws. Draw i picks entry `choices[i] % |list|`, which covers every index `randomChoice` can pick. When no slot is movable (size 1), the round changes nothing, as `moveTile(state, undefined)` does in the JavaScript code.
- LevelSession.WrapLevel: stated only for the deltas +1 and -1 that `LevelController` passes. `LevelController.SwitchLevel` has the same restriction.

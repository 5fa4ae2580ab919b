# Hex Minesweeper core, modelled in Dafny

The game is Minesweeper on a hexagonal grid that stage files describe. A
stage names:

- the shape of the field;
- cells that are blocked;
- the mines;
- cells that start revealed or flagged;
- display hints on cell numbers;
- edge hints, which count the mines on a straight line of cells that starts
  at the rim of the field.

The player reveals cells and plants flags. Clicking a mine does not end the
game; it counts a mistake and opens nothing. Planting a flag on a safe cell
is refused and also counts a mistake. A flag on a mine is locked and cannot
be removed. A revealed cell whose number is 0 opens its whole zero-zone by
flood fill. The stage is won when every safe cell is revealed and every mine
is flagged. Clearing a stage unlocks the next one.

The project has five modules:

- `Grid` (grid.dfy): axial coordinates, the six directions, cube distance,
  neighbour lists, and the grid builders for hexagon, ring, parallelogram
  and explicit cell lists.
- `BoardRules` (board_rules.dfy): tiles as values, and the pure rules of the
  board. These are mine counting, the number each tile must show, the rays
  behind edge hints, the counter sets, the win condition, and the zero-zone
  a flood fill must open, characterised as the least closed set.
- `BoardEngine` (board.dfy): the `Board` class. Its tiles change in place,
  and each command is a method proved against the functions of
  `BoardRules`. The class invariant `Valid` says that:
  - the numbers agree with the mines;
  - no mine is revealed;
  - every flagged mine is locked;
  - the counters agree with the tiles;
  - a finished game is a won one.
- `Progress` (progress.dfy): the application's unlocked-stage counter, with
  each value written to the save file recorded in order.
- `StagePaths` (stage_paths.dfy): the scene helpers that step a stage file
  name to the next one and derive a stage label. For ASCII digits the
  regular-expression search is modelled exactly, including the lazy prefix,
  a `.` that stops at line breaks, and a `$` that also matches before a
  final line break.

`Common` (common.dfy) holds `Option`, `Result` and `Max`.

## Model

| member | source | states |
|---|---|---|
| Grid.CubeLen | core/grid.py:6-8 | the cube length is at least each of \|q\|, \|r\|, \|-q-r\|, and equals one of them |
| Grid.UnitSteps | core/grid.py:1-4 | a vector is one of the six directions exactly when its cube length is 1 |
| Grid.OppositeDirections | core/grid.py:1-4 | direction i and direction i+3 (mod 6) cancel out |
| Grid.AdjacentByDirection | core/grid.py:63-67 | two cells are adjacent iff their difference is one of the six directions |
| Grid.Neighbors | core/grid.py:63-67 | the neighbours are exactly the adjacent cells that belong to the field; there are at most six, without repeats, in direction-table order |
| Grid.NeighborsSymmetric | core/grid.py:63-67 | if n is a neighbour of p inside the field, p is a neighbour of n |
| Grid.MakeCells | core/grid.py:55-61 | the cells built for radius R are exactly those whose cube length is at most R |
| Grid.ParallelogramCells | core/grid.py:32-44 | the cells built are exactly those with q, r and s=-q-r inside the three given ranges |
| Grid.FromStage | core/grid.py:15-53 | an explicit cell list wins; otherwise hexagon, ring (inner defaults to max(0, outer-1)) or parallelogram; a missing key or an unknown shape is an error; then include is added and exclude removed |
| BoardRules.CountInExtremes | core/board.py:119-123 | the mine count of a cell list is 0 iff none of them is a mine, and its length iff all are |
| BoardRules.CountInDistinct | core/board.py:119-123 | on a list without repeats, the count is the size of the set of listed mines |
| BoardRules.ExpectedNumber | core/board.py:111-123 | a tile's number is -1 exactly on an unblocked mine, 0 on a blocked cell, and otherwise lies in 0..6 |
| BoardRules.NumberCountsMineNeighbors | core/board.py:111-123 | the number of a safe, unblocked tile is the number of adjacent field cells that hold a mine |
| BoardRules.PlayableMembers | core/board.py:89 | the playable part of a path is exactly its unblocked cells |
| BoardRules.BlockedNeverCounted | core/board.py:89-94 | leaving blocked cells out of a path does not change its mine count |
| BoardRules.LayoutKeepsNumbers | core/board.py:111-123 | changing only cell states, never blocking or unblocking, keeps the mines and the agreed numbers |
| BoardRules.RestateKeepsLayout | core/board.py:141-155 | turning a covered or flagged cell into another of those two states keeps the board well formed |
| BoardRules.OpeningKeepsCounts | core/board.py:186-241 | opening safe covered cells keeps the unblocked, mine, flagged and locked sets, and only grows the revealed-safe set |
| BoardRules.OpeningKeepsZones | core/board.py:201-241 | opening cells does not change which cells a flood fill may pass through or spread from |
| BoardRules.SolvedByCounts | core/board.py:243-262 | the win test holds iff the revealed-safe count equals the safe-cell count and the flagged-mine count equals the mine count |
| BoardRules.RunFromSpec | core/board.py:78-80 | the k-th cell of a run is k steps from the start, each lies in the field, and the step after the run leaves it |
| BoardRules.LineRunMaximal | core/board.py:71-81 | a line starting inside the field, or one step in from outside, takes every cell up to the first one outside the field |
| BoardRules.HintsFor | core/board.py:85-101 | one hint per stage entry, in order, each built from its own entry |
| BoardRules.HintCountsRayMines | core/board.py:86-101 | on a board where no blocked cell is a mine, a hint's count is the number of distinct mines on the line from its anchor in its direction |
| BoardEngine.Board.constructor | core/board.py:17-69 | tiles are laid out from the stage (blocked wins over mine, start-revealed skips mines, start-flagged locks mines), numbers agree, hints and counters are set, the class invariant holds, no mistakes, empty flood log |
| BoardEngine.Board.PlaceBlocked | core/board.py:29-31 | the loop over the blocked list ends in the tiles `Blocking` describes: every listed cell of the grid blocked, every other tile unchanged, and cells outside the grid ignored |
| BoardEngine.Board.PlaceMines | core/board.py:32-34 | the loop ends in the tiles `Mining` describes: a mine on every listed cell of the grid that is not blocked, every other tile unchanged |
| BoardEngine.Board.ApplyStartRevealed | core/board.py:40-44 | the loop ends in the tiles `StartRevealing` describes: every listed cell that is neither blocked nor a mine revealed, every other tile unchanged |
| BoardEngine.Board.ApplyStartFlagged | core/board.py:46-52 | the loop ends in the tiles `StartFlagging` describes (every listed unblocked cell flagged), and the locks grow by exactly the listed unblocked mines |
| BoardEngine.Board.ApplyHints | core/board.py:56-64 | the loop ends in the hint map `Hinting` describes: the tag on every listed playable safe cell, overriding an earlier tag, and every other entry kept |
| BoardEngine.Board.TileNumber | core/board.py:112-123 | the number worked out for one tile is the number `ExpectedNumber` requires of it |
| BoardEngine.Board.RecomputeNumbers | core/board.py:111-123 | every number agrees with the mines; mines and states are unchanged |
| BoardEngine.Board.CountMineNeighbors | core/board.py:119-123 | the loop counts the mines among the neighbours |
| BoardEngine.Board.RecomputeCounters | core/board.py:125-130 | the five counters equal the sizes of their sets, and mines-left is never below 0 |
| BoardEngine.Board.LineCells | core/board.py:71-81 | the path is the maximal run of field cells along the direction, without repeats |
| BoardEngine.Board.AddEdgeEntries | core/board.py:85-101 | the hints of one style are appended, in entry order |
| BoardEngine.Board.BuildEdgeHints | core/board.py:83-104 | the edge hints are the normal, then tight, then loose entries' hints |
| BoardEngine.Board.ToggleFlag | core/board.py:132-161 | nothing changes when the game is over, the cell is missing, revealed or blocked, or its flag is locked; an unlocked flag is removed; a covered mine becomes a locked flag; a covered safe cell costs a mistake; the class invariant holds and locks are never dropped, so through the invariant every locked cell stays flagged; mistakes never decrease |
| BoardEngine.Board.Reveal | core/board.py:163-199 | nothing opens when the game is over or the cell is not covered; a covered mine costs a mistake and stays covered; a covered safe cell opens, with the flood fill when its number is 0, and the flood log records exactly the extra cells opened; the class invariant holds, so a won game stays over and won |
| BoardEngine.Board.FloodFillOpen | core/board.py:201-241 | only safe covered cells open; the log lists each opened cell once; the counter grows by the log's length; when the fill starts (a safe unblocked cell numbered 0), the zone is the least set holding the start and closed under spreading to zero-numbered passable neighbours, and the opened cells are exactly the covered passable cells adjacent to that zone |
| BoardEngine.Board.AllSafeRevealed | core/board.py:243-249 | true iff every unblocked safe cell is revealed |
| BoardEngine.Board.AllMinesFlagged | core/board.py:251-257 | true iff every unblocked mine is flagged |
| BoardEngine.Board.CheckWinAndUpdate | core/board.py:259-262 | a solved board is marked won and over; otherwise the game state is unchanged |
| Progress.UnlockedAfter | app.py:110-126 | unlocking never lowers the unlocked stage; it either keeps it or moves it to the cleared stage or the next one, a cleared stage before the last unlocks the next, and clearing the last stage or a later one unlocks that stage |
| Progress.UnlockedAfterBounded | app.py:122-126 | clearing a stage that exists never unlocks past the last stage, nor more than one stage past the cleared one |
| Progress.UnlockedAfterIdempotent | app.py:118-126 | clearing the same stage again unlocks nothing more |
| Progress.UnlockedAfterMonotone | app.py:110-126 | more progress before means at least as much after |
| Progress.ClearingInOrder | app.py:110-126 | from a fresh start, clearing stages 1..k unlocks stage k+1, capped at the last stage |
| Progress.ClearingAllStages | app.py:110-126 | with the default of 37 stages, clearing all of them in order unlocks exactly stage 37 |
| Progress.App.constructor | app.py:18-19 | progress starts at the stored value when the save file could be read, else at stage 1; nothing is saved yet |
| Progress.App.UnlockStage | app.py:110-128 | the new value is UnlockedAfter of the old one; it is saved exactly when the call did not return early |
| Progress.App.ResetProgress | app.py:130-133 | progress returns to stage 1 and that value is saved |
| StagePaths.FindStageNumber | core/scenes.py:124-128 | a number that is found is a real match of both patterns: a non-empty digit run followed by ".json" at the end of the path (or before a final line break), with a prefix that does not cross a line break |
| StagePaths.NextStagePath | core/scenes.py:127-132 | without a stage number the path comes back unchanged; otherwise the result again ends in a digit and ".json", so it can be stepped again |
| StagePaths.StageLabelFrom | core/scenes.py:121-125 | the label is the stage's name when it has one; without a name it is the path when no stage number is found, and otherwise "Stage " followed by digits only |
| StagePaths.LabelMatchIsLeftmost | core/scenes.py:124 | the match found for digits+".json" at the end is the leftmost one, and none is found when no match exists |
| StagePaths.NextMatchIsFirst | core/scenes.py:128-129 | the match found for lazy-prefix, digits, ".json" at the end is the one a backtracking search reports (leftmost start, then shortest prefix), and none is found when no match exists |
| StagePaths.DecimalRoundTrip | core/scenes.py:131 | reading back the decimal form of n gives n |
| StagePaths.NextNumberValue | core/scenes.py:131 | the next number is all digits, its value is the old value plus one, and its width is the old width or the width of the new value, whichever is larger |
| StagePaths.NextNumberExamples | core/scenes.py:131 | "009" becomes "010" and "999" becomes "1000" |
| StagePaths.NextStagePathNoNumber | core/scenes.py:128-129 | a path without a stage number comes back unchanged |
| StagePaths.NextStagePathReplacesNumber | core/scenes.py:127-132 | on a one-line path, the next path keeps everything before the digits and the ".json", and only swaps the number for the next one |
| StagePaths.NextStagePathExamples | core/scenes.py:127-132 | "s009.json" becomes "s010.json"; "s01.txt" is unchanged |
| StagePaths.StageLabelSpec | core/scenes.py:121-125 | the label is the stage's name when it has one, else "Stage " and the leftmost digit run before ".json", else the path |

## Left out

- Rendering, hex-to-pixel maths, animations, fonts, the scene stack and the
  rest of app.py and core/scenes.py are not part of this model. They only
  read the board.
- Reading and writing the save file are not modelled. `Progress.App.constructor`
  takes the value the file yielded as a parameter (`None` when the file is
  missing or unreadable, or has no stored value). Each save is recorded as
  an entry in `savedStages`. Exceptions that the loader does not catch are
  not modelled.
- Stage files arrive already parsed, as `StageData` and `ShapeSpec`. JSON
  parsing and malformed entries are not modelled. A missing list is the
  empty list.
- In `_stage_label_from`, a `"name"` field that is not a string is not
  modelled; the name is `Option<string>`.
- StagePaths: `\d` and `int()` also accept non-ASCII decimal digits. The
  model accepts ASCII digits only.
- Tiles are values in a map held by the board. Changing a tile's state in
  place becomes a map update. No tile object is shared, so no aliasing is
  lost.
- `Board.neighbors` only forwards the grid's neighbour generator. The model
  uses `Grid.Neighbors` directly.
- BoardEngine.Board.LineCells requires a direction index in -6..5. Python
  indexes the six-entry direction table from the end for negative indices,
  and raises an error outside that range.
- Some steps are grouped into helper methods of `Board`:
  - construction: `Setup`, `LayOutTiles`, `ApplyNumberHints`, `FinishSetup`
    and `Settle`, which call the loops `PlaceBlocked`, `PlaceMines`,
    `ApplyStartRevealed`, `ApplyStartFlagged`, `ApplyHints` and
    `BuildEdgeHints` in the source's order;
  - the neighbour loop of the flood fill: `VisitNeighbors`;
  - the safe-click branch of `reveal`: `OpenClicked` and `OpenAndFill`.

  The order of state changes is the source's.
- The flood fill's ghost results (the zone and the predecessor map) exist
  only for the proof. The method returns the same list of opened cells as
  the source.
- BoardEngine.Board.FloodFillOpen: the contract fixes which cells the fill
  opens and that none repeats, but not their order in the returned list.
  The body keeps the source's breadth-first order (queue order, neighbours in
  direction-table order), but no clause promises it. The same holds for the
  flood log that BoardEngine.Board.Reveal records.
- StagePaths.NextStagePathReplacesNumber is stated for paths without a line
  break. On a path with one, the source's result keeps only the text after
  the last line break before the digits, and drops a final line break.
  `NextStagePath` models that behaviour as written.
- `Progress.DefaultTotalStages` is the default of `unlock_stage`. The model
  passes the total explicitly.

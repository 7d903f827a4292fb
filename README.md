# Falling-block puzzle engine

This project models the engine of the hidden falling-block puzzle in
`src/components/Tetris.tsx`. The engine keeps a 20 x 10 board of empty or
coloured cells and at most one falling piece. It tracks a score, a game-over
flag, a pause flag and the fall interval that the game timer uses. It offers
these operations: spawn a piece, move it one row down, shift it sideways,
rotate it, hard-drop it, merge it into the board (with line clearing, scoring
and speed-up), toggle pause, and reset.

Modules, one concept each:

- `Wrappers` (`wrappers.dfy`): `Option`, used for board cells and the active piece.
- `Tetrominoes` (`tetrominoes.dfy`): the seven kinds, their canonical `[dy, dx]` offsets and colours, and the quarter turn `(dy, dx) -> (dx, -dy)`.
- `Board` (`board.dfy`): the grid, the collision test, and `Stamp`, which writes a piece's cells into a copy of the board.
- `LineClear` (`lineclear.dfy`): the removal of full rows, the refill with empty rows at the top, and the bound on how many rows one piece can complete.
- `Game` (`game.dfy`): scoring, the speed-up, the hard-drop search, and the class `Engine`. `Engine` holds the session state as fields (`board`, `piece`, `score`, `gameOver`, `paused`, `dropSpeed`) with one method per operation.

`Engine.Valid()` is the session invariant that every method keeps:

- the board is 20 x 10 with no full row;
- the fall interval lies between 100 and 800 ms;
- the active piece, if there is one, has four cells and does not collide with the board.

The bound of four cleared lines per merge follows from this invariant. A
merge can only complete rows that the piece touches, and a piece has four
cells (`LineClear.FullCountAfterStamp`). This is what makes the lookup in the
five-entry score table safe.

Behaviour of this engine that differs from the usual falling-block rules:

- The hard drop only moves the piece to its resting row. The merge happens on the next `MoveDown` or `Tick`.
- The pause button flips the flag in every state, game over included.
- A spawned piece appears at column `floor(10 / 2) - 1 = 4`, row 0.
- Only the timer's game loop spawns a missing piece. Moves, rotation and the hard drop do nothing when there is no piece.
- Rotation turns every offset about the pivot `(0, 0)` and tries no kicks. So the `O` piece does not stay in place: one turn shifts it one column left, and a second turn shifts it one row up.
- Merging writes only the piece cells on rows 0 to 19. Cells above the board are dropped.
- The fall interval starts at 1000 ms, but the reset that runs when the game opens sets it to 800 ms. The constructor models the component's mount: the initial fields, then `Reset`.

## Model

| member | source | states |
|---|---|---|
| `Tetrominoes.Canonical` | src/components/Tetris.tsx:12-20 | every kind's canonical shape has exactly four cells |
| `Tetrominoes.Rotate` | src/components/Tetris.tsx:135 | the rotated shape has the same length, and cell i of it is `(dx, -dy)` of cell i of the original |
| `Tetrominoes.OTurns` | src/components/Tetris.tsx:135 | one turn of the O piece gives offsets (0,0), (1,0), (0,-1), (1,-1); a second gives (0,0), (0,-1), (-1,0), (-1,-1) |
| `Tetrominoes.TurnSquare` | src/components/Tetris.tsx:135 | a four-cell shape (0,0), (a,b), (c,d), (e,f) turns into (0,0), (b,-a), (d,-c), (f,-e) |
| `Tetrominoes.RotateFourTimes` | src/components/Tetris.tsx:135 | four rotations give back exactly the original offset list |
| `Board.EmptyBoard` | src/components/Tetris.tsx:25 | the starting board is 20 x 10, every cell is empty, and no row is full |
| `Board.Collides` | src/components/Tetris.tsx:63-74 | true exactly when some offset cell has x outside [0, 10), or y >= 20, or (y >= 0 and an occupied board cell); cells with y < 0 never hit the board |
| `Board.FitsInColumns` | src/components/Tetris.tsx:69 | a shape that does not collide lies entirely between the walls |
| `Board.Stamp` | src/components/Tetris.tsx:80-87 | writing the piece cells into a copy of the board keeps it 20 x 10 |
| `Board.StampCells` | src/components/Tetris.tsx:80-87 | after the write, exactly the on-board cells covered by the piece hold its colour; all other cells are unchanged |
| `Board.RowsTouched` | src/components/Tetris.tsx:81-84 | the set of board rows a shape touches holds only rows 0..19 and has no more members than the shape has cells |
| `Board.RowTouched` | src/components/Tetris.tsx:81-84 | the row of every shape cell that lands on the board is in that set |
| `LineClear.Survivors` | src/components/Tetris.tsx:91-95 | the number of kept rows plus the number of full rows is the number of input rows |
| `LineClear.FullCount` | src/components/Tetris.tsx:90-95 | the number of cleared lines never exceeds the number of rows |
| `LineClear.ClearLines` | src/components/Tetris.tsx:89-100 | after the clear the board is still 20 x 10 with no full row, and its top rows (one per cleared line) are empty |
| `LineClear.SurvivorsExactly` | src/components/Tetris.tsx:91-95 | a row survives exactly when it is in the board and is not full |
| `LineClear.SurvivorsAppend` | src/components/Tetris.tsx:91-95 | filtering and counting distribute over concatenation, so the surviving rows keep their relative order |
| `LineClear.SurvivorsOfOpenRows` | src/components/Tetris.tsx:91-95 | rows without a full row all survive, and none is counted |
| `LineClear.SurvivorsOfFullRow` | src/components/Tetris.tsx:91-95 | a single full row is removed and counted once |
| `LineClear.SurvivorsBeforeFullRow` | src/components/Tetris.tsx:91-95 | a full row after open rows is the only row removed |
| `LineClear.SurvivorsAroundFullRow` | src/components/Tetris.tsx:91-95 | one full row between open rows is the only row removed |
| `LineClear.ClearLinesNoFullRow` | src/components/Tetris.tsx:89-100 | a merge that completes no row leaves the board as written |
| `LineClear.ClearLinesIdempotent` | src/components/Tetris.tsx:89-100 | clearing a cleared board changes nothing |
| `LineClear.ClearOneRow` | src/components/Tetris.tsx:89-100 | with only row k full, that row is removed, the rows above it move down by one, and one empty row appears on top |
| `LineClear.FullCountWithin` | src/components/Tetris.tsx:90-95 | if every full row's index is in a set of row indices, there are no more full rows than the set has members |
| `LineClear.FullCountAfterStamp` | src/components/Tetris.tsx:80-95 | writing a piece into a board without full rows completes at most as many rows as the piece has cells |
| `Game.LineScore` | src/components/Tetris.tsx:103 | clearing n <= 4 lines scores 0 exactly when n is 0, at least 100 per line, and more than 100 per line for two or more |
| `Game.NextSpeed` | src/components/Tetris.tsx:102-106 | no clear leaves the interval unchanged; a clear lowers it by 20 ms per line but never below 100 ms; it never rises |
| `Game.MergeKeepsBoard` | src/components/Tetris.tsx:77-110 | merging a fitting four-cell piece into a board without full rows clears at most four lines and leaves a 20 x 10 board without full rows |
| `Game.RestingRow` | src/components/Tetris.tsx:166-169 | the hard drop's loop stops at the row y >= pos.y such that every row from pos.y + 1 to y is free and row y + 1 collides |
| `Game.RestingUnique` | src/components/Tetris.tsx:166-169 | that resting row is unique |
| `Game.WritePiece` | src/components/Tetris.tsx:80-87 | the copy-and-write loop produces exactly `Stamp` of the board and the piece |
| `Game.DropFullRows` | src/components/Tetris.tsx:90-95 | the filter loop returns the surviving rows and counts the full ones |
| `Game.PadTop` | src/components/Tetris.tsx:98-100 | the unshift loop puts n empty rows on top of the kept rows |
| `Game.SpawnOnEmptyBoard` | src/components/Tetris.tsx:45-60 | every kind fits at the spawn position on an empty board |
| `Game.SpawnedOCells` | src/components/Tetris.tsx:16 | a freshly spawned O piece covers exactly (0,4), (0,5), (1,4) and (1,5) |
| `Game.SpawnBlockedAtPivotCell` | src/components/Tetris.tsx:53-57 | once cell (0, 4) is occupied, every kind collides at the spawn position |
| `Game.Engine.constructor` | src/components/Tetris.tsx:29-39 | opening the game and running the initial reset gives an empty board, no piece, score 0, no flags and an interval of 800 ms |
| `Game.Engine.Reset` | src/components/Tetris.tsx:179-186 | from any state: an empty board, no piece, score 0, game-over and pause cleared, interval 800 ms |
| `Game.Engine.TogglePause` | src/components/Tetris.tsx:267 | the pause flag flips in every state, and nothing else changes |
| `Game.Engine.Spawn` | src/components/Tetris.tsx:45-60 | the canonical shape is placed at (4, 0); if that collides, game-over is set and no piece is installed; the invariant is kept |
| `Game.Engine.Merge` | src/components/Tetris.tsx:77-110 | the board becomes the written board with full rows cleared, the piece becomes none, and the score rises by the table entry for n <= 4 cleared lines; the interval follows `NextSpeed` |
| `Game.Engine.MoveDown` | src/components/Tetris.tsx:113-121 | when game over, paused or without a piece, nothing changes; if the row below is free, only pos.y grows by one; otherwise the piece is merged |
| `Game.Engine.MoveLaterally` | src/components/Tetris.tsx:123-129 | only pos.x changes, by exactly dir, and only when the target is free and the engine is active; otherwise nothing changes |
| `Game.Engine.Rotate` | src/components/Tetris.tsx:131-141 | the shape becomes the rotated shape when that does not collide; otherwise shape and position are unchanged; nothing else changes |
| `Game.Engine.HardDrop` | src/components/Tetris.tsx:164-171 | only pos.y changes, to the resting row; x, kind and shape are kept, the board is untouched and nothing is merged |
| `Game.Engine.Tick` | src/components/Tetris.tsx:144-154 | when game over or paused, nothing changes; with no piece it spawns one of the given kind; otherwise it steps the piece down |

## Left out

- The React plumbing (`useState`, `useCallback`, `useEffect`) is not modelled. The model assumes each operation sees the state left by the previous one, with no stale closures.
- Timer scheduling (`setInterval` at the current fall interval) is not modelled. `Engine.Tick` is one pass of the game loop, and the caller decides when to call it.
- The keyboard listener is not modelled. The arrow keys and the space key map directly to `MoveLaterally(-1)`, `MoveLaterally(1)`, `MoveDown`, `Rotate` and `HardDrop`.
- The random choice of the next kind is not modelled. `Spawn` and `Tick` take the kind as a parameter.
- Rendering is not modelled: the overlay of the piece on the grid, and the markup.
- Colour class names become one opaque `Color` value per kind.
- Game.Engine.Merge: requires the session invariant, so the piece lies between the walls. For a piece cell in column x < 0, the source would set a non-index property of the row. For x >= 10, it would lengthen the row. No reachable state has such a cell.
- Game.LineScore: requires n <= 4. The source's table gives no number for five or more lines, and `LineClear.FullCountAfterStamp` shows that a merge never clears that many.
- The footer's click counter, the contact route, the works data, the decorative animations and the static pages are not part of this model. They hold no game logic.

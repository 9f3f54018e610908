# Six-in-a-row board: placement and win detection

This project models the game logic of the Android view `Board` in a two-player
six-in-a-row game on a 12-line board. White and black alternately place pieces
("cats") on grid intersections. A placement is refused once the game is over,
and also when the cell is already taken. After every redraw the view checks
whether either side has six pieces in a row: horizontally, vertically or along
either diagonal. If one does, it ends the game and names the winner.

Two modules, one per concern of `Board.java`:

- `lines.dfy`, module `Lines`: the specification layer. It defines cells
  (`Cell`, `android.graphics.Point`), step directions and the capped run
  length `Run` that a direction check counts. It defines `HasSixInLine`, what
  `checkSixInLine` answers, and `SixConsecutive`, the geometric meaning "six
  consecutive cells on one line". It proves the two are equivalent and draws
  consequences: adding pieces never takes a win away, fewer than six pieces
  never win, the answer is unchanged by mirroring the board across either
  diagonal or by half-turning it, and three concrete positions.
- `board.dfy`, module `GameBoard`: the code itself, in imperative form.
  - The four direction checks are loops with `break`. All four share the
    two-loop body `CheckAxis`, which uses `count` and the early
    `count == MAX_COUNT` exit exactly as the source does.
  - `CheckSixInLine` is the for-each loop with early return.
  - The class `Board` holds the fields `whiteCatArray`, `blackCatArray`,
    `whiteCatFirst`, `gameOver` and `whiteCatWins`.
  - `OnTouchEvent` is the placement decision of `onTouchEvent`, and
    `CheckGameOver` is `checkGameOver`.
  - `Board.Valid()` is the invariant of every state reached through these
    operations. It says:
    - the lists are disjoint and neither has duplicates;
    - the turn counts agree;
    - a finished game has a six-run on the board, white's whenever white is
      named winner.

  The constructor establishes `Valid()` and every method preserves it.

The lists are `seq<Cell>` fields that the methods reassign, in place of the
source's `ArrayList<Point>` that is appended to. `ArrayList.contains` is
sequence membership, because `Point.equals` compares both coordinates, as
datatype equality does. Coordinates are unbounded `int`s.

`checkSixInLine` rescans every piece of each list, not only the newest one.
Cells are never bounds-checked. The game-over check runs from `onDraw`, so the
model keeps `CheckGameOver` separate and composes the two in `TouchAndRedraw`.

## Model

| member | source | states |
|---|---|---|
| `Lines.RunFrom` | app/src/main/java/com/example/finalproject/Board.java:190-196 | the counted run from step i to n never exceeds the n + 1 - i steps available, and is empty when there are none |
| `Lines.Run` | app/src/main/java/com/example/finalproject/Board.java:190-196 | a counting loop adds at most `MAX_COUNT - 1` = 5 to `count` |
| `Lines.RunFromPresent` | app/src/main/java/com/example/finalproject/Board.java:190-196 | every step a walk counts is a cell of the list |
| `Lines.RunFromGap` | app/src/main/java/com/example/finalproject/Board.java:190-196 | a walk that stops before its last step stopped at a cell absent from the list (the `break`) |
| `Lines.RunFromFull` | app/src/main/java/com/example/finalproject/Board.java:190-196 | when all steps are present the walk counts every one of them |
| `Lines.RunMeaning` | app/src/main/java/com/example/finalproject/Board.java:188-196 | `Run` is exactly the contiguous run: steps 1..Run are in the list and, below the cap, step Run + 1 is not |
| `Lines.AxisWinSix` | app/src/main/java/com/example/finalproject/Board.java:188-211 | a direction check that succeeds on a piece of the list exhibits six consecutive cells p, p+d, ..., p+5d of the list on a line |
| `Lines.SixAxisWin` | app/src/main/java/com/example/finalproject/Board.java:188-307 | six consecutive cells from p along a line direction make one of the four checks centred on p succeed |
| `Lines.SixInLineIff` | app/src/main/java/com/example/finalproject/Board.java:157-307 | running the four checks over every piece succeeds iff the list holds six consecutive cells along (1,0), (0,1), (1,1) or (1,-1) |
| `Lines.SixInLineMonotone` | app/src/main/java/com/example/finalproject/Board.java:157-179 | a list that contains every piece of a winning list also wins |
| `Lines.SixInLineAppend` | app/src/main/java/com/example/finalproject/Board.java:122-126 | appending a piece, as a placement does, never turns a win into no win |
| `Lines.ShortListNoWin` | app/src/main/java/com/example/finalproject/Board.java:157-211 | a list of fewer than six pieces never wins |
| `Lines.SixInLineTransposed` | app/src/main/java/com/example/finalproject/Board.java:157-307 | the answer of `checkSixInLine` is the same after mirroring every piece across the main diagonal |
| `Lines.SixInLineRotated` | app/src/main/java/com/example/finalproject/Board.java:157-307 | the answer of `checkSixInLine` is the same after turning every piece half a turn |
| `Lines.SixInLineAntiTransposed` | app/src/main/java/com/example/finalproject/Board.java:157-307 | the answer of `checkSixInLine` is the same after mirroring every piece across the anti-diagonal |
| `Lines.HorizontalSixWins` | app/src/main/java/com/example/finalproject/Board.java:188-211 | (0,0) .. (5,0) is a win |
| `Lines.DiagonalSixWins` | app/src/main/java/com/example/finalproject/Board.java:284-307 | (0,0), (1,1) .. (5,5) is a win |
| `Lines.BrokenRowGap` | app/src/main/java/com/example/finalproject/Board.java:188-211 | any six cells on a line miss some piece of (0,0) .. (4,0), (6,0) |
| `Lines.BrokenRowNoWin` | app/src/main/java/com/example/finalproject/Board.java:188-211 | five in a row plus a piece beyond a gap is not a win |
| `GameBoard.CheckAxis` | app/src/main/java/com/example/finalproject/Board.java:188-307 | the two counting loops with their early `count == MAX_COUNT` exit answer exactly 1 + (run along the first direction) + (run along the second) >= 6 |
| `GameBoard.CheckHorizontal` | app/src/main/java/com/example/finalproject/Board.java:188-211 | true iff 1 + left run + right run >= 6, each run capped at 5 |
| `GameBoard.CheckVertical` | app/src/main/java/com/example/finalproject/Board.java:220-243 | true iff 1 + run towards y - i + run towards y + i >= 6 |
| `GameBoard.CheckLeftDiagonal` | app/src/main/java/com/example/finalproject/Board.java:252-275 | true iff 1 + run along (-1,+1) + run along (+1,-1) >= 6 |
| `GameBoard.CheckRightDiagonal` | app/src/main/java/com/example/finalproject/Board.java:284-307 | true iff 1 + run along (+1,+1) + run along (-1,-1) >= 6 |
| `GameBoard.CheckSixInLine` | app/src/main/java/com/example/finalproject/Board.java:157-179 | true iff some piece passes some direction check, and so iff the list holds six consecutive cells on a line |
| `GameBoard.Board.constructor` | app/src/main/java/com/example/finalproject/Board.java:34-44 | both lists empty, white to move, game not over, no winner; the invariant holds |
| `GameBoard.Board.OnTouchEvent` | app/src/main/java/com/example/finalproject/Board.java:107-132 | accepted iff the game is not over and the cell is in neither list; if accepted, the cell is appended to the mover's list, the other list is kept and the turn flips; if refused, nothing changes; `gameOver` and `whiteCatWins` are never touched; the invariant is preserved |
| `GameBoard.Board.CheckGameOver` | app/src/main/java/com/example/finalproject/Board.java:146-155 | if a list holds a six-run: `gameOver` is set and `whiteCatWins` is whether white's does, so white wins a tie; otherwise nothing changes; `gameOver` is never cleared and the lists and turn are untouched |
| `GameBoard.Board.TouchAndRedraw` | app/src/main/java/com/example/finalproject/Board.java:107-155 | a touch followed by the redraw's game-over check. When no list held a six-run before and the game ends here, the move was accepted and the winner named is the side that moved. A redraw of a finished game changes nothing; while the game goes on, `whiteCatWins` keeps its value |

## Left out

- View measurement, layout, bitmap loading and scaling, and canvas drawing
  (`onMeasure`, `onSizeChanged`, `initial`, `drawBoard`, `drawPieces`,
  `onDraw` apart from its call to `checkGameOver`) are Android UI code.
- `getValidPoint` maps pixels to cells by floating-point division. The model
  takes the discrete cell as the input of `OnTouchEvent`.
- The `MotionEvent` action filter and the fallback to `super.onTouchEvent`
  for other actions are input-event plumbing, and so is `invalidate()`.
  `OnTouchEvent` models a touch-down.
- The `Toast` that names the winner is UI.
- `onSaveInstanceState` and `onRestoreInstanceState` are Android `Bundle`
  persistence. They store only `gameOver` and the two lists, not the turn or
  the winner, so no round trip of the whole state holds. A restore into a
  fresh view keeps `whiteCatFirst = true` whatever the lists hold, so it
  can break the turn-count clause of `Valid()`.
- Java's 32-bit `int` arithmetic in `x - i`, `y + i` is modelled on unbounded
  integers. The cells produced by the view lie in 0..11, far from
  wrap-around.
- Winning sequences of real moves, driven through the class, are not
  modelled. Each placement's contract branches on membership, and the
  branches multiply over a long chain of moves. The same positions are
  proved on lists instead: `HorizontalSixWins`, `DiagonalSixWins`,
  `BrokenRowNoWin` and `ShortListNoWin`. `OccupiedScenario` shows through the
  class that a taken cell is refused without passing the turn.

/** The game logic of the `Board` view: the direction checks and
    `checkSixInLine` as loops proved against the specifications of `Lines`,
    and the board state with placement and the game-over step. */
module GameBoard {
  import opened Lines

  /** The body shared by the four direction checks: count the piece at
      (x, y), walk along `first` while cells are present (at most five
      steps), answer true at once if that already makes six, otherwise walk
      along `second` the same way and answer whether the count reached six. */
  method CheckAxis(x: int, y: int, points: seq<Cell>, first: Dir, second: Dir) returns (win: bool)
    ensures win <==> 1 + Run(points, Cell(x, y), first) + Run(points, Cell(x, y), second) >= MAX_COUNT
  {
    var c := Cell(x, y);
    var count := 1;
    for i := 1 to MAX_COUNT
      invariant count == i
      invariant count + RunFrom(points, c, first, i, MAX_COUNT - 1) == 1 + Run(points, c, first)
    {
      if Along(c, first, i) in points {
        count := count + 1;
      } else {
        break;
      }
    }
    assert count == 1 + Run(points, c, first);
    if count == MAX_COUNT {
      return true;
    }
    ghost var before := count;
    for i := 1 to MAX_COUNT
      invariant count == before + i - 1
      invariant count + RunFrom(points, c, second, i, MAX_COUNT - 1) == before + Run(points, c, second)
    {
      if Along(c, second, i) in points {
        count := count + 1;
      } else {
        break;
      }
    }
    assert count == 1 + Run(points, c, first) + Run(points, c, second);
    return count >= MAX_COUNT;
  }

  /** `checkHorizontal`: first leftwards (x - i, y), then rightwards (x + i, y). */
  method CheckHorizontal(x: int, y: int, points: seq<Cell>) returns (win: bool)
    ensures win <==> AxisWin(points, Cell(x, y), Horizontal)
  {
    win := CheckAxis(x, y, points, Dir(-1, 0), Dir(1, 0));
  }

  /** `checkVertical`: first (x, y - i), then (x, y + i). */
  method CheckVertical(x: int, y: int, points: seq<Cell>) returns (win: bool)
    ensures win <==> AxisWin(points, Cell(x, y), Vertical)
  {
    win := CheckAxis(x, y, points, Dir(0, -1), Dir(0, 1));
  }

  /** `checkLeftDiagonal`: first (x - i, y + i), then (x + i, y - i). */
  method CheckLeftDiagonal(x: int, y: int, points: seq<Cell>) returns (win: bool)
    ensures win <==> AxisWin(points, Cell(x, y), LeftDiagonal)
  {
    win := CheckAxis(x, y, points, Dir(-1, 1), Dir(1, -1));
  }

  /** `checkRightDiagonal`: first (x + i, y + i), then (x - i, y - i). */
  method CheckRightDiagonal(x: int, y: int, points: seq<Cell>) returns (win: bool)
    ensures win <==> AxisWin(points, Cell(x, y), RightDiagonal)
  {
    win := CheckAxis(x, y, points, Dir(1, 1), Dir(-1, -1));
  }

  /** `checkSixInLine`: run the four checks on every piece of the list in
      turn, answering true at the first success. */
  method CheckSixInLine(points: seq<Cell>) returns (win: bool)
    ensures win <==> HasSixInLine(points)
    ensures win <==> SixConsecutive(points)
  {
    SixInLineIff(points);
    for i := 0 to |points|
      invariant forall j :: 0 <= j < i ==> !PieceWins(points, points[j])
    {
      var piece := points[i];
      var x, y := piece.x, piece.y;
      win := CheckHorizontal(x, y, points);
      if win {
        assert PieceWins(points, points[i]);
        return;
      }
      win := CheckVertical(x, y, points);
      if win {
        assert PieceWins(points, points[i]);
        return;
      }
      win := CheckLeftDiagonal(x, y, points);
      if win {
        assert PieceWins(points, points[i]);
        return;
      }
      win := CheckRightDiagonal(x, y, points);
      if win {
        assert PieceWins(points, points[i]);
        return;
      }
    }
    return false;
  }

  ghost predicate NoDuplicates(s: seq<Cell>) {
    forall i, j :: 0 <= i < j < |s| ==> s[i] != s[j]
  }

  ghost predicate Disjoint(a: seq<Cell>, b: seq<Cell>) {
    forall c :: c in a ==> c !in b
  }

  class Board {
    var whiteCatArray: seq<Cell>
    var blackCatArray: seq<Cell>
    /** True when it is white's turn. */
    var whiteCatFirst: bool
    var gameOver: bool
    var whiteCatWins: bool

    /** What every reachable board satisfies: no cell is taken twice,
        white has made as many moves as black, or one more when it is
        black's turn, and a finished game has a six-run on the board, white's
        whenever white is named winner. */
    ghost predicate Valid()
      reads this
    {
      Disjoint(whiteCatArray, blackCatArray) &&
      NoDuplicates(whiteCatArray) && NoDuplicates(blackCatArray) &&
      |whiteCatArray| == |blackCatArray| + (if whiteCatFirst then 0 else 1) &&
      (gameOver ==> (SixConsecutive(whiteCatArray) || SixConsecutive(blackCatArray)) &&
                    whiteCatWins == SixConsecutive(whiteCatArray))
    }

    /** The field initialisers: empty lists, white to move, game running. */
    constructor ()
      ensures Valid()
      ensures whiteCatArray == [] && blackCatArray == []
      ensures whiteCatFirst && !gameOver && !whiteCatWins
    {
      whiteCatArray := [];
      blackCatArray := [];
      whiteCatFirst := true;
      gameOver := false;
      whiteCatWins := false;
    }

    /** The placement logic of `onTouchEvent` for a touch on `piece`:
        rejected once the game is over or when the cell is already taken by
        either side; otherwise the piece goes to the side to move and the
        turn passes. */
    method OnTouchEvent(piece: Cell) returns (accepted: bool)
      modifies this`whiteCatArray, this`blackCatArray, this`whiteCatFirst
      ensures old(Valid()) ==> Valid()
      ensures accepted <==> !gameOver && piece !in old(whiteCatArray) && piece !in old(blackCatArray)
      ensures accepted ==> whiteCatFirst == !old(whiteCatFirst)
      ensures accepted && old(whiteCatFirst) ==>
        whiteCatArray == old(whiteCatArray) + [piece] && blackCatArray == old(blackCatArray)
      ensures accepted && !old(whiteCatFirst) ==>
        blackCatArray == old(blackCatArray) + [piece] && whiteCatArray == old(whiteCatArray)
      ensures !accepted ==> unchanged(this)
    {
      if gameOver {
        return false;
      }
      if piece in whiteCatArray || piece in blackCatArray {
        return false;
      }
      if whiteCatFirst {
        whiteCatArray := whiteCatArray + [piece];
      } else {
        blackCatArray := blackCatArray + [piece];
      }
      whiteCatFirst := !whiteCatFirst;
      return true;
    }

    /** `checkGameOver`: when either list holds a six-run the game ends, and
        white is named winner whenever white's list holds one. */
    method CheckGameOver()
      modifies this`gameOver, this`whiteCatWins
      ensures old(Valid()) ==> Valid()
      ensures old(gameOver) ==> gameOver
      ensures SixConsecutive(whiteCatArray) || SixConsecutive(blackCatArray) ==>
        gameOver && whiteCatWins == SixConsecutive(whiteCatArray)
      ensures !SixConsecutive(whiteCatArray) && !SixConsecutive(blackCatArray) ==> unchanged(this)
      ensures HasSixInLine(whiteCatArray) || HasSixInLine(blackCatArray) ==>
        gameOver && whiteCatWins == HasSixInLine(whiteCatArray)
    {
      var whiteWin := CheckSixInLine(whiteCatArray);
      var blackWin := CheckSixInLine(blackCatArray);
      if whiteWin || blackWin {
        gameOver := true;
        whiteCatWins := whiteWin;
      }
    }

    /** A touch followed by the redraw it requests (`invalidate()` leads to
        `onDraw`, which calls `checkGameOver`). When no list held a six-run
        before, a game that ends here names the side that just moved. */
    method TouchAndRedraw(piece: Cell) returns (accepted: bool)
      modifies this
      ensures old(Valid()) ==> Valid()
      ensures accepted <==> !old(gameOver) && piece !in old(whiteCatArray) && piece !in old(blackCatArray)
      ensures accepted ==> whiteCatFirst == !old(whiteCatFirst)
      ensures accepted && old(whiteCatFirst) ==>
        whiteCatArray == old(whiteCatArray) + [piece] && blackCatArray == old(blackCatArray)
      ensures accepted && !old(whiteCatFirst) ==>
        blackCatArray == old(blackCatArray) + [piece] && whiteCatArray == old(whiteCatArray)
      ensures !accepted ==> whiteCatArray == old(whiteCatArray) && blackCatArray == old(blackCatArray) &&
                            whiteCatFirst == old(whiteCatFirst)
      ensures gameOver <==> old(gameOver) || SixConsecutive(whiteCatArray) || SixConsecutive(blackCatArray)
      ensures old(Valid()) && old(gameOver) ==> unchanged(this)
      ensures !gameOver ==> whiteCatWins == old(whiteCatWins)
      ensures !old(SixConsecutive(whiteCatArray)) && !old(SixConsecutive(blackCatArray)) &&
              !old(gameOver) && gameOver ==>
                accepted && whiteCatWins == old(whiteCatFirst)
    {
      accepted := OnTouchEvent(piece);
      CheckGameOver();
    }
  }

  /** A touch on a cell the other side holds is refused and keeps the turn. */
  method OccupiedScenario()
  {
    var b := new Board();
    var ok := b.OnTouchEvent(Cell(0, 0));
    assert ok && !b.whiteCatFirst;
    ok := b.OnTouchEvent(Cell(0, 0));
    assert !ok && !b.whiteCatFirst && b.blackCatArray == [];
  }
}

/** Cells, directions and runs of cells on the six-in-a-row board, and what
    "six in a line" means: both as the counters of Board.java compute it and as
    a plain geometric statement, with the lemma that the two agree. */
module Lines {

  /** Length of a winning run (`MAX_COUNT` in Board.java). */
  const MAX_COUNT: nat := 6

  /** A board intersection (`android.graphics.Point`); coordinates are not
      bounded, as the source never checks them. */
  datatype Cell = Cell(x: int, y: int)

  /** A step vector between neighbouring cells. */
  datatype Dir = Dir(dx: int, dy: int)

  /** The cell `i` steps from `c` in direction `d`. */
  function Along(c: Cell, d: Dir, i: int): Cell {
    Cell(c.x + i * d.dx, c.y + i * d.dy)
  }

  /** How many of the cells `i`, `i + 1`, ..., `n` steps from `c` along `d`
      are in `points`, counting from step `i` and stopping at the first gap. */
  function RunFrom(points: seq<Cell>, c: Cell, d: Dir, i: int, n: int): (r: nat)
    ensures i <= n + 1 ==> r <= n + 1 - i
    ensures i > n ==> r == 0
    decreases if i <= n then n + 1 - i else 0
  {
    if i > n || Along(c, d, i) !in points then 0
    else 1 + RunFrom(points, c, d, i + 1, n)
  }

  /** The contiguous run of `points` leaving `c` along `d`, at most
      `MAX_COUNT - 1` steps long (the bound of the counting loops). */
  function Run(points: seq<Cell>, c: Cell, d: Dir): (r: nat)
    ensures r < MAX_COUNT
  {
    RunFrom(points, c, d, 1, MAX_COUNT - 1)
  }

  /** The four axes the source checks, each walked in two directions. */
  datatype Axis = Horizontal | Vertical | LeftDiagonal | RightDiagonal

  /** The direction of an axis's first counting loop. */
  function First(a: Axis): Dir {
    match a
    case Horizontal => Dir(-1, 0)
    case Vertical => Dir(0, -1)
    case LeftDiagonal => Dir(-1, 1)
    case RightDiagonal => Dir(1, 1)
  }

  /** The direction of an axis's second counting loop. */
  function Second(a: Axis): Dir {
    match a
    case Horizontal => Dir(1, 0)
    case Vertical => Dir(0, 1)
    case LeftDiagonal => Dir(1, -1)
    case RightDiagonal => Dir(-1, -1)
  }

  /** The value `count` reaches in a direction check centred on `c`: the
      centre plus both capped runs. */
  function AxisCount(points: seq<Cell>, c: Cell, a: Axis): nat {
    1 + Run(points, c, First(a)) + Run(points, c, Second(a))
  }

  predicate AxisWin(points: seq<Cell>, c: Cell, a: Axis) {
    AxisCount(points, c, a) >= MAX_COUNT
  }

  /** Some direction check centred on `c` succeeds. */
  predicate PieceWins(points: seq<Cell>, c: Cell) {
    AxisWin(points, c, Horizontal) || AxisWin(points, c, Vertical) ||
    AxisWin(points, c, LeftDiagonal) || AxisWin(points, c, RightDiagonal)
  }

  /** What `checkSixInLine` answers: some piece of the list passes some
      direction check. */
  ghost predicate HasSixInLine(points: seq<Cell>) {
    exists i :: 0 <= i < |points| && PieceWins(points, points[i])
  }

  /** The four line directions, one per axis. */
  predicate IsLineDir(d: Dir) {
    d == Dir(1, 0) || d == Dir(0, 1) || d == Dir(1, 1) || d == Dir(1, -1)
  }

  /** `p, p + d, ..., p + 5d` all lie in `points`. */
  ghost predicate SixFrom(points: seq<Cell>, p: Cell, d: Dir) {
    forall k :: 0 <= k < MAX_COUNT ==> Along(p, d, k) in points
  }

  /** Six consecutive cells of `points` lie on a horizontal, vertical or
      diagonal line. */
  ghost predicate SixConsecutive(points: seq<Cell>) {
    exists p, d :: IsLineDir(d) && SixFrom(points, p, d)
  }

  // ---------------------------------------------------------------------
  // Runs

  /** Every step counted by `RunFrom` is a cell of `points`. */
  lemma {:induction false} RunFromPresent(points: seq<Cell>, c: Cell, d: Dir, i: int, n: int, j: int)
    requires i <= j < i + RunFrom(points, c, d, i, n)
    ensures Along(c, d, j) in points
    decreases if i <= n then n + 1 - i else 0
  {
    if j > i {
      RunFromPresent(points, c, d, i + 1, n, j);
    }
  }

  /** A run stops short of step `n` only at a gap. */
  lemma {:induction false} RunFromGap(points: seq<Cell>, c: Cell, d: Dir, i: int, n: int)
    requires i <= n + 1
    requires RunFrom(points, c, d, i, n) < n + 1 - i
    ensures Along(c, d, i + RunFrom(points, c, d, i, n)) !in points
    decreases n + 1 - i
  {
    if Along(c, d, i) in points {
      RunFromGap(points, c, d, i + 1, n);
    }
  }

  /** When every step from `i` to `n` is in `points`, the run is full. */
  lemma {:induction false} RunFromFull(points: seq<Cell>, c: Cell, d: Dir, i: int, n: int)
    requires i <= n + 1
    requires forall j :: i <= j <= n ==> Along(c, d, j) in points
    ensures RunFrom(points, c, d, i, n) == n + 1 - i
    decreases n + 1 - i
  {
    if i <= n {
      RunFromFull(points, c, d, i + 1, n);
    }
  }

  /** `Run` is exactly the contiguous run: its steps are present and, short
      of the cap, the next step is absent. */
  lemma RunMeaning(points: seq<Cell>, c: Cell, d: Dir)
    ensures forall j :: 1 <= j <= Run(points, c, d) ==> Along(c, d, j) in points
    ensures Run(points, c, d) < MAX_COUNT - 1 ==> Along(c, d, Run(points, c, d) + 1) !in points
  {
    forall j | 1 <= j <= Run(points, c, d)
      ensures Along(c, d, j) in points
    {
      RunFromPresent(points, c, d, 1, MAX_COUNT - 1, j);
    }
    if Run(points, c, d) < MAX_COUNT - 1 {
      RunFromGap(points, c, d, 1, MAX_COUNT - 1);
    }
  }

  // ---------------------------------------------------------------------
  // The counters find exactly the six-runs

  /** A successful direction check centred on a piece exhibits six
      consecutive cells. */
  lemma AxisWinSix(points: seq<Cell>, q: Cell, a: Axis)
    requires q in points
    requires AxisWin(points, q, a)
    ensures SixConsecutive(points)
  {
    var f, g := First(a), Second(a);
    var l, r := Run(points, q, f), Run(points, q, g);
    RunMeaning(points, q, f);
    RunMeaning(points, q, g);
    // Walk back to the far end of one run, then forward along a line
    // direction: the cells met are the other run, q, and the first run.
    if a == RightDiagonal {
      var p := Along(q, g, r);
      forall k | 0 <= k < MAX_COUNT
        ensures Along(p, f, k) in points
      {
        if k < r {
          assert Along(p, f, k) == Along(q, g, r - k);
        } else if k > r {
          assert Along(p, f, k) == Along(q, f, k - r);
        }
      }
      assert IsLineDir(f) && SixFrom(points, p, f);
    } else {
      var p := Along(q, f, l);
      forall k | 0 <= k < MAX_COUNT
        ensures Along(p, g, k) in points
      {
        if k < l {
          assert Along(p, g, k) == Along(q, f, l - k);
        } else if k > l {
          assert Along(p, g, k) == Along(q, g, k - l);
        }
      }
      assert IsLineDir(g) && SixFrom(points, p, g);
    }
  }

  /** Six consecutive cells starting at `p` make the direction check centred
      on `p` succeed. */
  lemma SixAxisWin(points: seq<Cell>, p: Cell, d: Dir)
    requires IsLineDir(d) && SixFrom(points, p, d)
    ensures PieceWins(points, p)
  {
    RunFromFull(points, p, d, 1, MAX_COUNT - 1);
    if d == Dir(1, 0) {
      assert AxisWin(points, p, Horizontal);
    } else if d == Dir(0, 1) {
      assert AxisWin(points, p, Vertical);
    } else if d == Dir(1, 1) {
      assert AxisWin(points, p, RightDiagonal);
    } else {
      assert AxisWin(points, p, LeftDiagonal);
    }
  }

  /** The counters of `checkSixInLine`, run over every piece, succeed exactly
      when the list holds six consecutive cells on some line. */
  lemma SixInLineIff(points: seq<Cell>)
    ensures HasSixInLine(points) <==> SixConsecutive(points)
  {
    if HasSixInLine(points) {
      var i :| 0 <= i < |points| && PieceWins(points, points[i]);
      var q := points[i];
      if AxisWin(points, q, Horizontal) {
        AxisWinSix(points, q, Horizontal);
      } else if AxisWin(points, q, Vertical) {
        AxisWinSix(points, q, Vertical);
      } else if AxisWin(points, q, LeftDiagonal) {
        AxisWinSix(points, q, LeftDiagonal);
      } else {
        AxisWinSix(points, q, RightDiagonal);
      }
    }
    if SixConsecutive(points) {
      var p, d :| IsLineDir(d) && SixFrom(points, p, d);
      SixAxisWin(points, p, d);
      assert Along(p, d, 0) == p;
      var i :| 0 <= i < |points| && points[i] == p;
      assert PieceWins(points, points[i]);
    }
  }

  // ---------------------------------------------------------------------
  // Consequences

  /** Adding pieces never takes a win away. */
  lemma SixInLineMonotone(points: seq<Cell>, more: seq<Cell>)
    requires forall c :: c in points ==> c in more
    requires HasSixInLine(points)
    ensures HasSixInLine(more)
  {
    SixInLineIff(points);
    var p, d :| IsLineDir(d) && SixFrom(points, p, d);
    assert SixFrom(more, p, d);
    SixInLineIff(more);
  }

  /** In particular appending one piece, as a placement does. */
  lemma SixInLineAppend(points: seq<Cell>, c: Cell)
    requires HasSixInLine(points)
    ensures HasSixInLine(points + [c])
  {
    SixInLineMonotone(points, points + [c]);
  }

  lemma {:induction false} DistinctCellsBound(s: seq<Cell>)
    ensures |set c | c in s| <= |s|
  {
    if s != [] {
      var t := s[..|s| - 1];
      DistinctCellsBound(t);
      assert (set c | c in s) == (set c | c in t) + {s[|s| - 1]};
    }
  }

  lemma SubsetCard(a: set<Cell>, b: set<Cell>)
    requires a <= b
    ensures |a| <= |b|
  {
    assert b == a + (b - a);
    assert a * (b - a) == {};
  }

  /** Fewer than six pieces never hold a six-run. */
  lemma ShortListNoWin(points: seq<Cell>)
    requires |points| < MAX_COUNT
    ensures !HasSixInLine(points)
  {
    if HasSixInLine(points) {
      SixInLineIff(points);
      var p, d :| IsLineDir(d) && SixFrom(points, p, d);
      var six := {Along(p, d, 0), Along(p, d, 1), Along(p, d, 2),
                  Along(p, d, 3), Along(p, d, 4), Along(p, d, 5)};
      assert |six| == MAX_COUNT by {
        if d.dx == 1 {
          assert Along(p, d, 0).x == p.x && Along(p, d, 1).x == p.x + 1 &&
                 Along(p, d, 2).x == p.x + 2 && Along(p, d, 3).x == p.x + 3 &&
                 Along(p, d, 4).x == p.x + 4 && Along(p, d, 5).x == p.x + 5;
        } else {
          assert Along(p, d, 0).y == p.y && Along(p, d, 1).y == p.y + 1 &&
                 Along(p, d, 2).y == p.y + 2 && Along(p, d, 3).y == p.y + 3 &&
                 Along(p, d, 4).y == p.y + 4 && Along(p, d, 5).y == p.y + 5;
        }
      }
      SubsetCard(six, set c | c in points);
      DistinctCellsBound(points);
      assert false;
    }
  }

  // ---------------------------------------------------------------------
  // Symmetry of the win test

  /** The pieces mirrored across the main diagonal. */
  function Transposed(points: seq<Cell>): (r: seq<Cell>)
    ensures |r| == |points|
    ensures forall i :: 0 <= i < |points| ==> r[i] == Cell(points[i].y, points[i].x)
  {
    seq(|points|, i requires 0 <= i < |points| => Cell(points[i].y, points[i].x))
  }

  /** The pieces turned half a turn about the origin. */
  function Rotated(points: seq<Cell>): (r: seq<Cell>)
    ensures |r| == |points|
    ensures forall i :: 0 <= i < |points| ==> r[i] == Cell(-points[i].x, -points[i].y)
  {
    seq(|points|, i requires 0 <= i < |points| => Cell(-points[i].x, -points[i].y))
  }

  lemma TransposedTwice(points: seq<Cell>)
    ensures Transposed(Transposed(points)) == points
  {
  }

  lemma RotatedTwice(points: seq<Cell>)
    ensures Rotated(Rotated(points)) == points
  {
  }

  lemma TransposedSix(points: seq<Cell>)
    requires SixConsecutive(points)
    ensures SixConsecutive(Transposed(points))
  {
    var t := Transposed(points);
    var p, d :| IsLineDir(d) && SixFrom(points, p, d);
    forall k | 0 <= k < MAX_COUNT
      ensures Cell(Along(p, d, k).y, Along(p, d, k).x) in t
    {
      var i :| 0 <= i < |points| && points[i] == Along(p, d, k);
      assert t[i] == Cell(Along(p, d, k).y, Along(p, d, k).x);
    }
    if d == Dir(1, -1) {
      // The image runs along (-1, 1): read it backwards from the far end.
      var q := Cell(p.y - 5, p.x + 5);
      forall k | 0 <= k < MAX_COUNT
        ensures Along(q, d, k) in t
      {
        assert Along(q, d, k) == Cell(Along(p, d, 5 - k).y, Along(p, d, 5 - k).x);
      }
      assert SixFrom(t, q, d);
    } else {
      var e := Dir(d.dy, d.dx);
      var q := Cell(p.y, p.x);
      forall k | 0 <= k < MAX_COUNT
        ensures Along(q, e, k) in t
      {
        assert Along(q, e, k) == Cell(Along(p, d, k).y, Along(p, d, k).x);
      }
      assert IsLineDir(e) && SixFrom(t, q, e);
    }
  }

  lemma RotatedSix(points: seq<Cell>)
    requires SixConsecutive(points)
    ensures SixConsecutive(Rotated(points))
  {
    var t := Rotated(points);
    var p, d :| IsLineDir(d) && SixFrom(points, p, d);
    // The image runs along -d: read it from the image of the far end.
    var q := Cell(-Along(p, d, 5).x, -Along(p, d, 5).y);
    forall k | 0 <= k < MAX_COUNT
      ensures Along(q, d, k) in t
    {
      var c := Along(p, d, 5 - k);
      var i :| 0 <= i < |points| && points[i] == c;
      assert t[i] == Cell(-c.x, -c.y) == Along(q, d, k);
    }
    assert SixFrom(t, q, d);
  }

  /** Mirroring the board across its main diagonal does not change the
      answer of the counters. */
  lemma SixInLineTransposed(points: seq<Cell>)
    ensures HasSixInLine(points) <==> HasSixInLine(Transposed(points))
  {
    SixInLineIff(points);
    SixInLineIff(Transposed(points));
    TransposedTwice(points);
    if SixConsecutive(points) {
      TransposedSix(points);
    }
    if SixConsecutive(Transposed(points)) {
      TransposedSix(Transposed(points));
    }
  }

  /** Turning the board half a turn does not change the answer of the
      counters. */
  lemma SixInLineRotated(points: seq<Cell>)
    ensures HasSixInLine(points) <==> HasSixInLine(Rotated(points))
  {
    SixInLineIff(points);
    SixInLineIff(Rotated(points));
    RotatedTwice(points);
    if SixConsecutive(points) {
      RotatedSix(points);
    }
    if SixConsecutive(Rotated(points)) {
      RotatedSix(Rotated(points));
    }
  }

  /** Mirroring the board across its anti-diagonal (the main-diagonal
      mirror followed by a half turn) does not change the answer of the
      counters. */
  lemma SixInLineAntiTransposed(points: seq<Cell>)
    ensures HasSixInLine(points) <==> HasSixInLine(Rotated(Transposed(points)))
  {
    SixInLineTransposed(points);
    SixInLineRotated(Transposed(points));
  }

  // ---------------------------------------------------------------------
  // Scenarios

  /** Six pieces along row 0 win. */
  lemma HorizontalSixWins()
    ensures HasSixInLine([Cell(0, 0), Cell(1, 0), Cell(2, 0), Cell(3, 0), Cell(4, 0), Cell(5, 0)])
  {
    var s := [Cell(0, 0), Cell(1, 0), Cell(2, 0), Cell(3, 0), Cell(4, 0), Cell(5, 0)];
    assert SixFrom(s, Cell(0, 0), Dir(1, 0));
    SixInLineIff(s);
  }

  /** Six pieces along the main diagonal win. */
  lemma DiagonalSixWins()
    ensures HasSixInLine([Cell(0, 0), Cell(1, 1), Cell(2, 2), Cell(3, 3), Cell(4, 4), Cell(5, 5)])
  {
    var s := [Cell(0, 0), Cell(1, 1), Cell(2, 2), Cell(3, 3), Cell(4, 4), Cell(5, 5)];
    assert SixFrom(s, Cell(0, 0), Dir(1, 1));
    SixInLineIff(s);
  }

  /** Five in a row, a gap, and one more piece. */
  function BrokenRow(): seq<Cell> {
    [Cell(0, 0), Cell(1, 0), Cell(2, 0), Cell(3, 0), Cell(4, 0), Cell(6, 0)]
  }

  /** Every six cells on a line miss some cell of the broken row. */
  lemma BrokenRowGap(p: Cell, d: Dir) returns (k: nat)
    requires IsLineDir(d)
    ensures k < MAX_COUNT && Along(p, d, k) !in BrokenRow()
  {
    if d.dy != 0 {
      // The run leaves row 0 within its first two cells.
      k := if p.y != 0 then 0 else 1;
    } else if p.y != 0 || p.x < 0 {
      k := 0;
    } else if p.x > 1 {
      k := 5;
    } else {
      // The run covers column 5.
      k := 5 - p.x;
    }
  }

  /** Five in a row and one more piece past a gap do not win. */
  lemma BrokenRowNoWin()
    ensures !HasSixInLine(BrokenRow())
  {
    SixInLineIff(BrokenRow());
    forall p, d | IsLineDir(d)
      ensures !SixFrom(BrokenRow(), p, d)
    {
      var k := BrokenRowGap(p, d);
    }
  }
}

/**
 * Connect four on a 6×7 board stored row-major in 42 cells: cell (row, col) is at
 * 7 * row + col, row 0 is the top.  Cells hold 0 (empty), 1 or -1; a move names a column.
 */
module ConnectFour {

  /** The cell at (row, col) of the grid. */
  function Cell(s: seq<int>, row: int, col: int): int
    requires |s| == 42 && 0 <= row < 6 && 0 <= col < 7
  {
    s[7 * row + col]
  }

  /** `inicializa`: the empty board and player 1 to move. */
  function Initial(): (r: (seq<int>, int))
    ensures |r.0| == 42 && r.1 == 1
    ensures forall k :: 0 <= k < 42 ==> r.0[k] == 0
  {
    (seq(42, _ => 0), 1)
  }

  // ---------------------------------------------------------------------------
  // Legal moves

  /** The non-full columns among c..6, ascending. */
  function ColumnsFrom(s: seq<int>, c: int): (r: seq<int>)
    requires |s| == 42 && 0 <= c <= 7
    decreases 7 - c
    ensures forall x :: x in r <==> c <= x < 7 && s[x] == 0
    ensures forall p :: 0 <= p < |r| ==> c <= r[p]
    ensures forall p, q :: 0 <= p < q < |r| ==> r[p] < r[q]
  {
    if c == 7 then []
    else if s[c] == 0 then [c] + ColumnsFrom(s, c + 1)
    else ColumnsFrom(s, c + 1)
  }

  /** `jugadas_legales`: exactly the columns whose top cell is empty, in ascending order. */
  function LegalColumns(s: seq<int>): (r: seq<int>)
    requires |s| == 42
    ensures forall x :: x in r <==> 0 <= x < 7 && s[x] == 0
    ensures forall p, q :: 0 <= p < q < |r| ==> r[p] < r[q]
  {
    ColumnsFrom(s, 0)
  }

  // ---------------------------------------------------------------------------
  // Dropping a piece

  /** The lowest empty row of column a among rows 0..row, or -1 when they are all filled. */
  function LowestEmptyFrom(s: seq<int>, a: int, row: int): (r: int)
    requires |s| == 42 && 0 <= a < 7 && -1 <= row < 6
    decreases row + 1
    ensures -1 <= r <= row
    ensures r >= 0 ==> Cell(s, r, a) == 0
    ensures forall r' :: r < r' <= row ==> Cell(s, r', a) != 0
  {
    if row < 0 then -1
    else if Cell(s, row, a) == 0 then row
    else LowestEmptyFrom(s, a, row - 1)
  }

  /**
   * The board `transicion` returns: j in the lowest empty cell of column a, every other cell
   * unchanged; the board itself when the column is full.
   */
  function Drop(s: seq<int>, a: int, j: int): (r: seq<int>)
    requires |s| == 42 && 0 <= a < 7
    ensures |r| == 42
    ensures (forall row :: 0 <= row < 6 ==> Cell(s, row, a) != 0) ==> r == s
    ensures forall row :: 0 <= row < 6 && Cell(s, row, a) == 0 &&
                          (forall r' :: row < r' < 6 ==> Cell(s, r', a) != 0) ==>
              r == s[7 * row + a := j]
  {
    var row := LowestEmptyFrom(s, a, 5);
    if row < 0 then s else s[7 * row + a := j]
  }

  /** `transicion`: copies the board and scans column a from the bottom row up. */
  method Transition(s: seq<int>, a: int, j: int) returns (r: seq<int>)
    requires |s| == 42 && 0 <= a < 7
    ensures r == Drop(s, a, j)
  {
    var cells := new int[42];
    forall k | 0 <= k < 42 {
      cells[k] := s[k];
    }
    var i := 5;
    while i >= 0
      invariant -1 <= i <= 5
      invariant cells[..] == s
      invariant forall r' :: i < r' < 6 ==> Cell(s, r', a) != 0
      decreases i + 1
    {
      if cells[a + 7 * i] == 0 {
        cells[a + 7 * i] := j;
        return cells[..];
      }
      i := i - 1;
    }
    r := cells[..];
  }

  // ---------------------------------------------------------------------------
  // Four in a row

  /** Four cells from (row, col), each one step of (dr, dc) from the previous. */
  datatype Run = Run(row: int, col: int, dr: int, dc: int)

  predicate OnGrid(row: int, col: int)
  {
    0 <= row < 6 && 0 <= col < 7
  }

  predicate RunOnGrid(u: Run)
  {
    OnGrid(u.row, u.col) && OnGrid(u.row + u.dr, u.col + u.dc) &&
    OnGrid(u.row + 2 * u.dr, u.col + 2 * u.dc) && OnGrid(u.row + 3 * u.dr, u.col + 3 * u.dc)
  }

  /** A vertical, horizontal, falling-diagonal or rising-diagonal run that fits on the board. */
  predicate IsLine(u: Run)
  {
    RunOnGrid(u) &&
    ((u.dr == 1 && u.dc == 0) || (u.dr == 0 && u.dc == 1) || (u.dr == 1 && u.dc == 1) || (u.dr == 1 && u.dc == -1))
  }

  /** The run holds four equal non-empty cells. */
  predicate Connects(s: seq<int>, u: Run)
    requires |s| == 42 && RunOnGrid(u)
  {
    var v := Cell(s, u.row, u.col);
    v != 0 && v == Cell(s, u.row + u.dr, u.col + u.dc) == Cell(s, u.row + 2 * u.dr, u.col + 2 * u.dc)
          == Cell(s, u.row + 3 * u.dr, u.col + 3 * u.dc)
  }

  /** The first connected vertical run from column i, row j on: columns 0..6, start rows 0..2. */
  function VerticalFrom(s: seq<int>, i: int, j: int): int
    requires |s| == 42 && 0 <= i <= 7 && 0 <= j <= 3
    decreases 7 - i, 3 - j
  {
    if i == 7 then 0
    else if j == 3 then VerticalFrom(s, i + 1, 0)
    else if Connects(s, Run(j, i, 1, 0)) then Cell(s, j, i)
    else VerticalFrom(s, i, j + 1)
  }

  /** The first connected horizontal run from row i, column j on: rows 0..5, start columns 0..3. */
  function HorizontalFrom(s: seq<int>, i: int, j: int): int
    requires |s| == 42 && 0 <= i <= 6 && 0 <= j <= 4
    decreases 6 - i, 4 - j
  {
    if i == 6 then 0
    else if j == 4 then HorizontalFrom(s, i + 1, 0)
    else if Connects(s, Run(i, j, 0, 1)) then Cell(s, i, j)
    else HorizontalFrom(s, i, j + 1)
  }

  /**
   * The first connected diagonal from column i, row j on: for each start column 0..3 and
   * row 0..2, the falling diagonal from (j, i), then the rising one from (j, i + 3).
   */
  function DiagonalFrom(s: seq<int>, i: int, j: int): int
    requires |s| == 42 && 0 <= i <= 4 && 0 <= j <= 3
    decreases 4 - i, 3 - j
  {
    if i == 4 then 0
    else if j == 3 then DiagonalFrom(s, i + 1, 0)
    else if Connects(s, Run(j, i, 1, 1)) then Cell(s, j, i)
    else if Connects(s, Run(j, i + 3, 1, -1)) then Cell(s, j, i + 3)
    else DiagonalFrom(s, i, j + 1)
  }

  /** The winner as `ganancia` scans for it: verticals, then horizontals, then diagonals. */
  function Winner(s: seq<int>): int
    requires |s| == 42
  {
    var v := VerticalFrom(s, 0, 0);
    if v != 0 then v
    else
      var h := HorizontalFrom(s, 0, 0);
      if h != 0 then h else DiagonalFrom(s, 0, 0)
  }

  /** Start (row, col) comes at or after (column i, row j) in a column-major scan. */
  predicate ColumnMajorAfter(i: int, j: int, row: int, col: int)
  {
    col > i || (col == i && row >= j)
  }

  /** The vertical scan finds nothing exactly when no vertical run at or after (i, j) connects. */
  lemma {:induction false} VerticalFromNone(s: seq<int>, i: int, j: int)
    requires |s| == 42 && 0 <= i <= 7 && 0 <= j <= 3
    decreases 7 - i, 3 - j
    ensures VerticalFrom(s, i, j) == 0 <==>
              forall row, col :: 0 <= row < 3 && 0 <= col < 7 && ColumnMajorAfter(i, j, row, col) ==>
                !Connects(s, Run(row, col, 1, 0))
  {
    if i < 7 {
      if j == 3 {
        VerticalFromNone(s, i + 1, 0);
      } else if !Connects(s, Run(j, i, 1, 0)) {
        VerticalFromNone(s, i, j + 1);
      }
    }
  }

  /** What the vertical scan returns is the value of a connected run. */
  lemma {:induction false} VerticalFromFound(s: seq<int>, i: int, j: int)
    requires |s| == 42 && 0 <= i <= 7 && 0 <= j <= 3
    decreases 7 - i, 3 - j
    ensures VerticalFrom(s, i, j) != 0 ==>
              exists u :: IsLine(u) && Connects(s, u) && VerticalFrom(s, i, j) == Cell(s, u.row, u.col)
  {
    if i < 7 {
      if j == 3 {
        VerticalFromFound(s, i + 1, 0);
      } else if Connects(s, Run(j, i, 1, 0)) {
        assert IsLine(Run(j, i, 1, 0));
      } else {
        VerticalFromFound(s, i, j + 1);
      }
    }
  }

  /** The horizontal scan finds nothing exactly when no horizontal run at or after (i, j) connects. */
  lemma {:induction false} HorizontalFromNone(s: seq<int>, i: int, j: int)
    requires |s| == 42 && 0 <= i <= 6 && 0 <= j <= 4
    decreases 6 - i, 4 - j
    ensures HorizontalFrom(s, i, j) == 0 <==>
              forall row, col :: 0 <= row < 6 && 0 <= col < 4 && (row > i || (row == i && col >= j)) ==>
                !Connects(s, Run(row, col, 0, 1))
  {
    if i < 6 {
      if j == 4 {
        HorizontalFromNone(s, i + 1, 0);
      } else if !Connects(s, Run(i, j, 0, 1)) {
        HorizontalFromNone(s, i, j + 1);
      }
    }
  }

  /** What the horizontal scan returns is the value of a connected run. */
  lemma {:induction false} HorizontalFromFound(s: seq<int>, i: int, j: int)
    requires |s| == 42 && 0 <= i <= 6 && 0 <= j <= 4
    decreases 6 - i, 4 - j
    ensures HorizontalFrom(s, i, j) != 0 ==>
              exists u :: IsLine(u) && Connects(s, u) && HorizontalFrom(s, i, j) == Cell(s, u.row, u.col)
  {
    if i < 6 {
      if j == 4 {
        HorizontalFromFound(s, i + 1, 0);
      } else if Connects(s, Run(i, j, 0, 1)) {
        assert IsLine(Run(i, j, 0, 1));
      } else {
        HorizontalFromFound(s, i, j + 1);
      }
    }
  }

  /** No falling diagonal from a start at or after (column i, row j) connects. */
  predicate NoFallingFrom(s: seq<int>, i: int, j: int)
    requires |s| == 42
  {
    forall row, col :: 0 <= row < 3 && 0 <= col < 4 && ColumnMajorAfter(i, j, row, col) ==>
      !Connects(s, Run(row, col, 1, 1))
  }

  /** No rising diagonal from a start at or after (column i, row j) connects; it begins 3 columns on. */
  predicate NoRisingFrom(s: seq<int>, i: int, j: int)
    requires |s| == 42
  {
    forall row, col :: 0 <= row < 3 && 3 <= col < 7 && ColumnMajorAfter(i, j, row, col - 3) ==>
      !Connects(s, Run(row, col, 1, -1))
  }

  lemma DiagonalStep(s: seq<int>, i: int, j: int)
    requires |s| == 42 && 0 <= i < 4 && 0 <= j < 3
    ensures NoFallingFrom(s, i, j) <==> !Connects(s, Run(j, i, 1, 1)) && NoFallingFrom(s, i, j + 1)
    ensures NoRisingFrom(s, i, j) <==> !Connects(s, Run(j, i + 3, 1, -1)) && NoRisingFrom(s, i, j + 1)
  {
    assert ColumnMajorAfter(i, j, j, i) && ColumnMajorAfter(i, j, j, i + 3 - 3);
  }

  lemma DiagonalNextColumn(s: seq<int>, i: int)
    requires |s| == 42 && 0 <= i < 4
    ensures NoFallingFrom(s, i, 3) == NoFallingFrom(s, i + 1, 0)
    ensures NoRisingFrom(s, i, 3) == NoRisingFrom(s, i + 1, 0)
  {
  }

  /** The diagonal scan finds nothing exactly when no diagonal from a start at or after (i, j) connects. */
  lemma {:induction false} DiagonalFromNone(s: seq<int>, i: int, j: int)
    requires |s| == 42 && 0 <= i <= 4 && 0 <= j <= 3
    decreases 4 - i, 3 - j
    ensures DiagonalFrom(s, i, j) == 0 <==> NoFallingFrom(s, i, j) && NoRisingFrom(s, i, j)
  {
    if i < 4 {
      if j == 3 {
        DiagonalFromNone(s, i + 1, 0);
        DiagonalNextColumn(s, i);
      } else {
        DiagonalStep(s, i, j);
        if !Connects(s, Run(j, i, 1, 1)) && !Connects(s, Run(j, i + 3, 1, -1)) {
          DiagonalFromNone(s, i, j + 1);
        }
      }
    }
  }

  /** What the diagonal scan returns is the value of a connected run. */
  lemma {:induction false} DiagonalFromFound(s: seq<int>, i: int, j: int)
    requires |s| == 42 && 0 <= i <= 4 && 0 <= j <= 3
    decreases 4 - i, 3 - j
    ensures DiagonalFrom(s, i, j) != 0 ==>
              exists u :: IsLine(u) && Connects(s, u) && DiagonalFrom(s, i, j) == Cell(s, u.row, u.col)
  {
    if i < 4 {
      if j == 3 {
        DiagonalFromFound(s, i + 1, 0);
      } else if Connects(s, Run(j, i, 1, 1)) {
        assert IsLine(Run(j, i, 1, 1));
      } else if Connects(s, Run(j, i + 3, 1, -1)) {
        assert IsLine(Run(j, i + 3, 1, -1));
      } else {
        DiagonalFromFound(s, i, j + 1);
      }
    }
  }

  /**
   * The winner is 0 exactly when no vertical, horizontal or diagonal run of four equal
   * non-empty cells exists anywhere on the board; otherwise it is the value of such a run.
   */
  lemma WinnerSpec(s: seq<int>)
    requires |s| == 42
    ensures Winner(s) == 0 <==> forall u :: IsLine(u) ==> !Connects(s, u)
    ensures Winner(s) != 0 ==> exists u :: IsLine(u) && Connects(s, u) && Winner(s) == Cell(s, u.row, u.col)
  {
    VerticalFromNone(s, 0, 0);
    VerticalFromFound(s, 0, 0);
    HorizontalFromNone(s, 0, 0);
    HorizontalFromFound(s, 0, 0);
    DiagonalFromNone(s, 0, 0);
    DiagonalFromFound(s, 0, 0);
    if Winner(s) == 0 {
      forall u | IsLine(u) ensures !Connects(s, u) {
        if u.dc == -1 {
          assert ColumnMajorAfter(0, 0, u.row, u.col - 3);
        }
      }
    }
  }

  /** The vertical scan of `ganancia`: column by column, each of the three start rows. */
  method ScanVerticals(s: seq<int>) returns (g: int)
    requires |s| == 42
    ensures g == VerticalFrom(s, 0, 0)
  {
    for i := 0 to 7
      invariant VerticalFrom(s, 0, 0) == VerticalFrom(s, i, 0)
    {
      g := ScanColumn(s, i);
      if g != 0 {
        return;
      }
    }
    return 0;
  }

  /** The inner loop of the vertical scan: the three vertical runs starting in column i. */
  method ScanColumn(s: seq<int>, i: int) returns (g: int)
    requires |s| == 42 && 0 <= i < 7
    ensures g != 0 ==> g == VerticalFrom(s, i, 0)
    ensures g == 0 ==> VerticalFrom(s, i, 0) == VerticalFrom(s, i + 1, 0)
  {
    for j := 0 to 3
      invariant VerticalFrom(s, i, 0) == VerticalFrom(s, i, j)
    {
      if s[i + 7 * j] == s[i + 7 * (j + 1)] == s[i + 7 * (j + 2)] == s[i + 7 * (j + 3)] != 0 {
        return s[i + 7 * j];
      }
    }
    return 0;
  }

  /** The horizontal scan of `ganancia`: row by row, each of the four start columns. */
  method ScanHorizontals(s: seq<int>) returns (g: int)
    requires |s| == 42
    ensures g == HorizontalFrom(s, 0, 0)
  {
    for i := 0 to 6
      invariant HorizontalFrom(s, 0, 0) == HorizontalFrom(s, i, 0)
    {
      g := ScanRow(s, i);
      if g != 0 {
        return;
      }
    }
    return 0;
  }

  /** The inner loop of the horizontal scan: the four horizontal runs starting in row i. */
  method ScanRow(s: seq<int>, i: int) returns (g: int)
    requires |s| == 42 && 0 <= i < 6
    ensures g != 0 ==> g == HorizontalFrom(s, i, 0)
    ensures g == 0 ==> HorizontalFrom(s, i, 0) == HorizontalFrom(s, i + 1, 0)
  {
    for j := 0 to 4
      invariant HorizontalFrom(s, i, 0) == HorizontalFrom(s, i, j)
    {
      if s[7 * i + j] == s[7 * i + j + 1] == s[7 * i + j + 2] == s[7 * i + j + 3] != 0 {
        return s[7 * i + j];
      }
    }
    return 0;
  }

  /** The diagonal scan of `ganancia`: a falling then a rising diagonal from each start. */
  method ScanDiagonals(s: seq<int>) returns (g: int)
    requires |s| == 42
    ensures g == DiagonalFrom(s, 0, 0)
  {
    for i := 0 to 4
      invariant DiagonalFrom(s, 0, 0) == DiagonalFrom(s, i, 0)
    {
      g := ScanDiagonalColumn(s, i);
      if g != 0 {
        return;
      }
    }
    return 0;
  }

  /** The inner loop of the diagonal scan: the starts in rows 0..2 of start column i. */
  method ScanDiagonalColumn(s: seq<int>, i: int) returns (g: int)
    requires |s| == 42 && 0 <= i < 4
    ensures g != 0 ==> g == DiagonalFrom(s, i, 0)
    ensures g == 0 ==> DiagonalFrom(s, i, 0) == DiagonalFrom(s, i + 1, 0)
  {
    for j := 0 to 3
      invariant DiagonalFrom(s, i, 0) == DiagonalFrom(s, i, j)
    {
      if s[i + 7 * j] == s[i + 7 * j + 8] == s[i + 7 * j + 16] == s[i + 7 * j + 24] != 0 {
        return s[i + 7 * j];
      }
      if s[i + 7 * j + 3] == s[i + 7 * j + 9] == s[i + 7 * j + 15] == s[i + 7 * j + 21] != 0 {
        return s[i + 7 * j + 3];
      }
    }
    return 0;
  }

  /**
   * `ganancia`: 0 exactly when no run of four equal non-empty cells exists, otherwise the
   * value of the first one the scans meet; every index read lies in 0..41.
   */
  method Utility(s: seq<int>) returns (g: int)
    requires |s| == 42
    ensures g == Winner(s)
    ensures g == 0 <==> forall u :: IsLine(u) ==> !Connects(s, u)
    ensures g != 0 ==> exists u :: IsLine(u) && Connects(s, u) && g == Cell(s, u.row, u.col)
  {
    WinnerSpec(s);
    g := ScanVerticals(s);
    if g != 0 {
      return;
    }
    g := ScanHorizontals(s);
    if g != 0 {
      return;
    }
    g := ScanDiagonals(s);
  }

  /** `terminal`: the board is full or somebody has four in a row. */
  method Terminal(s: seq<int>) returns (t: bool)
    requires |s| == 42
    ensures t <==> (forall k :: 0 <= k < 42 ==> s[k] != 0) || exists u :: IsLine(u) && Connects(s, u)
  {
    if 0 !in s {
      return true;
    }
    var g := Utility(s);
    t := g != 0;
  }

  // ---------------------------------------------------------------------------
  // Properties

  /** No empty cell lies below a filled one: the shape of boards built by dropping pieces. */
  predicate Settled(s: seq<int>)
    requires |s| == 42
  {
    forall row, col :: 0 <= row < 5 && 0 <= col < 7 && Cell(s, row, col) != 0 ==> Cell(s, row + 1, col) != 0
  }

  function Filled(s: seq<int>): (n: nat)
    ensures n <= |s|
  {
    if s == [] then 0 else (if s[0] != 0 then 1 else 0) + Filled(s[1..])
  }

  /** Writing a mark into an empty cell fills exactly one more cell. */
  lemma {:induction false} FilledUpdate(s: seq<int>, k: int, v: int)
    requires 0 <= k < |s| && s[k] == 0 && v != 0
    ensures Filled(s[k := v]) == Filled(s) + 1
  {
    if k == 0 {
      assert s[k := v][1..] == s[1..];
    } else {
      assert s[k := v][1..] == s[1..][k - 1 := v];
      FilledUpdate(s[1..], k - 1, v);
    }
  }

  /** On a settled board an empty cell has only empty cells above it. */
  lemma {:induction false} EmptyAbove(s: seq<int>, row: int, col: int, r': int)
    requires |s| == 42 && Settled(s) && 0 <= r' <= row < 6 && 0 <= col < 7 && Cell(s, row, col) == 0
    ensures Cell(s, r', col) == 0
    decreases row - r'
  {
    if r' < row {
      EmptyAbove(s, row, col, r' + 1);
    }
  }

  /** A drop into a column whose top cell is empty writes its lowest empty cell. */
  lemma DropRow(s: seq<int>, a: int, j: int) returns (row: int)
    requires |s| == 42 && 0 <= a < 7 && s[a] == 0
    ensures 0 <= row < 6 && Cell(s, row, a) == 0
    ensures forall r' :: row < r' < 6 ==> Cell(s, r', a) != 0
    ensures Drop(s, a, j) == s[7 * row + a := j]
  {
    row := LowestEmptyFrom(s, a, 5);
    assert Cell(s, 0, a) == 0;
  }

  /** A legal drop fills exactly one more cell and changes no other column. */
  lemma DropFillsOne(s: seq<int>, a: int, j: int)
    requires |s| == 42 && 0 <= a < 7 && s[a] == 0 && j != 0
    ensures Filled(Drop(s, a, j)) == Filled(s) + 1
    ensures forall row, col :: 0 <= row < 6 && 0 <= col < 7 && col != a ==> Cell(Drop(s, a, j), row, col) == Cell(s, row, col)
  {
    var row := DropRow(s, a, j);
    FilledUpdate(s, 7 * row + a, j);
    var r := Drop(s, a, j);
    forall rr, col | 0 <= rr < 6 && 0 <= col < 7 && col != a
      ensures Cell(r, rr, col) == Cell(s, rr, col)
    {
      assert 7 * rr + col != 7 * row + a by {
        if rr == row {
        } else if rr < row {
          assert 7 * rr + col < 7 * (rr + 1) <= 7 * row;
        } else {
          assert 7 * row + a < 7 * (row + 1) <= 7 * rr;
        }
      }
    }
  }

  /** A legal drop on a settled board keeps it settled. */
  lemma DropKeepsSettled(s: seq<int>, a: int, j: int)
    requires |s| == 42 && Settled(s) && 0 <= a < 7 && s[a] == 0 && j != 0
    ensures Settled(Drop(s, a, j))
  {
    var row := DropRow(s, a, j);
    DropFillsOne(s, a, j);
    var r := Drop(s, a, j);
    forall rr, col | 0 <= rr < 5 && 0 <= col < 7 && Cell(r, rr, col) != 0
      ensures Cell(r, rr + 1, col) != 0
    {
      if col == a {
        DropColumnStep(s, a, j, row, rr);
      }
    }
  }

  /** Within the dropped-into column, a filled cell still rests on a filled one. */
  lemma DropColumnStep(s: seq<int>, a: int, j: int, row: int, rr: int)
    requires |s| == 42 && Settled(s) && 0 <= a < 7 && j != 0
    requires 0 <= row < 6 && Cell(s, row, a) == 0 && forall r' :: row < r' < 6 ==> Cell(s, r', a) != 0
    requires 0 <= rr < 5 && Cell(s[7 * row + a := j], rr, a) != 0
    ensures Cell(s[7 * row + a := j], rr + 1, a) != 0
  {
    var r := s[7 * row + a := j];
    if rr + 1 < row {
      assert Cell(r, rr, a) == Cell(s, rr, a);
      EmptyAbove(s, row, a, rr);
      assert false;
    } else if rr + 1 > row {
      assert Cell(r, rr + 1, a) == Cell(s, rr + 1, a);
    }
  }

  /** On a settled board with no legal column every cell is filled, so the game is over. */
  lemma {:induction false} NoColumnsMeansFull(s: seq<int>)
    requires |s| == 42 && Settled(s) && LegalColumns(s) == []
    ensures forall k :: 0 <= k < 42 ==> s[k] != 0
  {
    forall k | 0 <= k < 42 ensures s[k] != 0 {
      var row, col := k / 7, k % 7;
      assert col !in LegalColumns(s);
      if s[k] == 0 {
        assert Cell(s, row, col) == 0;
        EmptyAbove(s, row, col, 0);
        assert false;
      }
    }
  }
}

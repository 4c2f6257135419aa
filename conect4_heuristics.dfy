/**
 * The connect-four heuristics the search engine calls: two move orderings built on
 * Python's stable `sorted`, and the pattern-counting static evaluation `evalua_nuevo`.
 * Boards are the same 42-cell row-major sequences as in `ConnectFour`.
 */
module ConnectFourHeuristics {
  import opened StableSort

  // ---------------------------------------------------------------------------
  // ordena_centro

  /** Distance of a column from the centre, with the centre taken as column 4. */
  function CentreDistance(x: int): (d: int)
    ensures d >= 0 && (d == x - 4 || d == 4 - x)
  {
    if x >= 4 then x - 4 else 4 - x
  }

  /** `ordena_centro`: the moves sorted by distance to column 4; the player is unused. */
  function OrderByCentre(moves: seq<int>, player: int): (r: seq<int>)
    ensures multiset(r) == multiset(moves)
    ensures SortedBy(r, CentreDistance)
    ensures forall d :: KeyFilter(r, CentreDistance, d) == KeyFilter(moves, CentreDistance, d)
  {
    SortByCorrect(moves, CentreDistance);
    SortBy(moves, CentreDistance)
  }

  /** Whatever the input order, column 4 comes first whenever it is offered. */
  lemma CentreFirst(moves: seq<int>, player: int)
    requires 4 in moves
    ensures OrderByCentre(moves, player)[0] == 4
  {
    var r := OrderByCentre(moves, player);
    assert 4 in multiset(r);
    var k :| 0 <= k < |r| && r[k] == 4;
    var key := CentreDistance;
    assert key(r[0]) <= key(r[k]);
  }

  /** The last five columns, the part of the order that interleaves the two sides. */
  lemma CentreOrderLastFive()
    ensures SortBy([2, 3, 4, 5, 6], CentreDistance) == [4, 3, 5, 2, 6]
  {
    var key := CentreDistance;
    assert SortBy([6], key) == [6];
    assert SortBy([5, 6], key) == [5, 6];
    assert SortBy([4, 5, 6], key) == [4, 5, 6];
    assert SortBy([3, 4, 5, 6], key) == [4, 3, 5, 6] by {
      assert Insert(3, [5, 6], key) == [3, 5, 6];
    }
    assert SortBy([2, 3, 4, 5, 6], key) == [4, 3, 5, 2, 6] by {
      assert Insert(2, [6], key) == [2, 6];
      assert Insert(2, [5, 6], key) == [5, 2, 6];
      assert Insert(2, [3, 5, 6], key) == [3, 5, 2, 6];
    }
  }

  /** On all seven columns the order fans out from column 4, left neighbour before right. */
  lemma CentreOrderAllColumns()
    ensures OrderByCentre([0, 1, 2, 3, 4, 5, 6], 1) == [4, 3, 5, 2, 6, 1, 0]
  {
    var key := CentreDistance;
    CentreOrderLastFive();
    // Columns 1 and 0 lie farther out than everything already placed.
    InsertLast(1, [4, 3, 5, 2, 6], key);
    assert SortBy([1, 2, 3, 4, 5, 6], key) == [4, 3, 5, 2, 6, 1] by {
      assert [1, 2, 3, 4, 5, 6][1..] == [2, 3, 4, 5, 6];
    }
    InsertLast(0, [4, 3, 5, 2, 6, 1], key);
    assert SortBy([0, 1, 2, 3, 4, 5, 6], key) == [4, 3, 5, 2, 6, 1, 0] by {
      assert [0, 1, 2, 3, 4, 5, 6][1..] == [1, 2, 3, 4, 5, 6];
    }
  }

  /** The distance to the true middle column, 3, of a seven-column board. */
  function MiddleDistance(x: int): (d: int)
    ensures d >= 0 && (d == x - 3 || d == 3 - x)
  {
    if x >= 3 then x - 3 else 3 - x
  }

  /** The centre ordering measured from column 3, the middle of columns 0..6. */
  function OrderByMiddle(moves: seq<int>, player: int): (r: seq<int>)
    ensures multiset(r) == multiset(moves)
    ensures SortedBy(r, MiddleDistance)
    ensures forall d :: KeyFilter(r, MiddleDistance, d) == KeyFilter(moves, MiddleDistance, d)
  {
    SortByCorrect(moves, MiddleDistance);
    SortBy(moves, MiddleDistance)
  }

  /** As written, column 4 is put ahead of the middle column 3. */
  lemma CentreOffByOne()
    ensures OrderByCentre([3, 4], 1) == [4, 3]
    ensures OrderByMiddle([3, 4], 1) == [3, 4]
  {
    assert [3, 4][1..] == [4];
    assert [4][1..] == [];
  }

  /** Measured from column 3, the middle column comes first whenever it is offered. */
  lemma MiddleFirst(moves: seq<int>, player: int)
    requires 3 in moves
    ensures OrderByMiddle(moves, player)[0] == 3
  {
    var r := OrderByMiddle(moves, player);
    assert 3 in multiset(r);
    var k :| 0 <= k < |r| && r[k] == 3;
    var key := MiddleDistance;
    assert key(r[0]) <= key(r[k]);
  }

  // ---------------------------------------------------------------------------
  // ordenar_jugadas_avanzado

  /** Column preferences of player 1. */
  const FirstPlayerWeights: map<int, int> := map[3 := 12, 2 := 9, 4 := 9, 1 := 6, 5 := 6, 0 := 3, 6 := 3]

  /** Column preferences of any other player. */
  const SecondPlayerWeights: map<int, int> := map[3 := 10, 2 := 9, 4 := 9, 1 := 7, 5 := 7, 0 := 5, 6 := 5]

  function Weights(player: int): (w: map<int, int>)
    ensures forall c :: c in w <==> 0 <= c < 7
  {
    if player == 1 then FirstPlayerWeights else SecondPlayerWeights
  }

  predicate Columns(moves: seq<int>)
  {
    forall k :: 0 <= k < |moves| ==> 0 <= moves[k] < 7
  }

  /** The sort key: the weight negated, since the source sorts by weight in reverse. */
  function PreferenceKey(player: int): int -> int
  {
    c => if c in Weights(player) then -Weights(player)[c] else 0
  }

  /**
   * `ordenar_jugadas_avanzado`: the moves sorted by the player's column weight, heaviest
   * first, keeping moves of equal weight in their original order.
   */
  function OrderByPreference(moves: seq<int>, player: int): (r: seq<int>)
    requires Columns(moves)
    ensures multiset(r) == multiset(moves)
    ensures Columns(r)
    ensures forall i, j :: 0 <= i < j < |r| ==> Weights(player)[r[i]] >= Weights(player)[r[j]]
    ensures forall v :: KeyFilter(r, PreferenceKey(player), v) == KeyFilter(moves, PreferenceKey(player), v)
  {
    var key := PreferenceKey(player);
    SortByCorrect(moves, key);
    var r := SortBy(moves, key);
    assert forall k :: 0 <= k < |r| ==> r[k] in multiset(moves);
    assert Columns(r);
    assert SortedBy(r, key);
    r
  }

  /** Column 3 carries the largest weight for both players, and no other column matches it. */
  lemma HeaviestColumn(player: int, c: int)
    requires 0 <= c < 7 && Weights(player)[c] >= Weights(player)[3]
    ensures c == 3
  {
  }

  /** So column 3 is tried first whenever it is offered. */
  lemma PreferenceFirst(moves: seq<int>, player: int)
    requires Columns(moves) && 3 in moves
    ensures OrderByPreference(moves, player)[0] == 3
  {
    var r := OrderByPreference(moves, player);
    assert 3 in multiset(r);
    var k :| 0 <= k < |r| && r[k] == 3;
    if k > 0 {
      assert Weights(player)[r[0]] >= Weights(player)[r[k]];
      HeaviestColumn(player, r[0]);
    }
  }

  // ---------------------------------------------------------------------------
  // evalua_nuevo

  /**
   * One loop nest of `evalua_nuevo`: windows of `len` cells starting at every row in
   * rowLo..rowHi-1 and column in 0..cols-1, each cell (dr, dc) from the previous.
   */
  datatype Pattern = Pattern(rowLo: int, rowHi: int, cols: int, dr: int, dc: int, len: int)

  const VerticalThrees := Pattern(0, 4, 7, 1, 0, 3)
  const HorizontalThrees := Pattern(0, 6, 4, 0, 1, 3)
  const RisingThrees := Pattern(3, 6, 4, -1, 1, 3)
  const FallingThrees := Pattern(0, 4, 5, 1, 1, 3)
  const VerticalPairs := Pattern(0, 5, 7, 1, 0, 2)
  const HorizontalPairs := Pattern(0, 6, 5, 0, 1, 2)
  const RisingPairs := Pattern(4, 6, 5, -1, 1, 2)
  const FallingPairs := Pattern(0, 4, 5, 1, 1, 2)

  /** How far, in rows and in columns, the last cell of a window lies from its first. */
  function RowReach(p: Pattern): int
  {
    if p.len == 3 then 2 * p.dr else p.dr
  }

  function ColReach(p: Pattern): int
  {
    if p.len == 3 then 2 * p.dc else p.dc
  }

  /** Every window of the pattern lies on the 6 x 7 board. */
  predicate Fits(p: Pattern)
  {
    (p.len == 2 || p.len == 3) && (p.dr == -1 || p.dr == 0 || p.dr == 1) && (p.dc == 0 || p.dc == 1) &&
    0 <= p.rowLo < p.rowHi <= 6 && 0 < p.cols <= 7 &&
    0 <= p.rowLo + RowReach(p) && p.rowHi - 1 + RowReach(p) <= 5 && p.cols - 1 + ColReach(p) <= 6
  }

  /** Three equal stones score 5, two score 1. */
  function Weight(p: Pattern): int
  {
    if p.len == 3 then 5 else 1
  }

  /** The index distance between successive cells of a window. */
  function Step(p: Pattern): int
  {
    7 * p.dr + p.dc
  }

  predicate Start(p: Pattern, i: int, j: int)
  {
    Fits(p) && p.rowLo <= i < p.rowHi && 0 <= j < p.cols
  }

  /** Every index a window reads lies in 0..41. */
  lemma WindowInGrid(p: Pattern, i: int, j: int)
    requires Start(p, i, j)
    ensures 0 <= i * 7 + j < 42 && 0 <= i * 7 + j + Step(p) < 42
    ensures p.len == 3 ==> 0 <= i * 7 + j + 2 * Step(p) < 42
  {
  }

  /** How far along the board, in cells, the k-th cell of a window lies from its first. */
  function Offset(p: Pattern, k: int): int
  {
    if k == 0 then 0 else if k == 1 then Step(p) else 2 * Step(p)
  }

  /** The k-th cell of the window starting at (i, j). */
  function WindowCell(s: seq<int>, p: Pattern, i: int, j: int, k: int): int
    requires |s| == 42 && Start(p, i, j) && 0 <= k < p.len
  {
    WindowInGrid(p, i, j);
    s[i * 7 + j + Offset(p, k)]
  }

  /** All cells of the window at (i, j) hold `v`. */
  predicate AllAre(s: seq<int>, p: Pattern, i: int, j: int, v: int)
    requires |s| == 42 && Start(p, i, j)
  {
    forall k :: 0 <= k < p.len ==> WindowCell(s, p, i, j, k) == v
  }

  /** What one window adds to the score. */
  function WindowScore(s: seq<int>, p: Pattern, i: int, j: int): int
    requires |s| == 42 && Start(p, i, j)
  {
    if AllAre(s, p, i, j, 1) then Weight(p)
    else if AllAre(s, p, i, j, -1) then -Weight(p)
    else 0
  }

  /** The test a three-cell loop makes decides the window's contribution. */
  lemma ThreeWindow(s: seq<int>, p: Pattern, i: int, j: int)
    requires |s| == 42 && Start(p, i, j) && p.len == 3
    ensures var a, st := i * 7 + j, Step(p);
      0 <= a < 42 && 0 <= a + st < 42 && 0 <= a + 2 * st < 42 &&
      WindowValue(s, p, i, j) ==
        if s[a] == s[a + st] == s[a + 2 * st] == 1 then 5
        else if s[a] == s[a + st] == s[a + 2 * st] == -1 then -5
        else 0
  {
    WindowInGrid(p, i, j);
    var a, st := i * 7 + j, Step(p);
    assert WindowCell(s, p, i, j, 0) == s[a] && WindowCell(s, p, i, j, 1) == s[a + st];
    assert WindowCell(s, p, i, j, 2) == s[a + 2 * st];
  }

  /** The test a two-cell loop makes decides the window's contribution. */
  lemma PairWindow(s: seq<int>, p: Pattern, i: int, j: int)
    requires |s| == 42 && Start(p, i, j) && p.len == 2
    ensures var a, st := i * 7 + j, Step(p);
      0 <= a < 42 && 0 <= a + st < 42 &&
      WindowValue(s, p, i, j) ==
        if s[a] == s[a + st] == 1 then 1
        else if s[a] == s[a + st] == -1 then -1
        else 0
  {
    WindowInGrid(p, i, j);
    var a, st := i * 7 + j, Step(p);
    assert WindowCell(s, p, i, j, 0) == s[a] && WindowCell(s, p, i, j, 1) == s[a + st];
  }

  /** A window's contribution, by its start; 0 for a start outside the pattern. */
  function WindowValue(s: seq<int>, p: Pattern, i: int, j: int): int
  {
    if |s| == 42 && Start(p, i, j) then WindowScore(s, p, i, j) else 0
  }

  /** The contributions of the windows of row i starting in columns 0..n-1. */
  function RowTotal(s: seq<int>, p: Pattern, i: int, n: nat): int
  {
    if n == 0 then 0 else RowTotal(s, p, i, n - 1) + WindowValue(s, p, i, n - 1)
  }

  /** The contributions of the windows of rows rowLo..m-1. */
  function RowsTotal(s: seq<int>, p: Pattern, m: int): int
    requires p.rowLo <= m && 0 <= p.cols
    decreases m - p.rowLo
  {
    if m == p.rowLo then 0 else RowsTotal(s, p, m - 1) + RowTotal(s, p, m - 1, p.cols)
  }

  /** What one loop nest of `evalua_nuevo` adds to the score. */
  function PatternScore(s: seq<int>, p: Pattern): int
    requires Fits(p)
  {
    RowsTotal(s, p, p.rowHi)
  }

  lemma PatternsFit()
    ensures Fits(VerticalThrees) && Fits(HorizontalThrees) && Fits(RisingThrees) && Fits(FallingThrees)
    ensures Fits(VerticalPairs) && Fits(HorizontalPairs) && Fits(RisingPairs) && Fits(FallingPairs)
  {
  }

  /** `evalua_nuevo` as a sum: the eight loop nests, threes first, then pairs. */
  function Score(s: seq<int>): int
    requires |s| == 42
  {
    PatternsFit();
    PatternScore(s, VerticalThrees) + PatternScore(s, HorizontalThrees) +
    PatternScore(s, RisingThrees) + PatternScore(s, FallingThrees) +
    PatternScore(s, VerticalPairs) + PatternScore(s, HorizontalPairs) +
    PatternScore(s, RisingPairs) + PatternScore(s, FallingPairs)
  }

  /**
   * A loop nest of `evalua_nuevo` over three-cell windows, adding their contributions to
   * `score`: the outer loop over rows here, the inner loop over columns in `AddThreesRow`.
   */
  method AddThrees(s: seq<int>, p: Pattern, score: int) returns (r: int)
    requires |s| == 42 && Fits(p) && p.len == 3
    ensures r == score + PatternScore(s, p)
  {
    r := score;
    for i := p.rowLo to p.rowHi
      invariant r == score + RowsTotal(s, p, i)
    {
      r := AddThreesRow(s, p, i, r);
    }
  }

  /**
   * A loop nest of `evalua_nuevo` over two-cell windows, adding their contributions to
   * `score`: the outer loop over rows here, the inner loop over columns in `AddPairsRow`.
   */
  method AddPairs(s: seq<int>, p: Pattern, score: int) returns (r: int)
    requires |s| == 42 && Fits(p) && p.len == 2
    ensures r == score + PatternScore(s, p)
  {
    r := score;
    for i := p.rowLo to p.rowHi
      invariant r == score + RowsTotal(s, p, i)
    {
      r := AddPairsRow(s, p, i, r);
    }
  }

  /** The inner loop over three-cell windows: those starting in row `i`. */
  method AddThreesRow(s: seq<int>, p: Pattern, i: int, score: int) returns (r: int)
    requires |s| == 42 && Fits(p) && p.len == 3 && p.rowLo <= i < p.rowHi
    ensures r == score + RowTotal(s, p, i, p.cols)
  {
    r := score;
    var st := Step(p);
    for j := 0 to p.cols
      invariant r == score + RowTotal(s, p, i, j)
    {
      ThreeWindow(s, p, i, j);
      assert RowTotal(s, p, i, j + 1) == RowTotal(s, p, i, j) + WindowValue(s, p, i, j);
      var indice := i * 7 + j;
      if s[indice] == s[indice + st] == s[indice + 2 * st] == 1 {
        r := r + 5;
      } else if s[indice] == s[indice + st] == s[indice + 2 * st] == -1 {
        r := r - 5;
      }
    }
  }

  /** The inner loop over two-cell windows: those starting in row `i`. */
  method AddPairsRow(s: seq<int>, p: Pattern, i: int, score: int) returns (r: int)
    requires |s| == 42 && Fits(p) && p.len == 2 && p.rowLo <= i < p.rowHi
    ensures r == score + RowTotal(s, p, i, p.cols)
  {
    r := score;
    var st := Step(p);
    for j := 0 to p.cols
      invariant r == score + RowTotal(s, p, i, j)
    {
      PairWindow(s, p, i, j);
      assert RowTotal(s, p, i, j + 1) == RowTotal(s, p, i, j) + WindowValue(s, p, i, j);
      var indice := i * 7 + j;
      if s[indice] == s[indice + st] == 1 {
        r := r + 1;
      } else if s[indice] == s[indice + st] == -1 {
        r := r - 1;
      }
    }
  }

  /** `evalua_nuevo`: the pattern score of the board for player 1. */
  method Evaluate(s: seq<int>) returns (score: int)
    requires |s| == 42
    ensures score == Score(s)
  {
    PatternsFit();
    score := 0;
    score := AddThrees(s, VerticalThrees, score);
    score := AddThrees(s, HorizontalThrees, score);
    score := AddThrees(s, RisingThrees, score);
    score := AddThrees(s, FallingThrees, score);
    score := AddPairs(s, VerticalPairs, score);
    score := AddPairs(s, HorizontalPairs, score);
    score := AddPairs(s, RisingPairs, score);
    score := AddPairs(s, FallingPairs, score);
  }

  /** The board seen from the other side: every stone changes owner. */
  function Negate(s: seq<int>): (r: seq<int>)
    ensures |r| == |s|
    ensures forall k :: 0 <= k < |s| ==> r[k] == -s[k]
  {
    seq(|s|, k requires 0 <= k < |s| => -s[k])
  }

  /** A window of all 1s becomes a window of all -1s and back; mixed windows stay mixed. */
  lemma WindowScoreNegate(s: seq<int>, p: Pattern, i: int, j: int)
    requires |s| == 42 && Start(p, i, j)
    ensures WindowScore(Negate(s), p, i, j) == -WindowScore(s, p, i, j)
  {
    var t := Negate(s);
    forall k | 0 <= k < p.len ensures WindowCell(t, p, i, j, k) == -WindowCell(s, p, i, j, k) {
      WindowInGrid(p, i, j);
    }
    assert AllAre(t, p, i, j, 1) <==> AllAre(s, p, i, j, -1);
    assert AllAre(t, p, i, j, -1) <==> AllAre(s, p, i, j, 1);
    // A window cannot be all 1s and all -1s at once: look at its first cell.
    if AllAre(s, p, i, j, 1) {
      assert WindowCell(s, p, i, j, 0) == 1;
    }
    if AllAre(t, p, i, j, 1) {
      assert WindowCell(t, p, i, j, 0) == 1;
    }
  }

  /** Swapping every stone's owner negates every window's contribution. */
  lemma WindowValueNegate(s: seq<int>, p: Pattern, i: int, j: int)
    ensures WindowValue(Negate(s), p, i, j) == -WindowValue(s, p, i, j)
  {
    if |s| == 42 && Start(p, i, j) {
      WindowScoreNegate(s, p, i, j);
    }
  }

  /** Swapping every stone's owner negates the total of a row of windows. */
  lemma {:induction false} RowTotalNegate(s: seq<int>, p: Pattern, i: int, n: nat)
    ensures RowTotal(Negate(s), p, i, n) == -RowTotal(s, p, i, n)
  {
    if n > 0 {
      RowTotalNegate(s, p, i, n - 1);
      WindowValueNegate(s, p, i, n - 1);
    }
  }

  /** Swapping every stone's owner negates the total over rows rowLo..m-1. */
  lemma {:induction false} RowsTotalNegate(s: seq<int>, p: Pattern, m: int)
    requires p.rowLo <= m && 0 <= p.cols
    ensures RowsTotal(Negate(s), p, m) == -RowsTotal(s, p, m)
    decreases m - p.rowLo
  {
    if m > p.rowLo {
      RowsTotalNegate(s, p, m - 1);
      RowTotalNegate(s, p, m - 1, p.cols);
    }
  }

  /** The evaluation is antisymmetric: swapping every stone's owner negates the score. */
  lemma ScoreNegate(s: seq<int>)
    requires |s| == 42
    ensures Score(Negate(s)) == -Score(s)
  {
    PatternsFit();
    PatternNegate(s, VerticalThrees);
    PatternNegate(s, HorizontalThrees);
    PatternNegate(s, RisingThrees);
    PatternNegate(s, FallingThrees);
    PatternNegate(s, VerticalPairs);
    PatternNegate(s, HorizontalPairs);
    PatternNegate(s, RisingPairs);
    PatternNegate(s, FallingPairs);
  }

  /** Swapping owners negates what each loop nest adds. */
  lemma PatternNegate(s: seq<int>, p: Pattern)
    requires |s| == 42 && Fits(p)
    ensures PatternScore(Negate(s), p) == -PatternScore(s, p)
  {
    RowsTotalNegate(s, p, p.rowHi);
  }

  /** The empty board is worth nothing to either side. */
  lemma EmptyBoardScore(s: seq<int>)
    requires |s| == 42 && forall k :: 0 <= k < 42 ==> s[k] == 0
    ensures Score(s) == 0
  {
    var n := Negate(s);
    assert n == s by {
      assert forall k :: 0 <= k < 42 ==> n[k] == s[k];
    }
    ScoreNegate(s);
  }
}

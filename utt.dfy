/**
 * Nested tic-tac-toe ("super gato"): nine 3×3 sub-boards, the player to move and the
 * sub-board the next move is forced into (-1 for any).  Cells hold 0 (empty), 1 or -1.
 * States are immutable values; every operation returns a new one.
 */
module UltimateTicTacToe {

  /** The errors the game model raises. */
  datatype Failure = InvalidShape | NotTerminal

  datatype Result<T> = Ok(value: T) | Err(error: Failure)

  /** A 3×3 board is indexed row-major 0..8; a line is three of those indices. */
  datatype Line = Line(a: int, b: int, c: int)

  /** A move: a sub-board index and a cell index inside it, both 0..8. */
  datatype Move = Move(board: int, cell: int)

  /** The sub-boards, the mover and the active (forced) sub-board, -1 meaning "any". */
  datatype State = State(boards: seq<seq<int>>, mover: int, active: int)

  // ---------------------------------------------------------------------------
  // One 3×3 board

  /** The eight lines in the order `victoria` examines them: rows, columns, diagonals. */
  function LineAt(k: int): (l: Line)
    requires 0 <= k < 8
    ensures 0 <= l.a < 9 && 0 <= l.b < 9 && 0 <= l.c < 9
  {
    if k < 3 then Line(3 * k, 3 * k + 1, 3 * k + 2)
    else if k < 6 then Line(k - 3, k, k + 3)
    else if k == 6 then Line(0, 4, 8)
    else Line(2, 4, 6)
  }

  /** Line k of the board holds three equal non-empty marks. */
  predicate Completes(board: seq<int>, k: int)
    requires |board| == 9 && 0 <= k < 8
  {
    var l := LineAt(k);
    board[l.a] != 0 && board[l.a] == board[l.b] == board[l.c]
  }

  predicate CellsOk(board: seq<int>)
  {
    forall i :: 0 <= i < |board| ==> -1 <= board[i] <= 1
  }

  /** The mark on the first complete line among lines k..7, or 0 when there is none. */
  function OutcomeFrom(board: seq<int>, k: int): (r: int)
    requires |board| == 9 && 0 <= k <= 8
    decreases 8 - k
    ensures r == 0 <==> forall k' :: k <= k' < 8 ==> !Completes(board, k')
    ensures r != 0 ==> exists k' :: k <= k' < 8 && Completes(board, k') && r == board[LineAt(k').a]
                                    && forall k'' :: k <= k'' < k' ==> !Completes(board, k'')
  {
    if k == 8 then 0
    else if Completes(board, k) then board[LineAt(k).a]
    else OutcomeFrom(board, k + 1)
  }

  /**
   * The winner of a 3×3 board: 0 exactly when no line is complete, otherwise the mark of
   * the first complete line in examination order, which is then 1 or -1.
   */
  function Outcome(board: seq<int>): (r: int)
    requires |board| == 9
    ensures r == 0 <==> forall k :: 0 <= k < 8 ==> !Completes(board, k)
    ensures r != 0 ==> exists k :: 0 <= k < 8 && Completes(board, k) && r == board[LineAt(k).a]
                                   && forall k' :: 0 <= k' < k ==> !Completes(board, k')
    ensures CellsOk(board) ==> -1 <= r <= 1
  {
    OutcomeFrom(board, 0)
  }

  predicate Full(board: seq<int>)
    requires |board| == 9
  {
    forall i :: 0 <= i < 9 ==> board[i] != 0
  }

  /** A sub-board that is won or full takes no more moves. */
  predicate Closed(board: seq<int>)
    requires |board| == 9
  {
    Outcome(board) != 0 || Full(board)
  }

  /** `victoria`: checks the shape, then the rows, the columns and the two diagonals. */
  method Victoria(board: seq<int>) returns (r: Result<int>)
    ensures |board| != 9 <==> r == Err(InvalidShape)
    ensures |board| == 9 ==> r == Ok(Outcome(board))
  {
    if |board| != 9 {
      return Err(InvalidShape);
    }
    for i := 0 to 3
      invariant forall k :: 0 <= k < i ==> !Completes(board, k)
    {
      if board[3 * i] != 0 && board[3 * i] == board[3 * i + 1] == board[3 * i + 2] {
        assert Completes(board, i);
        return Ok(board[3 * i]);
      }
    }
    for i := 0 to 3
      invariant forall k :: 0 <= k < 3 + i ==> !Completes(board, k)
    {
      if board[i] != 0 && board[i] == board[i + 3] == board[i + 6] {
        assert Completes(board, 3 + i);
        return Ok(board[i]);
      }
    }
    if board[0] != 0 && board[0] == board[4] == board[8] {
      assert Completes(board, 6);
      return Ok(board[0]);
    }
    if board[2] != 0 && board[2] == board[4] == board[6] {
      assert Completes(board, 7);
      return Ok(board[2]);
    }
    assert !Completes(board, 6) && !Completes(board, 7);
    return Ok(0);
  }

  /** `any(cell == 0 for cell in board)`. */
  method HasEmptyCell(board: seq<int>) returns (e: bool)
    ensures e <==> exists i :: 0 <= i < |board| && board[i] == 0
  {
    e := false;
    for i := 0 to |board|
      invariant e <==> exists k :: 0 <= k < i && board[k] == 0
    {
      if board[i] == 0 {
        e := true;
      }
    }
  }

  /** `tablero_ganado`: the sub-board is won or has no empty cell. */
  method BoardClosed(board: seq<int>) returns (c: bool)
    requires |board| == 9
    ensures c == Closed(board)
  {
    var w := Victoria(board);
    var e := HasEmptyCell(board);
    c := w.value != 0 || !e;
  }

  // ---------------------------------------------------------------------------
  // The nested game

  predicate WellFormed(s: State)
  {
    |s.boards| == 9 && forall b :: 0 <= b < 9 ==> |s.boards[b]| == 9
  }

  /** Shape plus an active board that is -1 or a sub-board index. */
  predicate Shaped(s: State)
  {
    WellFormed(s) && -1 <= s.active < 9
  }

  predicate ValidState(s: State)
  {
    Shaped(s) && (forall b :: 0 <= b < 9 ==> CellsOk(s.boards[b])) && (s.mover == 1 || s.mover == -1)
  }

  /** The invariant of reachable states: the forced board, if any, is still open. */
  predicate ActiveOpen(s: State)
    requires Shaped(s)
  {
    s.active == -1 || !Closed(s.boards[s.active])
  }

  predicate InRange(m: Move)
  {
    0 <= m.board < 9 && 0 <= m.cell < 9
  }

  predicate AllClosed(s: State)
    requires WellFormed(s)
  {
    forall b :: 0 <= b < 9 ==> Closed(s.boards[b])
  }

  /** The forced board is absent or closed, so every open board may be played. */
  predicate Unrestricted(s: State)
    requires Shaped(s)
  {
    s.active == -1 || Closed(s.boards[s.active])
  }

  /** The rule `jugadas_legales` enumerates. */
  predicate IsLegal(s: State, m: Move)
    requires Shaped(s)
  {
    InRange(m) && s.boards[m.board][m.cell] == 0 &&
    if Unrestricted(s) then !Closed(s.boards[m.board]) else m.board == s.active
  }

  /** Board-major, then cell order: the order of the nested loops. */
  predicate Before(x: Move, y: Move)
  {
    x.board < y.board || (x.board == y.board && x.cell < y.cell)
  }

  predicate Ascending(ms: seq<Move>)
  {
    forall p, q :: 0 <= p < q < |ms| ==> Before(ms[p], ms[q])
  }

  /** The 3×3 meta-board of sub-board winners. */
  function MetaBoard(s: State): (meta: seq<int>)
    requires WellFormed(s)
    ensures |meta| == 9
    ensures forall b :: 0 <= b < 9 ==> meta[b] == Outcome(s.boards[b])
  {
    seq(9, b requires 0 <= b < 9 => Outcome(s.boards[b]))
  }

  /** The two-tier end test: a line on the meta-board, or no open sub-board left. */
  predicate IsTerminal(s: State)
    requires WellFormed(s)
  {
    Outcome(MetaBoard(s)) != 0 || AllClosed(s)
  }

  /** `inicializa`: nine empty sub-boards, player 1 to move, any board playable. */
  function Initial(): (s: State)
    ensures ValidState(s) && ActiveOpen(s)
    ensures s.mover == 1 && s.active == -1
    ensures forall b, i :: 0 <= b < 9 && 0 <= i < 9 ==> s.boards[b][i] == 0
  {
    State(seq(9, _ => seq(9, _ => 0)), 1, -1)
  }

  /**
   * The state `transicion` builds: mark j at the move's cell, the mover flips, and the
   * next forced board is the PLAYED board (not the played cell) unless it is now closed.
   */
  function Next(s: State, m: Move, j: int): (r: State)
    requires WellFormed(s) && InRange(m)
    ensures Shaped(r)
    ensures r.boards[m.board][m.cell] == j
    ensures forall b, i :: 0 <= b < 9 && 0 <= i < 9 && (b != m.board || i != m.cell) ==>
              r.boards[b][i] == s.boards[b][i]
  {
    var board := s.boards[m.board][m.cell := j];
    State(s.boards[m.board := board], -j, if Closed(board) then -1 else m.board)
  }

  /** The variant with the standard rule: the played CELL selects the next forced board. */
  function NextStandard(s: State, m: Move, j: int): (r: State)
    requires WellFormed(s) && InRange(m)
    ensures Shaped(r)
    ensures r.boards == Next(s, m, j).boards && r.mover == Next(s, m, j).mover
  {
    var boards := s.boards[m.board := s.boards[m.board][m.cell := j]];
    State(boards, -j, if Closed(boards[m.cell]) then -1 else m.cell)
  }

  /** `jugadas_legales`: the legal moves, in the order of the nested loops. */
  method LegalMoves(s: State) returns (moves: seq<Move>)
    requires Shaped(s)
    ensures forall m :: m in moves <==> IsLegal(s, m)
    ensures Ascending(moves)
    ensures forall m :: m in moves ==> InRange(m) && s.boards[m.board][m.cell] == 0 && !Closed(s.boards[m.board])
  {
    moves := [];
    var free := s.active == -1;
    if !free {
      free := BoardClosed(s.boards[s.active]);
    }
    if free {
      for b := 0 to 9
        invariant forall m :: m in moves <==> IsLegal(s, m) && m.board < b
        invariant Ascending(moves)
      {
        var closed := BoardClosed(s.boards[b]);
        if closed {
          continue;
        }
        for i := 0 to 9
          invariant forall m :: m in moves <==> IsLegal(s, m) && (m.board < b || (m.board == b && m.cell < i))
          invariant Ascending(moves)
        {
          if s.boards[b][i] == 0 {
            moves := moves + [Move(b, i)];
          }
        }
      }
    } else {
      var t := s.active;
      for i := 0 to 9
        invariant forall m :: m in moves <==> IsLegal(s, m) && m.cell < i
        invariant Ascending(moves)
      {
        if s.boards[t][i] == 0 {
          moves := moves + [Move(t, i)];
        }
      }
    }
  }

  /** `transicion` on fresh copies of the boards; the input state is a value and stays as it was. */
  method Transition(s: State, m: Move, j: int) returns (r: State)
    requires WellFormed(s) && InRange(m)
    ensures r == Next(s, m, j)
    ensures r.mover == -j
    ensures r.active == (if Closed(r.boards[m.board]) then -1 else m.board)
  {
    var board := s.boards[m.board][m.cell := j];
    var boards := s.boards[m.board := board];
    var next := m.board;
    var closed := BoardClosed(boards[next]);
    if closed {
      next := -1;
    }
    r := State(boards, -j, next);
  }

  /** `completo_tablero`: the winner of each sub-board. */
  method MetaOutcomes(s: State) returns (meta: seq<int>)
    requires WellFormed(s)
    ensures meta == MetaBoard(s)
  {
    meta := [];
    for b := 0 to 9
      invariant |meta| == b
      invariant forall k :: 0 <= k < b ==> meta[k] == Outcome(s.boards[k])
    {
      var w := Victoria(s.boards[b]);
      meta := meta + [w.value];
    }
  }

  /** The scan of `terminal` for a sub-board that is neither won nor full. */
  method HasOpenBoard(s: State) returns (open: bool)
    requires WellFormed(s)
    ensures open == !AllClosed(s)
  {
    for b := 0 to 9
      invariant forall k :: 0 <= k < b ==> Closed(s.boards[k])
    {
      var w := Victoria(s.boards[b]);
      var e := HasEmptyCell(s.boards[b]);
      if w.value == 0 && e {
        return true;
      }
    }
    return false;
  }

  /** `terminal`: a line on the meta-board, else no sub-board left open. */
  method Terminal(s: State) returns (t: bool)
    requires WellFormed(s)
    ensures t == IsTerminal(s)
  {
    var meta := MetaOutcomes(s);
    var v := Victoria(meta);
    if v.value != 0 {
      return true;
    }
    var open := HasOpenBoard(s);
    t := !open;
  }

  /** `ganancia`: the meta-board winner of a terminal state, 0 for a draw; an error otherwise. */
  method Utility(s: State) returns (r: Result<int>)
    requires WellFormed(s)
    ensures r.Err? <==> !IsTerminal(s)
    ensures r.Err? ==> r.error == NotTerminal
    ensures r.Ok? ==> r.value == Outcome(MetaBoard(s))
    ensures r.Ok? && (forall b :: 0 <= b < 9 ==> CellsOk(s.boards[b])) ==> -1 <= r.value <= 1
  {
    var t := Terminal(s);
    if !t {
      return Err(NotTerminal);
    }
    var meta := MetaOutcomes(s);
    r := Victoria(meta);
  }

  // ---------------------------------------------------------------------------
  // Properties

  /** Two ascending sequences with the same members are the same sequence. */
  lemma {:induction false} AscendingUnique(xs: seq<Move>, ys: seq<Move>)
    requires Ascending(xs) && Ascending(ys)
    requires forall m :: m in xs <==> m in ys
    ensures xs == ys
  {
    if xs != [] {
      assert xs[0] in ys;
    }
    if ys != [] {
      assert ys[0] in xs;
    }
    if xs != [] && ys != [] {
      var x0, y0 := xs[0], ys[0];
      var p :| 0 <= p < |ys| && ys[p] == x0;
      var q :| 0 <= q < |xs| && xs[q] == y0;
      assert p == 0 || Before(y0, x0);
      assert q == 0 || Before(x0, y0);
      assert xs[0] == ys[0];
      forall m | m in xs[1..] ensures m in ys[1..] {
        var p :| 1 <= p < |xs| && xs[p] == m;
        assert m in xs && Before(xs[0], m);
        var q :| 0 <= q < |ys| && ys[q] == m;
        assert q != 0;
      }
      forall m | m in ys[1..] ensures m in xs[1..] {
        var q :| 1 <= q < |ys| && ys[q] == m;
        assert m in ys && Before(ys[0], m);
        var p :| 0 <= p < |xs| && xs[p] == m;
        assert p != 0;
      }
      AscendingUnique(xs[1..], ys[1..]);
    }
  }

  /** With the forced board open, the legal moves are exactly its empty cells. */
  lemma RestrictedToActive(s: State, m: Move)
    requires Shaped(s) && ActiveOpen(s) && s.active != -1
    ensures IsLegal(s, m) <==> InRange(m) && m.board == s.active && s.boards[s.active][m.cell] == 0
  {
  }

  /** There is no legal move exactly when every sub-board is closed; the state is then terminal. */
  lemma {:induction false} NoMovesIffAllClosed(s: State)
    requires Shaped(s)
    ensures (exists m :: IsLegal(s, m)) <==> !AllClosed(s)
    ensures (forall m :: !IsLegal(s, m)) ==> IsTerminal(s)
  {
    if !AllClosed(s) {
      var b :| 0 <= b < 9 && !Closed(s.boards[b]);
      if !Unrestricted(s) {
        b := s.active;
      }
      var i :| 0 <= i < 9 && s.boards[b][i] == 0;
      assert IsLegal(s, Move(b, i));
    }
  }

  /** Every transition leaves the forced board -1 or open, whatever the move. */
  lemma NextKeepsActiveOpen(s: State, m: Move, j: int)
    requires WellFormed(s) && InRange(m)
    ensures ActiveOpen(Next(s, m, j))
    ensures Next(s, m, j).active == -1 || Next(s, m, j).active == m.board
  {
  }

  /** A legal move by player j in {1, -1} keeps the state valid and its forced board open. */
  lemma {:induction false} StepKeepsInvariant(s: State, m: Move, j: int)
    requires ValidState(s) && IsLegal(s, m) && (j == 1 || j == -1)
    ensures ValidState(Next(s, m, j)) && ActiveOpen(Next(s, m, j))
  {
    var r := Next(s, m, j);
    forall b | 0 <= b < 9 ensures CellsOk(r.boards[b]) {
      forall i | 0 <= i < 9 ensures -1 <= r.boards[b][i] <= 1 {
        if b != m.board || i != m.cell {
          assert CellsOk(s.boards[b]);
        }
      }
    }
  }

  /** A legal move only writes an empty cell of an open board: every mark and every decided
    * sub-board outcome of the old state survive. */
  lemma {:induction false} LegalMoveKeepsMarks(s: State, m: Move, j: int)
    requires Shaped(s) && IsLegal(s, m)
    ensures forall b, i :: 0 <= b < 9 && 0 <= i < 9 && s.boards[b][i] != 0 ==>
              Next(s, m, j).boards[b][i] == s.boards[b][i]
    ensures forall b :: 0 <= b < 9 && Outcome(s.boards[b]) != 0 ==>
              Next(s, m, j).boards[b] == s.boards[b]
  {
    var r := Next(s, m, j);
    forall b | 0 <= b < 9 && Outcome(s.boards[b]) != 0 ensures r.boards[b] == s.boards[b] {
      assert b != m.board;
      assert forall i :: 0 <= i < 9 ==> r.boards[b][i] == s.boards[b][i];
    }
  }

  /** Moves that follow the rules from s, each by the player to move. */
  predicate LegalPlay(s: State, ms: seq<Move>)
    requires Shaped(s)
    decreases |ms|
  {
    ms == [] || (IsLegal(s, ms[0]) && LegalPlay(Next(s, ms[0], s.mover), ms[1..]))
  }

  function Final(s: State, ms: seq<Move>): (r: State)
    requires Shaped(s) && LegalPlay(s, ms)
    decreases |ms|
    ensures Shaped(r)
  {
    if ms == [] then s else Final(Next(s, ms[0], s.mover), ms[1..])
  }

  /** Along any legal play the state stays valid and the forced board stays -1 or open. */
  lemma {:induction false} PlayKeepsInvariant(s: State, ms: seq<Move>)
    requires ValidState(s) && ActiveOpen(s) && LegalPlay(s, ms)
    decreases |ms|
    ensures ValidState(Final(s, ms)) && ActiveOpen(Final(s, ms))
  {
    if ms != [] {
      StepKeepsInvariant(s, ms[0], s.mover);
      PlayKeepsInvariant(Next(s, ms[0], s.mover), ms[1..]);
    }
  }

  /** A decided sub-board never changes again along a legal play. */
  lemma {:induction false} PlayKeepsDecidedBoards(s: State, ms: seq<Move>, b: int)
    requires Shaped(s) && LegalPlay(s, ms) && 0 <= b < 9 && Outcome(s.boards[b]) != 0
    ensures Final(s, ms).boards[b] == s.boards[b]
    decreases |ms|
  {
    if ms != [] {
      LegalMoveKeepsMarks(s, ms[0], s.mover);
      PlayKeepsDecidedBoards(Next(s, ms[0], s.mover), ms[1..], b);
    }
  }

  /** Every state reached from the initial one has its forced board -1 or open. */
  lemma ReachableActiveOpen(ms: seq<Move>)
    requires LegalPlay(Initial(), ms)
    ensures ValidState(Final(Initial(), ms)) && ActiveOpen(Final(Initial(), ms))
  {
    PlayKeepsInvariant(Initial(), ms);
  }

  /** The opening position is not terminal and every one of the 81 cells is a legal move. */
  lemma InitialOpening()
    ensures !IsTerminal(Initial())
    ensures forall m :: InRange(m) ==> IsLegal(Initial(), m)
  {
    var s := Initial();
    forall b | 0 <= b < 9 ensures Outcome(s.boards[b]) == 0 && !Closed(s.boards[b]) {
      ZeroBoardUndecided(s.boards[b]);
      assert s.boards[b][0] == 0;
    }
    var meta := MetaBoard(s);
    ZeroBoardUndecided(meta);
    assert !Closed(s.boards[0]);
  }

  /** A board with no mark has no winner. */
  lemma ZeroBoardUndecided(board: seq<int>)
    requires |board| == 9 && forall i :: 0 <= i < 9 ==> board[i] == 0
    ensures Outcome(board) == 0
  {
    forall k | 0 <= k < 8 ensures !Completes(board, k) {
      assert board[LineAt(k).a] == 0;
    }
  }

  /**
   * As written, once a move leaves its sub-board open the opponent must answer in that same
   * sub-board; with the standard rule the answer goes to the sub-board named by the played cell.
   */
  lemma AnswerInPlayedBoard(s: State, m: Move, j: int, m': Move)
    requires WellFormed(s) && InRange(m) && !Closed(Next(s, m, j).boards[m.board])
    ensures IsLegal(Next(s, m, j), m') <==>
              InRange(m') && m'.board == m.board && Next(s, m, j).boards[m.board][m'.cell] == 0
  {
  }

  lemma AnswerInPlayedCellStandard(s: State, m: Move, j: int, m': Move)
    requires WellFormed(s) && InRange(m) && !Closed(NextStandard(s, m, j).boards[m.cell])
    ensures IsLegal(NextStandard(s, m, j), m') <==>
              InRange(m') && m'.board == m.cell && NextStandard(s, m, j).boards[m.cell][m'.cell] == 0
  {
  }

  /** The two rules part ways on the first move at (2, 5): the code forces board 2, the standard game board 5. */
  lemma RulesDiffer()
    ensures Next(Initial(), Move(2, 5), 1).active == 2
    ensures NextStandard(Initial(), Move(2, 5), 1).active == 5
  {
    var s := Initial();
    var r := Next(s, Move(2, 5), 1);
    assert r.boards[2][0] == 0;
    assert r.boards[5][0] == 0;
    assert !Closed(r.boards[2]);
  }
}

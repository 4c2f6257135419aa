# Two board-game models: nested tic-tac-toe and connect four

This project models the game logic of two turn-based games written in Python, and proves
properties of that model in Dafny.

**`UltimateTTT` (nested tic-tac-toe, "super gato") — `utt.dfy`, module `UltimateTicTacToe`.**
- A state has three parts: nine 3×3 sub-boards, the player to move, and the sub-board the next
  move is forced into (-1 means any board).
- `victoria` decides one 3×3 board. It is reused on the meta-board, the 3×3 grid of sub-board
  winners.
- `jugadas_legales` lists the legal moves. It keeps to the forced board unless that board is
  closed (won or full).
- `transicion` writes one mark into fresh copies of the boards and picks the next forced board.
- `terminal` and `ganancia` form a two-tier end test: a line on the meta-board, or no open
  sub-board left.

**`Conecta4` (connect four) — `conect4.dfy`, module `ConnectFour`.**
- The board is 42 cells, row-major: 6 rows of 7 columns, row 0 on top.
- Modelled operations:
  - `jugadas_legales`: the non-full columns.
  - `transicion`: a gravity drop into the column.
  - `ganancia`: a scan for four in a row.
  - `terminal`.

**Heuristics — `conect4_heuristics.dfy`, module `ConnectFourHeuristics`.**
- `ordena_centro` and `ordenar_jugadas_avanzado` order moves with Python's stable `sorted`.
  That sort is modelled once, in `stable_sort.dfy` (module `StableSort`), and proved to be the
  only stable sort.
- `evalua_nuevo` is the pattern-counting static evaluation.

**How operations are modelled.**
- The source returns states as new tuples and never updates a state it was given, so states are
  datatypes and sequences here.
- Operations that work by loops are `method`s. Each is proved against a specification function.
  These are `victoria`, `jugadas_legales`, `transicion`, `terminal`, `ganancia` and
  `evalua_nuevo`.
- Operations that are single expressions are functions. These are `inicializa`, the column
  generator and the two orderings.
- Properties of those specification functions are stated and proved as lemmas.

**Next forced board.**
- The code forces the next move into the board just played, `b` (utt.py:66). It does not use the
  played cell `i`, which is the standard rule of the game.
- The model follows the code: `Next`.
- The standard rule is a separate, labelled variant, `NextStandard`. `RulesDiffer` shows a first
  move where the two disagree.

**Other notes.**
- Nested tic-tac-toe has no canonicalisation ("freeze") step and no static evaluator in the code,
  so the model has neither.
- The loop ranges of `evalua_nuevo` are modelled exactly as written, including the nests that
  stop short of the last possible window. Each nest is one `Pattern`: start rows, start columns,
  direction and window length.

## Model

| member | source | states |
|---|---|---|
| UltimateTicTacToe.OutcomeFrom | utt.py:117-130 | 0 exactly when no line from position k on is complete; otherwise the mark of the first complete line from k on |
| UltimateTicTacToe.Outcome | utt.py:117-130 | a board's winner is 0 iff none of its 8 lines holds three equal non-zero marks; otherwise it is the mark of the first such line in row, column, diagonal order, and lies in {-1, 0, 1} when the cells do |
| UltimateTicTacToe.Victoria | utt.py:109-130 | a board that is not 9 cells long is rejected with InvalidShape; otherwise the early-return scan yields exactly Outcome |
| UltimateTicTacToe.HasEmptyCell | utt.py:88 | true iff some cell is 0 |
| UltimateTicTacToe.BoardClosed | utt.py:33-34 | `tablero_ganado` holds iff the board is won or full (Closed) |
| UltimateTicTacToe.MetaBoard | utt.py:82 | the meta-board has 9 cells, cell b being the winner of sub-board b |
| UltimateTicTacToe.Initial | utt.py:22 | nine all-zero sub-boards, player 1 to move, any board playable; the state is valid and its forced board open |
| UltimateTicTacToe.Next | utt.py:51-73 | the move's cell holds j and every other cell of every board is unchanged; the result has the right shape |
| UltimateTicTacToe.NextStandard | utt.py:66 | the standard-rule variant builds the same boards and mover as Next; only the forced board differs |
| UltimateTicTacToe.IsTerminal | utt.py:80-91 | the end test of `terminal`: the meta-board has a winner or every sub-board is won or full; Terminal computes it, NoMovesIffAllClosed and InitialOpening state its consequences |
| UltimateTicTacToe.IsLegal | utt.py:33-46 | the rule `jugadas_legales` enumerates: a move in range onto an empty cell, of the forced board while that board is open, otherwise of any open board; LegalMoves computes it, RestrictedToActive and NoMovesIffAllClosed state its consequences |
| UltimateTicTacToe.LegalMoves | utt.py:24-48 | the result holds exactly the legal moves, ascending board-major and then by cell; every move lies in range, targets an empty cell and an open board |
| UltimateTicTacToe.Transition | utt.py:51-73 | the result is Next; the mover becomes -j; the forced board is the played board, or -1 once that board is won or full |
| UltimateTicTacToe.MetaOutcomes | utt.py:82 | the list of sub-board winners equals MetaBoard |
| UltimateTicTacToe.HasOpenBoard | utt.py:87-91 | true iff some sub-board is neither won nor full |
| UltimateTicTacToe.Terminal | utt.py:75-91 | true iff the meta-board has a winner or every sub-board is closed |
| UltimateTicTacToe.Utility | utt.py:93-107 | NotTerminal exactly on non-terminal states; otherwise the meta-board winner, in {-1, 0, 1} on boards of -1/0/1 cells, 0 for a draw |
| UltimateTicTacToe.AscendingUnique | utt.py:36-46 | two ascending move lists with the same members are equal, so the order of `jugadas_legales` is determined by its set of moves |
| UltimateTicTacToe.RestrictedToActive | utt.py:42-45 | with an open forced board, the legal moves are exactly the empty cells of that board |
| UltimateTicTacToe.NoMovesIffAllClosed | utt.py:35-46 | a legal move exists iff some sub-board is open; with no legal move the state is terminal |
| UltimateTicTacToe.NextKeepsActiveOpen | utt.py:66-69 | after any transition the forced board is -1 or the played board, and is open |
| UltimateTicTacToe.StepKeepsInvariant | utt.py:51-73 | a legal move by player 1 or -1 keeps the state well-shaped with -1/0/1 cells and its forced board open |
| UltimateTicTacToe.LegalMoveKeepsMarks | utt.py:60-64 | a legal move overwrites no mark, and leaves every decided sub-board exactly as it was |
| UltimateTicTacToe.PlayKeepsInvariant | utt.py:51-73 | along any sequence of legal moves the state stays valid and its forced board stays -1 or open |
| UltimateTicTacToe.PlayKeepsDecidedBoards | utt.py:51-73 | a sub-board that has a winner never changes again along a legal play |
| UltimateTicTacToe.ReachableActiveOpen | utt.py:22 | every state reachable from the initial one by legal moves is valid with its forced board -1 or open |
| UltimateTicTacToe.InitialOpening | utt.py:22 | the initial state is not terminal and all 81 cells are legal first moves |
| UltimateTicTacToe.ZeroBoardUndecided | utt.py:117-130 | an all-zero board has no winner |
| UltimateTicTacToe.AnswerInPlayedBoard | utt.py:66-69 | as written, once a move leaves its board open, the reply must be an empty cell of that same board |
| UltimateTicTacToe.AnswerInPlayedCellStandard | utt.py:66 | with the standard rule, the reply must be an empty cell of the board named by the played cell |
| UltimateTicTacToe.RulesDiffer | utt.py:66 | on the first move (2, 5) the code forces board 2, the standard rule board 5 |
| ConnectFour.Initial | conect4.py:36 | 42 empty cells and player 1 to move |
| ConnectFour.ColumnsFrom | conect4.py:39 | exactly the columns c..6 whose top cell is empty, strictly ascending |
| ConnectFour.LegalColumns | conect4.py:39 | exactly the columns 0..6 whose top cell is empty, strictly ascending |
| ConnectFour.LowestEmptyFrom | conect4.py:43-46 | the lowest empty row of the column among rows 0..row, every row below it filled, or -1 |
| ConnectFour.Drop | conect4.py:41-47 | a full column leaves the board unchanged; otherwise j lands in the lowest empty cell of the column and nothing else changes; 42 cells |
| ConnectFour.Transition | conect4.py:41-47 | the copy-and-scan loop yields exactly Drop |
| ConnectFour.VerticalFrom | conect4.py:51-56 | the value of the first connected vertical run from column i, row j on, in the loop order; its meaning is proved in VerticalFromNone and VerticalFromFound |
| ConnectFour.HorizontalFrom | conect4.py:58-63 | the value of the first connected horizontal run from row i, column j on; its meaning is proved in HorizontalFromNone and HorizontalFromFound |
| ConnectFour.DiagonalFrom | conect4.py:65-74 | the value of the first connected diagonal, falling before rising at each start, from column i, row j on; its meaning is proved in DiagonalFromNone and DiagonalFromFound |
| ConnectFour.Winner | conect4.py:49-75 | the value `ganancia` computes: verticals first, then horizontals, then diagonals; WinnerSpec proves it is 0 iff no line of four connects and otherwise a connected line's value |
| ConnectFour.VerticalFromNone | conect4.py:51-56 | the vertical scan from (i, j) finds nothing iff no vertical run at or after (i, j) connects |
| ConnectFour.VerticalFromFound | conect4.py:51-56 | a non-zero vertical scan result is the value of a connected line |
| ConnectFour.HorizontalFromNone | conect4.py:58-63 | the horizontal scan from (i, j) finds nothing iff no horizontal run at or after (i, j) connects |
| ConnectFour.HorizontalFromFound | conect4.py:58-63 | a non-zero horizontal scan result is the value of a connected line |
| ConnectFour.DiagonalStep | conect4.py:65-74 | one step of the diagonal scan: no diagonal from (i, j) on connects iff the one at (i, j) does not and none from (i, j+1) on does |
| ConnectFour.DiagonalNextColumn | conect4.py:65-66 | after the last start row of a column the diagonal scan continues at the next column |
| ConnectFour.DiagonalFromNone | conect4.py:65-74 | the diagonal scan from (i, j) finds nothing iff no falling or rising diagonal from a start at or after (i, j) connects |
| ConnectFour.DiagonalFromFound | conect4.py:65-74 | a non-zero diagonal scan result is the value of a connected line |
| ConnectFour.WinnerSpec | conect4.py:49-75 | the winner is 0 iff no vertical, horizontal or diagonal run of four equal non-zero cells exists; otherwise it is the value of such a run |
| ConnectFour.ScanVerticals | conect4.py:51-56 | the vertical loop nest returns the first connected vertical run's value, 0 if none |
| ConnectFour.ScanColumn | conect4.py:52-56 | the inner vertical loop returns that column's first connected value, or 0 and the scan continues at the next column |
| ConnectFour.ScanHorizontals | conect4.py:58-63 | the horizontal loop nest returns the first connected horizontal run's value, 0 if none |
| ConnectFour.ScanRow | conect4.py:59-63 | the inner horizontal loop returns that row's first connected value, or 0 and the scan continues at the next row |
| ConnectFour.ScanDiagonals | conect4.py:65-74 | the diagonal loop nest returns the first connected diagonal's value, 0 if none |
| ConnectFour.ScanDiagonalColumn | conect4.py:66-74 | the inner diagonal loop returns that column's first connected value, or 0 and the scan continues |
| ConnectFour.Utility | conect4.py:49-75 | `ganancia` is 0 iff no line of four equal non-zero cells exists, otherwise the value of such a line; all reads lie in 0..41 |
| ConnectFour.Terminal | conect4.py:77-80 | true iff every cell is filled or some line of four connects |
| ConnectFour.FilledUpdate | conect4.py:45 | writing a non-zero mark into an empty cell raises the filled count by one |
| ConnectFour.EmptyAbove | conect4.py:43-46 | on a settled board every cell above an empty one is empty |
| ConnectFour.DropRow | conect4.py:43-46 | a drop into a column with an empty top cell writes the lowest empty cell |
| ConnectFour.DropFillsOne | conect4.py:41-47 | a legal drop fills exactly one more cell and changes no other column |
| ConnectFour.DropKeepsSettled | conect4.py:41-47 | a legal drop on a settled board (no empty cell under a filled one) keeps it settled |
| ConnectFour.DropColumnStep | conect4.py:43-46 | in the dropped-into column a filled cell still rests on a filled one |
| ConnectFour.NoColumnsMeansFull | conect4.py:39 | on a settled board with no legal column every cell is filled |
| StableSort.KeyFilter | conect4.py:105 | the slice of one key value keeps only elements of the input with that key |
| StableSort.Insert | conect4.py:105 | insertion adds exactly the one element |
| StableSort.InsertLast | conect4.py:105 | an element whose key exceeds every other goes to the end |
| StableSort.InsertPermutes | conect4.py:105 | insertion is a permutation step |
| StableSort.InsertSorted | conect4.py:105 | insertion keeps a key-sorted sequence sorted |
| StableSort.InsertFilter | conect4.py:105 | insertion adds the element to its own key's slice and no other |
| StableSort.SortBy | conect4.py:105 | Python's `sorted` with a key, used at conect4.py:105 and conect4.py:148; its own contract keeps the length, and SortByCorrect and StableSortUnique prove it is the unique stable sort by the key |
| StableSort.SortByCorrect | conect4.py:105 | SortBy returns a permutation, ascending by key, with equal-key elements in input order |
| StableSort.StableSortUnique | conect4.py:148 | any two stable sorts of the same input are equal, so SortBy is what `sorted` returns |
| StableSort.SortedSameFilters | conect4.py:148 | two key-sorted sequences with the same slice for every key are equal |
| StableSort.MinKeyHead | conect4.py:148 | two sorted sequences with equal slices start with the same key |
| ConnectFourHeuristics.CentreDistance | conect4.py:105 | the key is the absolute distance to column 4 |
| ConnectFourHeuristics.OrderByCentre | conect4.py:101-105 | `ordena_centro` is a permutation of the moves, ascending by distance to column 4, stable on ties |
| ConnectFourHeuristics.CentreFirst | conect4.py:105 | column 4 comes first whenever it is offered |
| ConnectFourHeuristics.CentreOrderLastFive | conect4.py:105 | columns 2..6 are ordered 4, 3, 5, 2, 6 |
| ConnectFourHeuristics.CentreOrderAllColumns | conect4.py:105 | all seven columns are ordered 4, 3, 5, 2, 6, 1, 0 |
| ConnectFourHeuristics.MiddleDistance | conect4.py:105 | the corrected key: the absolute distance to column 3 |
| ConnectFourHeuristics.OrderByMiddle | conect4.py:101-105 | the corrected ordering is a permutation, ascending by distance to column 3, stable on ties |
| ConnectFourHeuristics.CentreOffByOne | conect4.py:105 | as written, [3, 4] is ordered [4, 3]; measured from column 3 it stays [3, 4] |
| ConnectFourHeuristics.MiddleFirst | conect4.py:105 | with the corrected key, the middle column 3 comes first whenever it is offered |
| ConnectFourHeuristics.Weights | conect4.py:142-145 | the table chosen by the player has exactly the columns 0..6 as keys |
| ConnectFourHeuristics.OrderByPreference | conect4.py:135-150 | a permutation of the columns, heaviest weight first, equal weights kept in input order |
| ConnectFourHeuristics.HeaviestColumn | conect4.py:143-145 | for both players column 3 alone carries the largest weight |
| ConnectFourHeuristics.PreferenceFirst | conect4.py:142-148 | column 3 comes first whenever it is offered |
| ConnectFourHeuristics.WindowInGrid | conect4.py:201-264 | every index a window of any of the eight loop nests reads lies in 0..41 |
| ConnectFourHeuristics.ThreeWindow | conect4.py:203-207 | the three-cell if/elif test adds exactly the window's contribution: +5 for all 1, -5 for all -1, else 0 |
| ConnectFourHeuristics.PairWindow | conect4.py:236-240 | the two-cell if/elif test adds exactly the window's contribution: +1, -1 or 0 |
| ConnectFourHeuristics.Score | conect4.py:194-266 | the score as a sum of window contributions over the eight loop nests; Evaluate computes it, ScoreNegate proves it antisymmetric and EmptyBoardScore proves it 0 on the empty board |
| ConnectFourHeuristics.AddThrees | conect4.py:201-231 | a three-cell loop nest adds exactly the sum of its windows' contributions |
| ConnectFourHeuristics.AddThreesRow | conect4.py:202-207 | a three-cell inner loop adds exactly the contributions of the windows of its row |
| ConnectFourHeuristics.AddPairs | conect4.py:234-264 | a two-cell loop nest adds exactly the sum of its windows' contributions |
| ConnectFourHeuristics.AddPairsRow | conect4.py:235-240 | a two-cell inner loop adds exactly the contributions of the windows of its row |
| ConnectFourHeuristics.Evaluate | conect4.py:194-266 | `evalua_nuevo` returns Score: each window of equal cells counts +5/+1 for player 1 and -5/-1 for player -1 |
| ConnectFourHeuristics.Negate | conect4.py:194-266 | the board with every stone's owner swapped |
| ConnectFourHeuristics.WindowScoreNegate | conect4.py:204-207 | swapping owners negates every window's contribution |
| ConnectFourHeuristics.WindowValueNegate | conect4.py:204-207 | the same for any start, on or off the pattern |
| ConnectFourHeuristics.RowTotalNegate | conect4.py:202-207 | swapping owners negates the total of a row of windows |
| ConnectFourHeuristics.RowsTotalNegate | conect4.py:201-207 | swapping owners negates the total over rows |
| ConnectFourHeuristics.PatternNegate | conect4.py:201-207 | swapping owners negates what each loop nest adds |
| ConnectFourHeuristics.ScoreNegate | conect4.py:194-266 | the evaluation is antisymmetric: swapping every stone's owner negates the score |
| ConnectFourHeuristics.EmptyBoardScore | conect4.py:194-266 | the empty board scores 0 |

## Left out

- Console I/O and the interactive loops are not modelled: `pprint_uttt`, `jugar` and the main
  block of utt.py; `pprint_conecta4`, `jugador_manual_conecta4` and the main block of
  conect4.py. They only print and parse input.
- The search engine and match driver are imported from modules that are not part of this model:
  `ModeloJuegoZT2`, `juega_dos_jugadores`, `minimax`, `jugador_negamax`, `minimax_iterativo`.
  The two `jugadas_legales` take a player `j` that they never read. UltimateTicTacToe.LegalMoves
  and ConnectFour.LegalColumns drop that parameter. `ordena_centro` ignores its `jugador`;
  OrderByCentre keeps it as the unused `player`.
- `evalua_3con` and `ordena_extension` are left out. They compute floating-point scores, print
  an error message and use `float('inf')`.
- The first assignment of `preferencia_columnas` (conect4.py:140) is always overwritten. Only the
  two tables that are used are modelled.
- Python's `ValueError` in `victoria` for non-list arguments cannot arise on `seq<int>`. The
  length check is modelled.
- UltimateTicTacToe.Terminal, UltimateTicTacToe.Utility, UltimateTicTacToe.LegalMoves and
  UltimateTicTacToe.Transition require states of nine 9-cell boards. The `ValueError` that
  `victoria` would raise on a malformed sub-board inside them is therefore not modelled.
  `inicializa` and `transicion` only build such states.
- UltimateTicTacToe.Transition and ConnectFour.Transition return new values. Both source
  functions copy before writing, so there is no aliasing to model.
- The model does not distinguish lists from tuples. Nested tic-tac-toe's `transicion` turns
  only the played board back into a tuple (utt.py:64). It returns the other eight sub-boards as
  lists inside the outer tuple (utt.py:60, utt.py:73). Such a state cannot be hashed. It also
  compares unequal to a state of the same cells built only from tuples. A `seq` captures
  neither fact.
- ConnectFourHeuristics.OrderByPreference requires every move to be a column 0..6. For any other
  value the source's table lookup raises `KeyError`, which is not modelled.
- The generator returned by connect-four's `jugadas_legales` is modelled as the sequence it
  yields. Its laziness is not captured.
- `ganancia` and `evalua_nuevo` are split into an outer-loop method and an inner-loop method per
  nest, with the same iteration order and early returns. The connect-four scans return the inner
  loop's non-zero value from the outer loop rather than from inside the inner loop.
- Integers are unbounded. Python's integers are too, so no overflow is modelled.

## Findings

| source | as written | input that shows it | evidently intended | confidence | as-written member | corrected member |
|---|---|---|---|---|---|---|
| conect4.py:105 | `ordena_centro` sorts by `abs(x - 4)`, the distance to column 4 | moves [3, 4] are ordered [4, 3], putting column 4 before the middle column | distance to column 3, the middle of columns 0..6 (the column `ordenar_jugadas_avanzado` weights highest), giving [3, 4] | medium; not executed | ConnectFourHeuristics.CentreOffByOne | ConnectFourHeuristics.MiddleFirst |

# 8-queens search core, in Dafny

This project models the `QueensProblem` library: an 8×8 `GameBoard` with one
queen per column, the "attacking pairs with visibility" heuristic, and the two
solvers built on `BaseProblemSolver`. `BFSProblemSolver` uses a FIFO queue.
`AStarProblemSolver` uses a priority queue keyed by the heuristic alone, so it
is a greedy best-first search. Each solver repairs a start board by moving one
queen within its column at a time, until `IsSafe` holds or the frontier is
empty.

Modules, one file each:

- `Wrappers` (`wrappers.dfy`): `Option` and `Result`. A thrown exception is a
  `Failure` or a `Some(error)`, and a null reference is `None`.
- `BoardValues` (`board_values.dfy`): the board as a value (`Grid`, rows of
  `Cell`). It holds the one-queen-per-column invariant, the `State` string,
  parsing of the constructor's string, and moving a queen within a column.
- `Lines` (`lines.dfy`): the segments that `IsSafe` and the heuristic scan.
  These are the rows, the anti-diagonals, and the down-right segments as the
  second diagonal loop visits them. It also defines `Safe`, the heuristic
  value `AttackingPairs`, and proves that the heuristic is 0 exactly on safe
  boards.
- `Board` (`game_board.dfy`): `GameBoard` as a class over an `array2<Cell>`.
  The constructor fills the array in place, `ReplaceQueenInColumn` updates it
  in place, and every loop of the source is a loop with invariants. The
  ghost field `cells` is the matrix's value.
- `Heuristic` (`heuristic.dfy`): `GetAttackingPairsWithVisibilityCount` and
  its row and diagonal loops, proved equal to `AttackingPairs`.
- `SolverBase` (`solver_base.dfy`): what `GenerateNextState` offers, as
  values. That is the 56 candidates in column-then-row order, the
  drop-if-visited-or-queued `Enqueue`, the queue's membership scan, and the
  finite set of boards that bounds every search. `Closed` says that every
  board offered by an expanded board is visited or queued, and
  `ExhaustedSearchFindsNothing` turns that into "no safe board is
  reachable" once the queue is empty. `AllReachable` says that every board
  tested or queued ends a chain of moves from the start board.
- `BfsSolver` (`bfs_solver.dfy`) and `AStarSolver` (`astar_solver.dfy`): the
  two solvers as classes whose methods update the queue, the visited set and
  the three counters in place. Each solver's `Solve` promises `Outcome`:
  - a non-null result is safe, and every board tested before it was unsafe;
    it ends a chain of moves from the start board, and it is the start board
    or has a queen in every column;
  - null comes back only once the queue is empty. By then every board that
    expanding a tested board offered has been visited, so no chain of moves
    from the start board reaches a safe board;
  - a start board with an empty column stops the search with
    InvalidOperation, after seven states per column before it;
  - a safe start board comes back at once, with the counters at 0, 0 and 1;
  - `StatesCount` is 56 × `IterationsCount`;
  - `MaxStatesInMemoryCount` is at least |queue| + |visited|.

  Each solver keeps its queue free of repeats and of visited boards, and each
  `Solve` terminates because every pass visits a new board.

Where the code departs from the textbook 8-queens definitions, the model
follows the code:

- In the textbook, a board is safe when no two queens share a row or either
  diagonal. The second diagonal loop (QueensProblem/GameBoard.cs:157-171)
  stops the diagonals i − j = 1, 2, 3 early, so `Safe` is "every row and
  every scanned segment holds at most one queen".
  `Lines.DownScanNeverComparesTwoCells` shows a pair of queens that no
  scanned segment compares.
- A count of attacked lines would score at most one point per line. The code
  scores every queen after the first, q − 1 for q queens (`Lines.Excess`).
- A successor board is not built as a new immutable value. It is a `Clone`
  that is then changed in place.
- Board equality is not equality of state keys. `Equals` compares cells.
  The two agree on boards with one queen per column
  (`BoardValues.EqualIffSameState`).

## Model

| member | source | states |
|---|---|---|
| BoardValues.TopmostQueen | QueensProblem/GameBoard.cs:83-91 | A top-down scan of a column that stops at its first queen, or runs off the board, stops at QueenRow. |
| BoardValues.QueenRowIsTheQueen | QueensProblem/GameBoard.cs:83-91 | On a board with one queen per column, a cell of column j holds a queen exactly when its row is the one FindQueenRowIndex finds. |
| BoardValues.GridOfPlacesQueens | QueensProblem/GameBoard.cs:36-45 | Placing one queen per column at the given rows gives a board with exactly one queen per column, each in its given row. |
| BoardValues.Relocate | QueensProblem/GameBoard.cs:99-100 | After the move, (newI, j) holds a queen, and (oldI, j) is empty when oldI ≠ newI. |
| BoardValues.RelocateKeepsOthers | QueensProblem/GameBoard.cs:99-100 | The move changes no cell other than (oldI, j) and (newI, j). |
| BoardValues.RelocateKeepsOnePerColumn | QueensProblem/GameBoard.cs:93-101 | Moving a queen within its column keeps one queen per column, puts column j's queen on row newI, and leaves every other column's queen where it was. |
| BoardValues.StatePrefixLength | QueensProblem/GameBoard.cs:177-195 | On a board with one queen per column, State has one character per column. |
| BoardValues.StatePrefixDigit | QueensProblem/GameBoard.cs:182-191 | Character j of State is the 1-based row digit of the queen of column j. |
| BoardValues.RowsOfState | QueensProblem/GameBoard.cs:42-43 | Each character of a valid state string names a row in range, namely the character minus '1'. |
| BoardValues.ParseState | QueensProblem/GameBoard.cs:14-46 | A string is accepted iff it is non-null, has 8 characters, and each is in '1'..'8'. Otherwise the error is ArgumentNull for null, then ArgumentOutOfRange for a wrong length (before any character is examined), then Format. |
| BoardValues.ParsePlacesQueens | QueensProblem/GameBoard.cs:36-45 | For a valid string s, cell (i, j) of the parsed board holds a queen iff i = s[j] − '1', so every column has exactly one queen. |
| BoardValues.StateOfParse | QueensProblem/GameBoard.cs:14-18 | Round trip: the State of the board parsed from a valid string is that string. |
| BoardValues.ParseOfState | QueensProblem/GameBoard.cs:177-195 | Round trip: the State of a board with one queen per column is a valid string, and parsing it gives back that board. |
| BoardValues.EqualIffSameState | QueensProblem/GameBoard.cs:203-212 | For boards with one queen per column, cell-wise equality holds iff the State strings are equal. |
| Lines.TraceSteps | QueensProblem/GameBoard.cs:149 | The n-th cell a scan loop visits is n steps from its start, and satisfies the loop condition. |
| Lines.TraceLength | QueensProblem/GameBoard.cs:165 | A scan loop visits cells until the first of its two bounds is passed, and the count of cells visited follows from those bounds. |
| Lines.RowCells | QueensProblem/GameBoard.cs:121-127 | The row loop visits row k left to right, all on the board. |
| Lines.AntiDiagonalCells | QueensProblem/GameBoard.cs:141-152 | Anti-diagonal loop k stays on the board, on the cells with i + j = k. |
| Lines.DownDiagonalCells | QueensProblem/GameBoard.cs:157-168 | Down-right loop k stays on the board, on the cells with i − j = k − 7. |
| Lines.LineLengths | QueensProblem/GameBoard.cs:141-171 | Rows and anti-diagonals are scanned whole. The down-right loop covers each diagonal whole except i − j = 1, 2, 3 (k = 8, 9, 10), where it visits only d + 1 cells. The last k of each diagonal loop visits nothing. |
| Lines.DownScanNeverComparesTwoCells | QueensProblem/GameBoard.cs:157-171 | Queens at (1, 0) and (3, 2) share a diagonal, but no scanned down-right segment holds both. |
| Lines.ScanQueensCountsTrace | QueensProblem/GameBoard.cs:148-152 | The sum a scan loop adds up is the number of queens on the cells it visits. |
| Lines.LineQueensCountsLine | QueensProblem/GameBoard.cs:141-171 | The sum computed for line k is the number of queens on line k's cells. |
| Lines.SumExcessZero | QueensProblem/Solvers/HeuristicFunctions.cs:17-31 | A family's visibility count is 0 exactly when no line of the family holds two queens. |
| Lines.AttackingPairsZeroIffSafe | QueensProblem/Solvers/HeuristicFunctions.cs:41-67 | The heuristic is 0 exactly on the boards IsSafe accepts, because both walk the same segments. |
| Board.GameBoard.Blank | QueensProblem/GameBoard.cs:12 | A new board's matrix is fresh and all Empty. |
| Board.GameBoard.FromMatrix | QueensProblem/GameBoard.cs:20-23 | The private constructor adopts the given matrix, so the board's value is that matrix's contents. |
| Board.GameBoard.FromState | QueensProblem/GameBoard.cs:14-46 | The string constructor fails exactly as ParseState does. Otherwise it fills a fresh matrix whose value is the parsed board. |
| Board.GameBoard.Get | QueensProblem/GameBoard.cs:48-56 | The indexer returns cell (i, j) iff both indices are in range. Otherwise it fails with ArgumentOutOfRange, on the row first. |
| Board.GameBoard.Clone | QueensProblem/GameBoard.cs:76-81 | The clone has the same value and a fresh matrix, so changing it leaves the original alone. |
| Board.GameBoard.FindQueenRowIndex | QueensProblem/GameBoard.cs:83-91 | Returns the smallest row holding a queen in column j. An out-of-range j gives ArgumentOutOfRange; an empty column gives InvalidOperation. |
| Board.GameBoard.ReplaceQueenInColumn | QueensProblem/GameBoard.cs:93-101 | The checks run in order: newI, oldI, j, then a queen on (oldI, j). A failed check changes nothing; otherwise the new value is Relocate of the old. |
| Board.GameBoard.AreRowsSafe | QueensProblem/GameBoard.cs:117-133 | True iff every row sums to at most one queen. |
| Board.GameBoard.AreDiagonalsSafe | QueensProblem/GameBoard.cs:135-175 | True iff every anti-diagonal and every scanned down-right segment holds at most one queen. |
| Board.GameBoard.AreAntiDiagonalsSafe | QueensProblem/GameBoard.cs:141-155 | True iff each of the 16 anti-diagonal sums is at most one. |
| Board.GameBoard.AntiDiagonalSum | QueensProblem/GameBoard.cs:143-152 | The loop's sum is the number of queens on anti-diagonal k. |
| Board.GameBoard.AreDownDiagonalsSafe | QueensProblem/GameBoard.cs:157-171 | True iff each of the 16 down-right segment sums is at most one. |
| Board.GameBoard.DownDiagonalSum | QueensProblem/GameBoard.cs:159-168 | The loop's sum is the number of queens on down-right segment k. |
| Board.GameBoard.IsSafe | QueensProblem/GameBoard.cs:115 | IsSafe equals Safe of the board's value. |
| Board.GameBoard.State | QueensProblem/GameBoard.cs:177-195 | The string built is StateOf the board's value, whose properties are the lemmas above. |
| Board.GameBoard.Equals | QueensProblem/GameBoard.cs:203-212 | True iff the other board is non-null and has the same cells. |
| Board.GameBoard.Value | QueensProblem/Solvers/BFSProblemSolver.cs:22 | The value `_visited.Add` records for a board (here and at AStarProblemSolver.cs:26) is the board's cells, row by row, which is what Equals compares. |
| Heuristic.GetAttackingPairsWithVisibilityCount | QueensProblem/Solvers/HeuristicFunctions.cs:7-13 | A null board gives ArgumentNull. Otherwise the result is AttackingPairs of the board, the sum over scanned lines of (queens − 1). `Lines.AttackingPairsZeroIffSafe` shows it is 0 exactly on safe boards. |
| Heuristic.GetAttackingPairsWithVisibilityInRowsCount | QueensProblem/Solvers/HeuristicFunctions.cs:15-33 | The row count is the sum over rows of (queens on the row − 1), with empty rows counting 0. |
| Heuristic.GetAttackingPairsWithVisibilityInDiagonalsCount | QueensProblem/Solvers/HeuristicFunctions.cs:35-79 | The diagonal count is the anti-diagonals' count plus the down-right segments' count. |
| Heuristic.AntiDiagonalPairs | QueensProblem/Solvers/HeuristicFunctions.cs:41-58 | The first diagonal loop adds q − 1 for each anti-diagonal holding q ≥ 1 queens. |
| Heuristic.AntiDiagonalScan | QueensProblem/Solvers/HeuristicFunctions.cs:43-57 | One anti-diagonal contributes every queen after the first it meets. |
| Heuristic.DownDiagonalPairs | QueensProblem/Solvers/HeuristicFunctions.cs:60-77 | The second diagonal loop adds q − 1 for each scanned down-right segment holding q ≥ 1 queens. |
| Heuristic.DownDiagonalScan | QueensProblem/Solvers/HeuristicFunctions.cs:62-76 | One down-right segment contributes every queen after the first it meets. |
| SolverBase.ExpandedColumns | QueensProblem/Solvers/BaseProblemSolver.cs:29-31 | GenerateNextState gets through exactly the columns before the first empty one, and through all 8 iff every column holds a queen. |
| SolverBase.ExpandedColumnsStep | QueensProblem/Solvers/BaseProblemSolver.cs:29-31 | Column j is passed iff it holds a queen; otherwise the expansion stops there. |
| SolverBase.TargetCount | QueensProblem/Solvers/BaseProblemSolver.cs:32-34 | Target row k ≠ q is the TargetCount-th move of a queen on row q, one of 7. |
| SolverBase.Candidates | QueensProblem/Solvers/BaseProblemSolver.cs:29-42 | Expanding c columns offers exactly 7·c boards, so a full expansion offers 56. |
| SolverBase.ColumnMoveTo | QueensProblem/Solvers/BaseProblemSolver.cs:32-38 | The move to row k is the clone with column j's queen moved from FindQueenRowIndex(j) to k. |
| SolverBase.CandidateOfMove | QueensProblem/Solvers/BaseProblemSolver.cs:29-40 | Move m of column j is candidate 7·j + m. |
| SolverBase.CandidateAt | QueensProblem/Solvers/BaseProblemSolver.cs:29-40 | Candidate t is move t mod 7 of column t div 7. |
| SolverBase.CandidateIsMove | QueensProblem/Solvers/BaseProblemSolver.cs:31-38 | Each candidate is the parent with column t div 7's queen moved from its row to a different row. Every other cell is unchanged. |
| SolverBase.CandidateMoves | QueensProblem/Solvers/BaseProblemSolver.cs:29-39 | Candidate 7·j + m moves the queen of column j to its m-th other row and changes no other column. |
| SolverBase.CandidateOrder | QueensProblem/Solvers/BaseProblemSolver.cs:29-39 | On a board with one queen per column, of any two candidates, the earlier one moves the queen of an earlier column, or of the same column to a lower row. Each candidate changes exactly one column. |
| SolverBase.MoveKeepsFilled | QueensProblem/Solvers/BaseProblemSolver.cs:37-38 | A move keeps a queen in every column. |
| SolverBase.CandidatesFilled | QueensProblem/Solvers/BaseProblemSolver.cs:29-42 | Every candidate of a board with a queen in every column has a queen in every column. |
| SolverBase.CandidatesDiffer | QueensProblem/Solvers/BaseProblemSolver.cs:29-39 | On a board with one queen per column, any two of the 56 candidates differ. |
| SolverBase.CandidatesDistinct | QueensProblem/Solvers/BaseProblemSolver.cs:29-39 | The 56 candidates are pairwise distinct. |
| SolverBase.EnqueueKeepsClean | QueensProblem/Solvers/BFSProblemSolver.cs:47-51 | CheckAndAddState keeps the queue free of repeats and of visited boards. A board ends up queued iff it is not visited. |
| SolverBase.EnqueueAllKeepsClean | QueensProblem/Solvers/BaseProblemSolver.cs:27-43 | Offering boards only appends offered boards, keeps the queue clean, and queues every offered board that is not visited. |
| SolverBase.ExpansionKeepsFilled | QueensProblem/Solvers/BaseProblemSolver.cs:27-43 | Expanding a board with a queen in every column queues only such boards, so no later FindQueenRowIndex fails. |
| SolverBase.ContainsBoard | QueensProblem/Solvers/BFSProblemSolver.cs:49 | The queue's Contains scan, using Equals, is true iff a queued board has the same value. |
| SolverBase.LeastIndex | QueensProblem/Solvers/AStarProblemSolver.cs:25 | Every non-empty priority queue has an entry of least priority. |
| SolverBase.ClosedAfterDequeueHead | QueensProblem/Solvers/BFSProblemSolver.cs:21-22 | Moving the head of the queue into the visited set loses no offered board. |
| SolverBase.ClosedAfterExpand | QueensProblem/Solvers/BaseProblemSolver.cs:27-43 | After GenerateNextState, every board the expanded board offered is visited or queued, and so is every board offered earlier. |
| SolverBase.ClosedHoldsPaths | QueensProblem/Solvers/BaseProblemSolver.cs:27-43 | A set of boards closed under expansion holds the end of every chain of moves that starts inside it. |
| SolverBase.ExhaustedSearchFindsNothing | QueensProblem/Solvers/BFSProblemSolver.cs:19-30 | The search ran dry with every tested board unsafe and every offered board visited. Then no chain of moves from the start board ends in a safe board. |
| SolverBase.ReachableStart | QueensProblem/Solvers/BFSProblemSolver.cs:16-17 | The start board, the only board queued at first, is reached by the chain of no moves. |
| SolverBase.ReachableStep | QueensProblem/Solvers/BaseProblemSolver.cs:27-43 | Every board that expanding a reachable board offers is reachable, by one more move. |
| SolverBase.DequeueKeepsReachable | QueensProblem/Solvers/AStarProblemSolver.cs:25-26 | Moving any queued board to the tested boards keeps every tested or queued board reachable from the start. |
| SolverBase.ExpandKeepsReachable | QueensProblem/Solvers/BaseProblemSolver.cs:27-43 | Expanding a tested board queues only boards reachable from the start. |
| SolverBase.GridsAreFinite | QueensProblem/Solvers/BFSProblemSolver.cs:19 | The boards form a finite set, which bounds the number of passes of Solve's loop. |
| BfsSolver.BFSProblemSolver.constructor | QueensProblem/Solvers/BFSProblemSolver.cs:11-12 | A new solver holds its board, with an empty queue, an empty visited set and zero counters. |
| BfsSolver.BFSProblemSolver.Create | QueensProblem/Solvers/BaseProblemSolver.cs:9-12 | A null board is rejected with ArgumentNull("gameBoard"). |
| BfsSolver.BFSProblemSolver.ReinitializeFields | QueensProblem/Solvers/BFSProblemSolver.cs:40-45 | A new queue and visited set, and all three counters back to 0. |
| BfsSolver.BFSProblemSolver.UpdateMaxStatesInMemoryCount | QueensProblem/Solvers/BFSProblemSolver.cs:33-38 | The high-water mark never decreases, ends at least \|queue\| + \|visited\|, and changes only to that value. |
| BfsSolver.BFSProblemSolver.CheckAndAddState | QueensProblem/Solvers/BFSProblemSolver.cs:47-51 | The board is appended iff no equal board is visited or queued, and the queue invariant is kept. |
| BfsSolver.BFSProblemSolver.GenerateNextState | QueensProblem/Solvers/BaseProblemSolver.cs:27-43 | Offers Candidates of the columns it gets through, in order, and adds 7 to StatesCount per column. It fails with InvalidOperation iff some column is empty, and leaves the expanded board unchanged. |
| BfsSolver.BFSProblemSolver.ExpandColumn | QueensProblem/Solvers/BaseProblemSolver.cs:29-40 | One column: its 7 moves are offered and counted, or InvalidOperation if the column is empty. |
| BfsSolver.BFSProblemSolver.MoveQueenOfColumn | QueensProblem/Solvers/BaseProblemSolver.cs:32-40 | The inner loop offers column j's 7 moves, row by row, and counts 7 states. |
| BfsSolver.BFSProblemSolver.OfferMove | QueensProblem/Solvers/BaseProblemSolver.cs:34-39 | One more move of the column is counted and offered. |
| BfsSolver.BFSProblemSolver.MovedClone | QueensProblem/Solvers/BaseProblemSolver.cs:37-38 | A fresh board, equal to the parent with one queen moved. |
| BfsSolver.BFSProblemSolver.TakeNext | QueensProblem/Solvers/BFSProblemSolver.cs:21-23 | The oldest board leaves the queue and joins visited, and the high-water mark is updated. Everything ever enqueued stays in order. |
| BfsSolver.BFSProblemSolver.Visit | QueensProblem/Solvers/BFSProblemSolver.cs:21-25 | The dequeued board is new to visited. If it is safe, it is Solve's outcome; otherwise the search goes on. |
| BfsSolver.BFSProblemSolver.Expand | QueensProblem/Solvers/BFSProblemSolver.cs:26-27 | An unsafe board is counted as an iteration and expanded. The new queue is the old one followed by the candidates not already visited or queued, in order. Every board offered so far is then visited or queued. |
| BfsSolver.BFSProblemSolver.Step | QueensProblem/Solvers/BFSProblemSolver.cs:19-28 | One pass moves the head of the queue into visited and keeps first-in-first-out order. When the search goes on, the queue is its old tail followed by the head's 56 candidates not already visited or queued. Otherwise the search ends with Solve's outcome. |
| BfsSolver.BFSProblemSolver.Start | QueensProblem/Solvers/BFSProblemSolver.cs:16-17 | After the reset, the queue holds only the start board. |
| BfsSolver.BFSProblemSolver.Exhausted | QueensProblem/Solvers/BFSProblemSolver.cs:29-30 | An empty queue gives null after a final high-water-mark update. |
| BfsSolver.BFSProblemSolver.Solve | QueensProblem/Solvers/BFSProblemSolver.cs:14-31 | Solve terminates with the outcome described above. The start board is tested first, and every board tested before the last was unsafe. A returned board is safe and is the last one tested. It ends a chain of moves from the start board, and it is the start board or has a queen in every column. Null comes back only on an empty queue, when no chain of moves from the start reaches a safe board. A start board with an empty column gives InvalidOperation. A safe start board comes back with the counters at 0, 0 and 1. StatesCount is 56 × IterationsCount, and MaxStatesInMemoryCount ≥ \|queue\| + \|visited\|. |
| AStarSolver.DequeueKeepsClean | QueensProblem/Solvers/AStarProblemSolver.cs:25-26 | Dequeuing any entry leaves a queue free of repeats, holding exactly the other boards, none of them the dequeued one. |
| AStarSolver.DequeueKeepsKeyed | QueensProblem/Solvers/AStarProblemSolver.cs:25 | After a dequeue, every remaining entry is still keyed by its board's heuristic. |
| AStarSolver.LeastKeyLeastHeuristic | QueensProblem/Solvers/AStarProblemSolver.cs:21-25 | An entry of least priority holds a board of least heuristic among those queued. There is no path-cost term. |
| AStarSolver.ClosedAfterDequeue | QueensProblem/Solvers/AStarProblemSolver.cs:25-26 | Moving any entry of the priority queue into the visited set loses no offered board. |
| AStarSolver.LeastAttackedIsSafe | QueensProblem/Solvers/AStarProblemSolver.cs:25-29 | With the attacking-pairs heuristic, the board dequeued is safe whenever some queued board is safe. |
| AStarSolver.AStarProblemSolver.constructor | QueensProblem/Solvers/AStarProblemSolver.cs:13-16 | A new solver holds its board and heuristic, with an empty priority queue, an empty visited set and zero counters. |
| AStarSolver.AStarProblemSolver.Create | QueensProblem/Solvers/AStarProblemSolver.cs:13-16 | A null board is rejected first, then a null heuristic, each with ArgumentNull. |
| AStarSolver.AStarProblemSolver.ReinitializeFields | QueensProblem/Solvers/AStarProblemSolver.cs:37-42 | A new priority queue and visited set, and all three counters back to 0. |
| AStarSolver.AStarProblemSolver.UpdateMaxStatesInMemoryCount | QueensProblem/Solvers/AStarProblemSolver.cs:44-49 | The high-water mark never decreases, ends at least \|queue\| + \|visited\|, and changes only to that value. |
| AStarSolver.AStarProblemSolver.CheckAndAddState | QueensProblem/Solvers/AStarProblemSolver.cs:51-55 | The board is enqueued, keyed by its heuristic, iff it is not visited and no queued board equals it. |
| AStarSolver.AStarProblemSolver.GenerateNextState | QueensProblem/Solvers/BaseProblemSolver.cs:27-43 | The same expansion as BFS's, into the priority queue. |
| AStarSolver.AStarProblemSolver.Dequeue | QueensProblem/Solvers/AStarProblemSolver.cs:25 | Removes one entry of least priority, any of them. Its board has the least heuristic of those queued, and the other entries keep their keys. |
| AStarSolver.AStarProblemSolver.TakeNext | QueensProblem/Solvers/AStarProblemSolver.cs:25-27 | The dequeued board joins visited, and the high-water mark is updated. |
| AStarSolver.AStarProblemSolver.Visit | QueensProblem/Solvers/AStarProblemSolver.cs:25-29 | The board tested has the least heuristic of those queued and is new to visited. If it is safe, it is Solve's outcome. |
| AStarSolver.AStarProblemSolver.Expand | QueensProblem/Solvers/AStarProblemSolver.cs:30-31 | An unsafe board is counted as an iteration and expanded. Its candidates not already visited or queued are enqueued in order, each keyed by its heuristic. Every board offered so far is then visited or queued. |
| AStarSolver.AStarProblemSolver.Step | QueensProblem/Solvers/AStarProblemSolver.cs:23-32 | One pass moves into visited a queued board of least heuristic that is new to visited. When the search goes on, the queue is the other entries followed by that board's 56 candidates not already visited or queued. Otherwise the search ends with Solve's outcome. |
| AStarSolver.AStarProblemSolver.Start | QueensProblem/Solvers/AStarProblemSolver.cs:20-21 | After the reset, the queue holds only the start board, keyed by its heuristic. |
| AStarSolver.AStarProblemSolver.Exhausted | QueensProblem/Solvers/AStarProblemSolver.cs:33-34 | An empty queue gives null after a final high-water-mark update. |
| AStarSolver.AStarProblemSolver.Solve | QueensProblem/Solvers/AStarProblemSolver.cs:18-35 | Solve terminates with the same outcome as BFS's Solve. A returned board is safe, was tested last, ends a chain of moves from the start board, and is the start board or has a queen in every column. Null means no chain of moves from the start reaches a safe board. |

## Left out

- Demo/Program.cs: console input, the menu, timing and printing are I/O.
- QueensProblem/Interfaces: declarations only. The models expose the members they declare.
- BoardValues.ParseState: lengths and indexes count Unicode scalar values, while .NET's `string.Length` counts UTF-16 code units. A string with characters outside the Basic Multilingual Plane can get a different error. For example, "123456" plus one such character gets ArgumentOutOfRange here, but the source throws FormatException. Strings without such characters get the same result, and the model and the source accept exactly the same strings.
- Board.GameBoard.FromState: it fails exactly as BoardValues.ParseState does, so it inherits the same difference on characters outside the Basic Multilingual Plane.
- `GameBoard.ToString` is presentation only, and its line break depends on the platform.
- `GameBoard.GetHashCode` is a library hash. HashSet is modelled as a set of board values, which is what its Equals/GetHashCode pair compares.
- .NET `Queue`, `PriorityQueue` and `HashSet` internals. A `Queue` is a `seq`. A `PriorityQueue` is two sequences, elements and priorities, index by index, with a new entry appended at the end. Dequeue takes any entry of least priority, because tie order is unspecified.
- Exceptions are `Failure` or `Some(error)` values, and a null result of `Solve` is `Success(null)`.
- Inheritance: `BaseProblemSolver`'s constructor, counters and `GenerateNextState` are written out in each solver class. Their value-level description lives once, in `SolverBase`.
- The heuristic handed to `AStarProblemSolver` is a pure function of the board's value. A .NET `Func` could read other state or throw.
- Counters are unbounded integers. The source's `int` fields cannot overflow in one search, because there are at most 8^8 boards to expand.
- BfsSolver.BFSProblemSolver.Solve: it is not stated that breadth-first search returns a safe board the fewest moves from the start. The code promises only that a returned board is safe.
- AStarSolver.AStarProblemSolver.Solve: it is not proved that a safe board is always reachable, so it is not proved that Solve never returns null for a start board with one queen per column. Solve's contract does prove that null means no safe board is reachable from the start.
- Loops whose bodies are long are split into helper methods, one per loop body (ExpandColumn, OfferMove, Step and its parts). The ghost fields `frontier` and `order` record the queue's values and the order of visits, and `GameBoard.cells` records a matrix's contents.

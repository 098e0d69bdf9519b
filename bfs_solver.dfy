/**
 * BFSProblemSolver (QueensProblem/Solvers/BFSProblemSolver.cs): breadth-first
 * search over boards. The frontier is a FIFO queue of board objects, the
 * visited set holds board values (a HashSet under the boards' value
 * equality), and the goal test runs when a board is dequeued.
 *
 * The ghost fields record the search: `frontier` is the queue's values and
 * `order` the values dequeued so far, so `order + frontier` is everything
 * ever enqueued, in the order it was enqueued.
 */
module BfsSolver {
  import opened Wrappers
  import opened BoardValues
  import opened Lines
  import opened Board
  import opened SolverBase

  class BFSProblemSolver {
    /** The start board handed to the constructor. */
    const gameBoard: GameBoard
    var queue: seq<GameBoard>
    var visited: set<Grid>
    var IterationsCount: int
    var StatesCount: int
    var MaxStatesInMemoryCount: int
    ghost var frontier: seq<Grid>
    ghost var order: seq<Grid>

    /**
     * The queue holds `frontier`; no value is queued twice or queued after
     * being visited; and visited is what was dequeued, each value once.
     */
    ghost predicate Valid()
      reads this, gameBoard, gameBoard.matrix
      reads set i | 0 <= i < |queue| :: queue[i], set i | 0 <= i < |queue| :: queue[i].matrix
    {
      && gameBoard.Valid()
      && Mirrors(queue, frontier)
      && Clean(frontier, visited)
      && visited == Elems(order)
      && Distinct(order)
    }

    /** The fields as the constructor and ReinitializeFields leave them. */
    ghost predicate Initial()
      reads this
    {
      && queue == [] && visited == {} && frontier == [] && order == []
      && IterationsCount == 0 && StatesCount == 0 && MaxStatesInMemoryCount == 0
    }

    /** The constructor, past BaseProblemSolver's null check. */
    constructor (b: GameBoard)
      requires b.Valid()
      ensures gameBoard == b && Valid() && Initial()
    {
      gameBoard := b;
      queue := [];
      visited := {};
      IterationsCount, StatesCount, MaxStatesInMemoryCount := 0, 0, 0;
      frontier, order := [], [];
    }

    /** `new BFSProblemSolver(gameBoard)`: a null board is rejected with ArgumentNullException. */
    static method Create(b: GameBoard?) returns (r: Result<BFSProblemSolver, Error>)
      requires b != null ==> b.Valid()
      ensures b == null ==> r == Failure(ArgumentNull("gameBoard"))
      ensures b != null ==> r.Success? && fresh(r.value) && r.value.gameBoard == b && r.value.Valid() && r.value.Initial()
    {
      if b == null {
        return Failure(ArgumentNull("gameBoard"));
      }
      var s := new BFSProblemSolver(b);
      return Success(s);
    }

    /** ReinitializeFields: a new queue and visited set, and the three counters back to zero. */
    method ReinitializeFields()
      requires gameBoard.Valid()
      modifies this
      ensures Valid() && Initial()
    {
      queue := [];
      visited := {};
      frontier, order := [], [];
      IterationsCount, StatesCount, MaxStatesInMemoryCount := 0, 0, 0;
    }

    /** UpdateMaxStatesInMemoryCount: the maximum of itself and |queue| + |visited|. */
    method UpdateMaxStatesInMemoryCount()
      modifies this`MaxStatesInMemoryCount
      ensures MaxStatesInMemoryCount >= old(MaxStatesInMemoryCount)
      ensures MaxStatesInMemoryCount >= |queue| + |visited|
      ensures MaxStatesInMemoryCount == old(MaxStatesInMemoryCount) || MaxStatesInMemoryCount == |queue| + |visited|
    {
      var statesInMemory := |queue| + |visited|;
      if statesInMemory > MaxStatesInMemoryCount {
        MaxStatesInMemoryCount := statesInMemory;
      }
    }

    /** CheckAndAddState: enqueue the board unless an equal one is visited or queued. */
    method CheckAndAddState(state: GameBoard)
      requires Valid() && state.Valid()
      modifies this`queue, this`frontier
      ensures Valid()
      ensures frontier == Enqueue(old(frontier), visited, state.Cells())
      ensures queue == if frontier == old(frontier) then old(queue) else old(queue) + [state]
    {
      EnqueueKeepsClean(frontier, visited, state.Cells());
      var value := state.Value();
      if value !in visited {
        var queued := ContainsBoard(queue, frontier, state);
        if !queued {
          queue := queue + [state];
          frontier := frontier + [state.Cells()];
        }
      }
    }

    /**
     * GenerateNextState: for each column, the topmost queen is moved on a
     * clone to each other row, and the clone is offered to the queue. It
     * stops with InvalidOperation at the first column without a queen.
     */
    method GenerateNextState(currentBoard: GameBoard) returns (err: Option<Error>)
      requires Valid() && currentBoard.Valid()
      modifies this`queue, this`frontier, this`StatesCount
      ensures Valid()
      ensures err == if Filled(currentBoard.Cells()) then None else Some(InvalidOperation)
      ensures frontier == EnqueueAll(old(frontier), visited,
                Candidates(currentBoard.Cells(), ExpandedColumns(currentBoard.Cells())))
      ensures StatesCount == old(StatesCount) + 7 * ExpandedColumns(currentBoard.Cells())
      ensures unchanged(currentBoard, currentBoard.matrix)
    {
      ghost var g := currentBoard.Cells();
      ghost var f0 := frontier;
      ghost var s0 := StatesCount;
      for j := 0 to Size
        invariant currentBoard.Cells() == g && ColumnsDone(g, f0, s0, j)
      {
        err := ExpandColumn(currentBoard, j, g, f0, s0);
        if err.Some? {
          return;
        }
      }
      return None;
    }

    /**
     * One pass of GenerateNextState's loop: column `j`'s topmost queen is
     * found and moved, or, when the column is empty, InvalidOperation ends
     * the expansion.
     */
    method ExpandColumn(currentBoard: GameBoard, j: int, ghost g: Grid, ghost f0: seq<Grid>, ghost s0: int)
      returns (err: Option<Error>)
      requires currentBoard.Valid() && currentBoard.Cells() == g && InRange(j) && ColumnsDone(g, f0, s0, j)
      modifies this`queue, this`frontier, this`StatesCount
      ensures err.None? ==> ColumnsDone(g, f0, s0, j + 1)
      ensures err.Some? ==> err == Some(InvalidOperation) && ExpandedColumns(g) == j && ColumnsDone(g, f0, s0, j)
    {
      var found := currentBoard.FindQueenRowIndex(j);
      ExpandedColumnsStep(g, j);
      if found.Failure? {
        return Some(found.error);
      }
      MoveQueenOfColumn(currentBoard, found.value, j);
      EnqueueAllAppend(f0, visited, Candidates(g, j), ColumnMoves(g, j));
      return None;
    }

    /**
     * GenerateNextState's loop invariant: the first `j` columns of `g` were
     * expanded, their candidates offered to the queue and counted.
     */
    ghost predicate ColumnsDone(g: Grid, f0: seq<Grid>, s0: int, j: int)
      reads this, gameBoard, gameBoard.matrix
      reads set i | 0 <= i < |queue| :: queue[i], set i | 0 <= i < |queue| :: queue[i].matrix
    {
      && Valid()
      && 0 <= j <= ExpandedColumns(g)
      && frontier == EnqueueAll(f0, visited, Candidates(g, j))
      && StatesCount == s0 + 7 * j
    }

    /**
     * The inner loop's invariant: the first `n` moves of column `j`'s queen
     * were offered to the queue and counted.
     */
    ghost predicate MovesDone(g: Grid, j: int, f0: seq<Grid>, s0: int, n: int)
      reads this, gameBoard, gameBoard.matrix
      reads set i | 0 <= i < |queue| :: queue[i], set i | 0 <= i < |queue| :: queue[i].matrix
      requires InRange(j) && QueenRow(g, j) < Size
    {
      && Valid()
      && 0 <= n <= MovesPerColumn
      && frontier == EnqueueAll(f0, visited, ColumnMoves(g, j)[..n])
      && StatesCount == s0 + n
    }

    /** The inner loop of GenerateNextState: the queen of column `j` moved to every other row in turn. */
    method MoveQueenOfColumn(currentBoard: GameBoard, oldQueenI: int, j: int)
      requires Valid() && currentBoard.Valid() && InRange(j) && oldQueenI == QueenRow(currentBoard.Cells(), j) < Size
      modifies this`queue, this`frontier, this`StatesCount
      ensures Valid()
      ensures frontier == EnqueueAll(old(frontier), visited, ColumnMoves(currentBoard.Cells(), j))
      ensures StatesCount == old(StatesCount) + MovesPerColumn
    {
      ghost var g := currentBoard.Cells();
      ghost var f0 := frontier;
      ghost var s0 := StatesCount;
      ghost var moves := ColumnMoves(g, j);
      for k := 0 to Size
        invariant currentBoard.Cells() == g && MovesDone(g, j, f0, s0, TargetCount(oldQueenI, k))
      {
        if k != oldQueenI {
          OfferMove(currentBoard, oldQueenI, k, j, f0, s0);
        }
      }
      assert moves[..MovesPerColumn] == moves;
    }

    /**
     * One pass of that loop: the move is counted, and a clone whose queen
     * in column `j` moved from `oldQueenI` to `k` is offered to the queue,
     * which so takes in one more of the column's moves.
     */
    method OfferMove(currentBoard: GameBoard, oldQueenI: int, k: int, j: int, ghost f0: seq<Grid>, ghost s0: int)
      requires currentBoard.Valid() && InRange(k) && InRange(j)
      requires oldQueenI == QueenRow(currentBoard.Cells(), j) < Size && k != oldQueenI
      requires MovesDone(currentBoard.Cells(), j, f0, s0, TargetCount(oldQueenI, k))
      modifies this`queue, this`frontier, this`StatesCount
      ensures MovesDone(currentBoard.Cells(), j, f0, s0, TargetCount(oldQueenI, k) + 1)
    {
      ghost var g := currentBoard.Cells();
      ColumnMoveTo(g, j, k);
      EnqueueAllPrefixStep(f0, visited, ColumnMoves(g, j), TargetCount(oldQueenI, k));
      StatesCount := StatesCount + 1;
      var state := MovedClone(currentBoard, oldQueenI, k, j);
      CheckAndAddState(state);
    }

    /** A clone of the board whose queen in column `j` moved from row `oldQueenI` to row `k`. */
    static method MovedClone(currentBoard: GameBoard, oldQueenI: int, k: int, j: int) returns (state: GameBoard)
      requires currentBoard.Valid() && InRange(oldQueenI) && InRange(k) && InRange(j)
      requires currentBoard.Cells()[oldQueenI][j] == Queen
      ensures fresh(state) && fresh(state.matrix) && state.Valid()
      ensures state.Cells() == Relocate(currentBoard.Cells(), oldQueenI, k, j)
    {
      state := currentBoard.Clone();
      var e := state.ReplaceQueenInColumn(oldQueenI, k, j);
    }

    /**
     * Between the goal test and GenerateNextState in Solve's loop:
     * `current`, the board just dequeued and recorded, was unsafe, as was
     * every board before it; the iteration is not yet counted. It is the
     * start board or has a queen in every column, as has every queued board.
     */
    ghost predicate Rejected(current: GameBoard)
      reads this, gameBoard, gameBoard.matrix, current, current.matrix
      reads set i | 0 <= i < |queue| :: queue[i], set i | 0 <= i < |queue| :: queue[i].matrix
    {
      && Valid() && current.Valid()
      && order != [] && current.Cells() == order[|order| - 1]
      && NoneSafe(order)
      && order[0] == gameBoard.Cells() && !Safe(gameBoard.Cells())
      && IterationsCount == |order| - 1 && StatesCount == 56 * IterationsCount
      && AllFilled(frontier)
      && (order == [gameBoard.Cells()] || Filled(current.Cells()))
      && Closed(order[..|order| - 1], visited, frontier)
      && AllReachable(gameBoard.Cells(), order + frontier)
    }

    /**
     * The tail of Solve's loop for an unsafe board: the iteration is
     * counted and GenerateNextState runs. A board with a queen in every
     * column offers all 56 moves and queues only such boards, so the loop's
     * invariant holds again; otherwise InvalidOperation comes back.
     */
    method Expand(current: GameBoard) returns (err: Option<Error>)
      requires Rejected(current)
      modifies this`queue, this`frontier, this`IterationsCount, this`StatesCount
      ensures err == if Filled(current.Cells()) then None else Some(InvalidOperation)
      ensures StatesCount == old(StatesCount) + 7 * ExpandedColumns(current.Cells())
      ensures frontier == EnqueueAll(old(frontier), visited, Offered(current.Cells()))
      ensures old(frontier) <= frontier
      ensures err.None? ==> Searching()
      ensures err.Some? ==> Outcome(Failure(err.value))
    {
      ClosedAfterExpand(order, visited, frontier);
      assert current.Cells() in order;
      ExpandKeepsReachable(gameBoard.Cells(), order, frontier, visited, current.Cells());
      EnqueueAllKeepsClean(frontier, visited, Offered(current.Cells()));
      IterationsCount := IterationsCount + 1;
      ghost var f1 := frontier;
      err := GenerateNextState(current);
      if err == None {
        ExpansionKeepsFilled(f1, visited, current.Cells());
      }
    }

    /**
     * The head of Solve's loop: the oldest board leaves the queue, its
     * value joins the visited set, and the memory high-water mark is
     * brought up to date.
     */
    method TakeNext() returns (current: GameBoard)
      requires Valid() && |queue| != 0
      modifies this`queue, this`frontier, this`visited, this`order, this`MaxStatesInMemoryCount
      ensures Valid() && current.Valid()
      ensures MaxStatesInMemoryCount == if |queue| + |visited| > old(MaxStatesInMemoryCount)
        then |queue| + |visited| else old(MaxStatesInMemoryCount)
      ensures current == old(queue[0]) && current.Cells() == old(frontier[0]) && old(frontier[0]) !in old(visited)
      ensures queue == old(queue[1..]) && frontier == old(frontier[1..])
      ensures visited == old(visited) + {current.Cells()} && order == old(order) + [current.Cells()]
      ensures order + frontier == old(order + frontier)
    {
      current := queue[0];
      ghost var x := frontier[0];
      assert (order + [x]) + frontier[1..] == order + frontier;
      DistinctAppend(order, x);
      queue := queue[1..];
      frontier := frontier[1..];
      var value := current.Value();
      visited := visited + {value};
      order := order + [x];
      UpdateMaxStatesInMemoryCount();
    }

    /**
     * Solve's loop invariant: every board dequeued so far but the start was
     * unsafe, each costing one iteration and 56 generated states; before
     * the first pass the queue holds just the start board, and after it
     * the start board was dequeued first, was unsafe, and every queued
     * board has a queen in every column. Every board tested or queued ends
     * a chain of moves from the start board.
     */
    ghost predicate Searching()
      reads this, gameBoard, gameBoard.matrix
      reads set i | 0 <= i < |queue| :: queue[i], set i | 0 <= i < |queue| :: queue[i].matrix
    {
      && Valid()
      && NoneSafe(order)
      && IterationsCount == |order|
      && StatesCount == 56 * IterationsCount
      && (order == [] ==> queue == [gameBoard] && frontier == [gameBoard.Cells()] && MaxStatesInMemoryCount == 0)
      && (order != [] ==> order[0] == gameBoard.Cells() && !Safe(gameBoard.Cells()) && AllFilled(frontier))
      && Closed(order, visited, frontier)
      && AllReachable(gameBoard.Cells(), order + frontier)
    }

    /**
     * What Solve promises. The start board was tested first and every
     * board tested before the last was unsafe. A board that comes back is
     * safe and was the last tested; it ends a chain of moves from the start
     * board, and is that board or has a queen in every column. Null comes
     * back on an empty queue, the last board tested being unsafe. Each
     * unsafe board costs one iteration and 56 generated states, except a
     * start board with an empty column, which stops the search with
     * InvalidOperation after generating seven states per column before that
     * column. A safe start board comes back at once.
     */
    ghost predicate Outcome(r: Result<GameBoard?, Error>)
      reads this, gameBoard, gameBoard.matrix
      reads set i | 0 <= i < |queue| :: queue[i], set i | 0 <= i < |queue| :: queue[i].matrix
      reads if r.Success? && r.value != null then {r.value, r.value.matrix} else {}
    {
      && Valid()
      && order != [] && order[0] == gameBoard.Cells()
      && (forall i :: 0 <= i < |order| - 1 ==> !Safe(order[i]))
      && (r.Success? && r.value != null ==>
            && r.value.Valid() && Safe(r.value.Cells()) && r.value.Cells() == order[|order| - 1]
            && IterationsCount == |order| - 1)
      && (r == Success(null) ==> queue == [] && !Safe(order[|order| - 1]) && IterationsCount == |order|)
      && (r.Success? && r.value != null ==> Closed(order[..|order| - 1], visited, frontier))
      && (r.Success? && r.value != null ==>
            && Reachable(gameBoard.Cells(), r.value.Cells())
            && (r.value.Cells() == gameBoard.Cells() || Filled(r.value.Cells())))
      && (r == Success(null) ==> Closed(order, visited, []) && NoSafeReachable(gameBoard.Cells()))
      && (r.Success? ==> StatesCount == 56 * IterationsCount)
      && (r.Failure? ==>
            && r.error == InvalidOperation && !Filled(gameBoard.Cells()) && order == [gameBoard.Cells()]
            && IterationsCount == 1 && StatesCount == 7 * ExpandedColumns(gameBoard.Cells()))
      && (Safe(gameBoard.Cells()) ==>
            r == Success(gameBoard) && IterationsCount == 0 && StatesCount == 0 && MaxStatesInMemoryCount == 1)
      && (r.Success? ==> MaxStatesInMemoryCount >= |queue| + |visited|)
    }

    /**
     * One pass of Solve's loop: dequeue, record, test, and expand an unsafe
     * board. A verdict comes back when the pass ends the search: the safe
     * board, or the InvalidOperation of a start board with an empty column.
     */
    method Step() returns (verdict: Option<Result<GameBoard?, Error>>)
      requires Searching() && |queue| != 0
      modifies this`queue, this`frontier, this`visited, this`order
      modifies this`IterationsCount, this`StatesCount, this`MaxStatesInMemoryCount
      ensures old(frontier[0]) !in old(visited) && visited == old(visited) + {old(frontier[0])}
      ensures order == old(order) + [old(frontier[0])] && old(order + frontier) <= order + frontier
      ensures verdict.None? ==> frontier == EnqueueAll(old(frontier[1..]), visited, Candidates(old(frontier[0]), Size))
      ensures verdict.None? ==> Searching()
      ensures verdict.Some? ==> Outcome(verdict.value)
    {
      ghost var x := frontier[0];
      var current, safe := Visit();
      if safe {
        return Some(Success(current));
      }
      var err := Expand(current);
      if err.Some? {
        return Some(Failure(err.value));
      }
      assert Filled(x) && Offered(x) == Candidates(x, Size);
      return None;
    }

    /**
     * The goal test at the head of Solve's loop: the next board is taken
     * and tested. A safe one ends the search; an unsafe one leaves what
     * Expand needs.
     */
    method Visit() returns (current: GameBoard, safe: bool)
      requires Searching() && |queue| != 0
      modifies this`queue, this`frontier, this`visited, this`order, this`MaxStatesInMemoryCount
      ensures current == old(queue[0]) && current.Valid() && safe == Safe(current.Cells())
      ensures current.Cells() == old(frontier[0]) && frontier == old(frontier[1..])
      ensures old(frontier[0]) !in old(visited) && visited == old(visited) + {old(frontier[0])}
      ensures order == old(order) + [old(frontier[0])] && order + frontier == old(order + frontier)
      ensures safe ==> Outcome(Success(current))
      ensures !safe ==> Rejected(current)
    {
      ghost var before := order;
      ghost var x := frontier[0];
      assert AllFilled(frontier[1..]) && (before != [] ==> Filled(x));
      ClosedAfterDequeueHead(before, visited, frontier);
      current := TakeNext();
      safe := current.IsSafe();
      Classify(current, safe, before);
    }

    /**
     * The verdict of Visit's goal test on the board just recorded, given
     * the invariant that held before it was dequeued.
     */
    ghost method Classify(current: GameBoard, safe: bool, before: seq<Grid>)
      requires Valid() && current.Valid() && safe == Safe(current.Cells()) && AllFilled(frontier)
      requires order == before + [current.Cells()] && NoneSafe(before) && Closed(before, visited, frontier)
      requires AllReachable(gameBoard.Cells(), order + frontier)
      requires IterationsCount == |before| && StatesCount == 56 * IterationsCount
      requires MaxStatesInMemoryCount >= |queue| + |visited|
      requires before == [] ==> current == gameBoard && MaxStatesInMemoryCount == 1
      requires before != [] ==> before[0] == gameBoard.Cells() && !Safe(gameBoard.Cells()) && Filled(current.Cells())
      ensures safe ==> Outcome(Success(current))
      ensures !safe ==> Rejected(current)
    {
      assert order[..|order| - 1] == before;
      if safe {
        assert current.Cells() in order + frontier;
        NoneSafeEach(before);
      } else {
        NoneSafeAppend(before, current.Cells());
      }
    }

    /**
     * Solve: breadth-first search from the start board. A board is tested
     * when it is dequeued; an unsafe one is expanded. Null (here
     * `Success(null)`) comes back once the queue is empty, and an
     * InvalidOperation from expanding a start board with an empty column
     * comes back as a Failure.
     */
    method Solve() returns (r: Result<GameBoard?, Error>)
      requires gameBoard.Valid()
      modifies this
      ensures Outcome(r)
    {
      GridsAreFinite();
      ghost var all: set<seq<seq<Cell>>> :| HoldsEveryGrid(all);
      Start();
      while |queue| != 0
        invariant Searching()
        decreases all - visited
      {
        var verdict := Step();
        if verdict.Some? {
          return verdict.value;
        }
      }
      r := Exhausted();
    }

    /** The head of Solve: the fields reset, then the start board queued. */
    method Start()
      requires gameBoard.Valid()
      modifies this
      ensures Searching() && queue == [gameBoard]
    {
      ReinitializeFields();
      queue := [gameBoard];
      frontier := [gameBoard.Cells()];
      assert frontier[1..] == [];
      ReachableStart(gameBoard.Cells());
      assert order + frontier == [] + [gameBoard.Cells()];
    }

    /** The tail of Solve, once the queue is empty: the memory high-water mark is brought up to date and null comes back. */
    method Exhausted() returns (r: Result<GameBoard?, Error>)
      requires Searching() && |queue| == 0
      modifies this`MaxStatesInMemoryCount
      ensures r == Success(null) && Outcome(r)
    {
      UpdateMaxStatesInMemoryCount();
      NoneSafeEach(order);
      assert frontier == [];
      ExhaustedSearchFindsNothing(order, visited);
      return Success(null);
    }
  }
}

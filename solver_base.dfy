/**
 * BaseProblemSolver (QueensProblem/Solvers/BaseProblemSolver.cs): what both
 * solvers share. GenerateNextState moves each column's topmost queen to every
 * other row of its column, on a clone, and offers the result to the frontier;
 * both frontiers drop a board that is already visited or already queued. This
 * module holds the value-level description of those steps, the queue's
 * membership scan, and the finite set of boards that bounds every search.
 */
module SolverBase {
  import opened BoardValues
  import opened Lines
  import opened Board

  /**
   * Each column's queen can go to any of the other rows. Products and
   * quotients below use the literals 7 (MovesPerColumn) and 56 (Size *
   * MovesPerColumn, the boards one expansion offers), which keeps the
   * arithmetic linear for the solver.
   */
  const MovesPerColumn := Size - 1

  /** Every column holds a queen, so FindQueenRowIndex never fails on it. */
  predicate Filled(g: Grid)
  {
    forall j :: 0 <= j < Size ==> QueenRow(g, j) < Size
  }

  /** The index of the first `false`, or the length when there is none. */
  function FirstFalse(bs: seq<bool>): (r: nat)
    ensures r <= |bs|
    ensures forall t :: 0 <= t < r ==> bs[t]
    ensures r < |bs| ==> !bs[r]
  {
    if bs == [] || !bs[0] then 0 else 1 + FirstFalse(bs[1..])
  }

  /**
   * How many columns GenerateNextState gets through: it stops, with
   * InvalidOperation from FindQueenRowIndex, at the first column holding no queen.
   */
  function ExpandedColumns(g: Grid): (n: nat)
    ensures n <= Size
    ensures forall j :: 0 <= j < n ==> QueenRow(g, j) < Size
    ensures n < Size ==> QueenRow(g, n) == Size
    ensures n == Size <==> Filled(g)
  {
    var filled := seq(Size, j requires 0 <= j < Size => QueenRow(g, j) < Size);
    assert forall j :: 0 <= j < Size ==> QueenRow(g, j) <= Size && filled[j] == (QueenRow(g, j) < Size);
    FirstFalse(filled)
  }

  /** GenerateNextState gets past column `j` exactly when that column holds a queen. */
  lemma ExpandedColumnsStep(g: Grid, j: int)
    requires InRange(j) && j <= ExpandedColumns(g)
    ensures QueenRow(g, j) < Size ==> j < ExpandedColumns(g)
    ensures QueenRow(g, j) >= Size ==> ExpandedColumns(g) == j && !Filled(g)
  {
  }

  /** The row of the `m`-th move of a queen standing on row `q`: rows ascending, `q` skipped. */
  function TargetRow(q: int, m: int): int
  {
    if m < q then m else m + 1
  }

  /** How many moves of a queen on row `q` come before row `k`: the rows below `k` other than `q`. */
  function TargetCount(q: int, k: int): (m: int)
    ensures InRange(q) && InRange(k) && k != q ==> 0 <= m < MovesPerColumn && TargetRow(q, m) == k
  {
    if q < k then k - 1 else k
  }

  /** The `m`-th successor of column `j`: its topmost queen moved to TargetRow. */
  function Move(g: Grid, j: int, m: int): Grid
    requires InRange(j) && 0 <= m < MovesPerColumn
  {
    var q := QueenRow(g, j);
    if q < Size then Relocate(g, q, TargetRow(q, m), j) else g
  }

  /** The boards GenerateNextState hands to CheckAndAddState for the first `cols` columns: column by column, row by row. */
  function Candidates(g: Grid, cols: nat): (cs: seq<Grid>)
    requires cols <= Size
    ensures |cs| == 7 * cols
  {
    if cols == 0 then [] else Candidates(g, cols - 1) + ColumnMoves(g, cols - 1)
  }

  /** The boards the inner loop of GenerateNextState produces for column `j`, row by row. */
  function ColumnMoves(g: Grid, j: int): (ms: seq<Grid>)
    requires InRange(j)
    ensures |ms| == MovesPerColumn
  {
    seq(MovesPerColumn, m requires 0 <= m < MovesPerColumn => Move(g, j, m))
  }

  /** Moving the queen of column `j` to row `k` is the move counted by TargetCount. */
  lemma ColumnMoveTo(g: Grid, j: int, k: int)
    requires InRange(j) && InRange(k) && QueenRow(g, j) < Size && k != QueenRow(g, j)
    ensures 0 <= TargetCount(QueenRow(g, j), k) < MovesPerColumn
    ensures ColumnMoves(g, j)[TargetCount(QueenRow(g, j), k)] == Relocate(g, QueenRow(g, j), k, j)
  {
  }

  /** Move `m` of column `j` is candidate `7 * j + m`: seven per column, columns in order. */
  lemma {:induction false} CandidateOfMove(g: Grid, cols: nat, j: int, m: int)
    requires cols <= Size && 0 <= j < cols && 0 <= m < MovesPerColumn
    ensures Candidates(g, cols)[7 * j + m] == Move(g, j, m)
  {
    if j < cols - 1 {
      CandidateOfMove(g, cols - 1, j, m);
    }
  }

  /** Candidate `t` is move `t % 7` of column `t / 7`. */
  lemma CandidateAt(g: Grid, cols: nat, t: int)
    requires cols <= Size && 0 <= t < 7 * cols
    ensures InRange(t / 7) && 0 <= t % 7 < MovesPerColumn
    ensures Candidates(g, cols)[t] == Move(g, t / 7, t % 7)
  {
    var j, m := t / 7, t % 7;
    assert t == 7 * j + m && 0 <= m < 7;
    CandidateOfMove(g, cols, j, m);
  }

  /**
   * The `t`-th candidate moves the queen of column `t / 7` from its row `q`
   * to a different row, and leaves every other cell as it was.
   */
  lemma CandidateIsMove(g: Grid, cols: nat, t: int)
    requires Filled(g) && cols <= Size && 0 <= t < 7 * cols
    ensures var j, q, k := t / 7, QueenRow(g, t / 7), TargetRow(QueenRow(g, t / 7), t % 7);
      && InRange(j) && InRange(q) && InRange(k) && k != q
      && g[q][j] == Queen && Candidates(g, cols)[t] == Relocate(g, q, k, j)
  {
    CandidateAt(g, cols, t);
    var j := t / 7;
    assert QueenRow(g, j) < Size;
  }

  /** `c` is `g` with the queen of column `j` moved to another row, every other column untouched. */
  predicate MovedIn(g: Grid, c: Grid, j: int)
    requires InRange(j)
  {
    && QueenRow(c, j) != QueenRow(g, j)
    && forall i, col :: 0 <= i < Size && 0 <= col < Size && col != j ==> c[i][col] == g[i][col]
  }

  /** Candidate `7 * j + m` moves the queen of column `j` to its `m`-th other row, and touches nothing else. */
  lemma CandidateMoves(g: Grid, j: int, m: int)
    requires OnePerColumn(g) && InRange(j) && 0 <= m < MovesPerColumn
    ensures MovedIn(g, Candidates(g, Size)[7 * j + m], j)
    ensures QueenRow(Candidates(g, Size)[7 * j + m], j) == TargetRow(QueenRow(g, j), m)
  {
    CandidateOfMove(g, Size, j, m);
    QueenRowIsTheQueen(g, j);
    var q := QueenRow(g, j);
    var k := TargetRow(q, m);
    RelocateKeepsOnePerColumn(g, q, k, j);
    RelocateKeepsOthers(g, q, k, j);
  }

  /**
   * GenerateNextState offers its boards column by column, and within a
   * column with the queen's new row ascending.
   */
  lemma CandidateOrder(g: Grid, t1: int, t2: int)
    requires OnePerColumn(g) && 0 <= t1 < t2 < 56
    ensures var c1, c2 := Candidates(g, Size)[t1], Candidates(g, Size)[t2];
      exists j1, j2 :: && InRange(j1) && InRange(j2) && MovedIn(g, c1, j1) && MovedIn(g, c2, j2)
                       && (j1 < j2 || (j1 == j2 && QueenRow(c1, j1) < QueenRow(c2, j2)))
  {
    var j1, m1 := t1 / 7, t1 % 7;
    var j2, m2 := t2 / 7, t2 % 7;
    assert t1 == 7 * j1 + m1 && t2 == 7 * j2 + m2;
    CandidateMoves(g, j1, m1);
    CandidateMoves(g, j2, m2);
    assert j1 < j2 || (j1 == j2 && m1 < m2);
  }

  /** Moving a queen within its column keeps a queen in every column. */
  lemma MoveKeepsFilled(g: Grid, j: int, m: int)
    requires Filled(g) && InRange(j) && 0 <= m < MovesPerColumn
    ensures Filled(Move(g, j, m))
  {
    var q := QueenRow(g, j);
    var k := TargetRow(q, m);
    assert q < Size;
    var r := Relocate(g, q, k, j);
    assert Move(g, j, m) == r;
    forall c | InRange(c)
      ensures QueenRow(r, c) < Size
    {
      if c == j {
        assert Column(r, j)[k] == Queen;
      } else {
        assert Column(r, c) == Column(g, c);
        assert QueenRow(g, c) < Size;
      }
    }
  }

  /** Every candidate of a board with a queen in every column has a queen in every column. */
  lemma CandidatesFilled(g: Grid, cols: nat)
    requires Filled(g) && cols <= Size
    ensures forall x :: x in Candidates(g, cols) ==> Filled(x)
  {
    forall t | 0 <= t < 7 * cols
      ensures Filled(Candidates(g, cols)[t])
    {
      CandidateAt(g, cols, t);
      MoveKeepsFilled(g, t / 7, t % 7);
    }
  }

  /** No board occurs twice: each one is absent from the boards after it. */
  predicate Distinct(s: seq<Grid>)
  {
    s == [] || (s[0] !in s[1..] && Distinct(s[1..]))
  }

  /** A board joins a sequence without repeats exactly when it is new to it. */
  lemma {:induction false} DistinctAppend(s: seq<Grid>, g: Grid)
    ensures Distinct(s + [g]) <==> Distinct(s) && g !in s
  {
    if s != [] {
      DistinctAppend(s[1..], g);
      assert (s + [g])[1..] == s[1..] + [g];
    }
  }

  /** Distinct, pair by pair. */
  lemma {:induction false} DistinctPairwise(s: seq<Grid>)
    ensures Distinct(s) <==> forall a, b :: 0 <= a < b < |s| ==> s[a] != s[b]
  {
    if s != [] {
      DistinctPairwise(s[1..]);
      assert forall a :: 1 <= a < |s| ==> s[1..][a - 1] == s[a];
    }
  }

  /** Two distinct candidates of a board with one queen per column differ. */
  lemma CandidatesDiffer(g: Grid, t1: int, t2: int)
    requires OnePerColumn(g) && 0 <= t1 < t2 < 56
    ensures Candidates(g, Size)[t1] != Candidates(g, Size)[t2]
  {
    var n := Size;
    CandidateAt(g, n, t1);
    CandidateAt(g, n, t2);
    var j1, j2 := t1 / 7, t2 / 7;
    var q1, q2 := QueenRow(g, j1), QueenRow(g, j2);
    QueenRowIsTheQueen(g, j1);
    QueenRowIsTheQueen(g, j2);
    var k1, k2 := TargetRow(q1, t1 % 7), TargetRow(q2, t2 % 7);
    var c1, c2 := Relocate(g, q1, k1, j1), Relocate(g, q2, k2, j2);
    assert Candidates(g, n)[t1] == c1 && Candidates(g, n)[t2] == c2;
    RelocateKeepsOnePerColumn(g, q1, k1, j1);
    RelocateKeepsOnePerColumn(g, q2, k2, j2);
    if j1 == j2 {
      assert QueenRow(c1, j1) != QueenRow(c2, j1);
    } else {
      assert QueenRow(c1, j1) == k1 != q1 == QueenRow(c2, j1);
    }
  }

  /** On a board with one queen per column, the 56 candidates are pairwise distinct. */
  lemma CandidatesDistinct(g: Grid)
    requires OnePerColumn(g)
    ensures Distinct(Candidates(g, Size))
  {
    forall t1, t2 | 0 <= t1 < t2 < 56
      ensures Candidates(g, Size)[t1] != Candidates(g, Size)[t2]
    {
      CandidatesDiffer(g, t1, t2);
    }
    DistinctPairwise(Candidates(g, Size));
  }

  /** A frontier that holds no board twice and no visited board. */
  predicate Clean(frontier: seq<Grid>, visited: set<Grid>)
  {
    Distinct(frontier) && forall i :: 0 <= i < |frontier| ==> frontier[i] !in visited
  }

  /** CheckAndAddState on values: a board already visited or already queued is dropped, any other joins the end. */
  function Enqueue(frontier: seq<Grid>, visited: set<Grid>, c: Grid): seq<Grid>
  {
    if c in visited || c in frontier then frontier else frontier + [c]
  }

  /** Enqueue keeps a frontier clean and never loses an unvisited board. */
  lemma EnqueueKeepsClean(frontier: seq<Grid>, visited: set<Grid>, c: Grid)
    requires Clean(frontier, visited)
    ensures Clean(Enqueue(frontier, visited, c), visited)
    ensures c !in visited <==> c in Enqueue(frontier, visited, c)
  {
    DistinctAppend(frontier, c);
  }

  /** The boards offered one after the other, in order. */
  function EnqueueAll(frontier: seq<Grid>, visited: set<Grid>, cs: seq<Grid>): seq<Grid>
  {
    if cs == [] then frontier else Enqueue(EnqueueAll(frontier, visited, cs[..|cs| - 1]), visited, cs[|cs| - 1])
  }

  /** Offering one more board is one more Enqueue. */
  lemma EnqueueAllStep(frontier: seq<Grid>, visited: set<Grid>, cs: seq<Grid>, c: Grid)
    ensures EnqueueAll(frontier, visited, cs + [c]) == Enqueue(EnqueueAll(frontier, visited, cs), visited, c)
  {
    assert (cs + [c])[..|cs|] == cs;
  }

  /** Offering one more board of a run, read by prefixes. */
  lemma EnqueueAllPrefixStep(frontier: seq<Grid>, visited: set<Grid>, cs: seq<Grid>, k: int)
    requires 0 <= k < |cs|
    ensures EnqueueAll(frontier, visited, cs[..k + 1]) == Enqueue(EnqueueAll(frontier, visited, cs[..k]), visited, cs[k])
  {
    assert cs[..k + 1][..k] == cs[..k];
  }

  /** Offering two runs of boards is offering the first run, then the second. */
  lemma {:induction false} EnqueueAllAppend(frontier: seq<Grid>, visited: set<Grid>, a: seq<Grid>, b: seq<Grid>)
    ensures EnqueueAll(frontier, visited, a + b) == EnqueueAll(EnqueueAll(frontier, visited, a), visited, b)
  {
    if b == [] {
      assert a + b == a;
    } else {
      var init := b[..|b| - 1];
      EnqueueAllAppend(frontier, visited, a, init);
      assert a + b == (a + init) + [b[|b| - 1]];
      EnqueueAllStep(frontier, visited, a + init, b[|b| - 1]);
    }
  }

  /**
   * Offering boards to a clean frontier keeps it clean and only appends;
   * what it appends is offered boards, and every offered board that is not
   * visited ends up queued.
   */
  lemma {:induction false} EnqueueAllKeepsClean(frontier: seq<Grid>, visited: set<Grid>, cs: seq<Grid>)
    requires Clean(frontier, visited)
    ensures var f := EnqueueAll(frontier, visited, cs);
      && Clean(f, visited)
      && |frontier| <= |f| && f[..|frontier|] == frontier
      && (forall x :: x in f[|frontier|..] ==> x in cs)
      && (forall x :: x in cs ==> (x in f <==> x !in visited))
  {
    if cs != [] {
      var init := cs[..|cs| - 1];
      var c := cs[|cs| - 1];
      EnqueueAllKeepsClean(frontier, visited, init);
      var f0 := EnqueueAll(frontier, visited, init);
      var f := Enqueue(f0, visited, c);
      EnqueueKeepsClean(f0, visited, c);
      assert cs == init + [c];
      assert f[..|f0|] == f0;
      assert f[..|frontier|] == f0[..|frontier|];
      forall x | x in f[|frontier|..]
        ensures x in cs
      {
        if x !in f0[|frontier|..] {
          assert x == c;
        }
      }
    }
  }

  /** No board of the sequence is safe: the goal test failed on each of them. */
  predicate NoneSafe(s: seq<Grid>)
  {
    s == [] || (NoneSafe(s[..|s| - 1]) && !Safe(s[|s| - 1]))
  }

  /** One more unsafe board. */
  lemma NoneSafeAppend(s: seq<Grid>, g: Grid)
    ensures NoneSafe(s + [g]) <==> NoneSafe(s) && !Safe(g)
  {
    assert (s + [g])[..|s|] == s;
  }

  /** NoneSafe, board by board. */
  lemma {:induction false} NoneSafeEach(s: seq<Grid>)
    ensures NoneSafe(s) <==> forall i :: 0 <= i < |s| ==> !Safe(s[i])
  {
    if s != [] {
      NoneSafeEach(s[..|s| - 1]);
      assert forall i :: 0 <= i < |s| - 1 ==> s[..|s| - 1][i] == s[i];
    }
  }

  /** Every board of the sequence has a queen in every column. */
  predicate AllFilled(s: seq<Grid>)
  {
    forall i :: 0 <= i < |s| ==> Filled(s[i])
  }

  /**
   * Expanding a board that has a queen in every column keeps the queue
   * free of boards with an empty column, so no later expansion fails.
   */
  lemma ExpansionKeepsFilled(frontier: seq<Grid>, visited: set<Grid>, g: Grid)
    requires Clean(frontier, visited) && AllFilled(frontier) && Filled(g)
    ensures AllFilled(EnqueueAll(frontier, visited, Candidates(g, Size)))
  {
    var cs := Candidates(g, Size);
    EnqueueAllKeepsClean(frontier, visited, cs);
    CandidatesFilled(g, Size);
    var f := EnqueueAll(frontier, visited, cs);
    forall i | 0 <= i < |f|
      ensures Filled(f[i])
    {
      if i < |frontier| {
        assert f[i] == f[..|frontier|][i];
      } else {
        assert f[i] in f[|frontier|..];
      }
    }
  }

  /** The boards GenerateNextState offers when it expands `g`. */
  function Offered(g: Grid): (cs: seq<Grid>)
    ensures Filled(g) ==> cs == Candidates(g, Size)
  {
    Candidates(g, ExpandedColumns(g))
  }

  /**
   * Every board offered by expanding one of `expanded` is visited or
   * queued: the search loses none of the moves it generates.
   */
  predicate Closed(expanded: seq<Grid>, visited: set<Grid>, frontier: seq<Grid>)
  {
    forall k, c :: 0 <= k < |expanded| && c in Offered(expanded[k]) ==> c in visited || c in frontier
  }

  /** Moving boards from the queue into the visited set, losing none, keeps the search closed. */
  lemma ClosedKeeps(expanded: seq<Grid>, v1: set<Grid>, f1: seq<Grid>, v2: set<Grid>, f2: seq<Grid>)
    requires Closed(expanded, v1, f1) && v1 <= v2
    requires forall x :: x in f1 ==> x in v2 || x in f2
    ensures Closed(expanded, v2, f2)
  {
  }

  /** Taking the head of the queue into the visited set keeps the search closed. */
  lemma ClosedAfterDequeueHead(expanded: seq<Grid>, visited: set<Grid>, frontier: seq<Grid>)
    requires Closed(expanded, visited, frontier) && frontier != []
    ensures Closed(expanded, visited + {frontier[0]}, frontier[1..])
  {
    forall x | x in frontier
      ensures x == frontier[0] || x in frontier[1..]
    {
      var i :| 0 <= i < |frontier| && frontier[i] == x;
      if i > 0 {
        assert frontier[1..][i - 1] == x;
      }
    }
    ClosedKeeps(expanded, visited, frontier, visited + {frontier[0]}, frontier[1..]);
  }

  /** Expanding the last board of `expanded` into a clean queue leaves every board it offers visited or queued. */
  lemma ClosedAfterExpand(expanded: seq<Grid>, visited: set<Grid>, frontier: seq<Grid>)
    requires expanded != [] && Closed(expanded[..|expanded| - 1], visited, frontier) && Clean(frontier, visited)
    ensures Closed(expanded, visited, EnqueueAll(frontier, visited, Offered(expanded[|expanded| - 1])))
  {
    var g := expanded[|expanded| - 1];
    var f := EnqueueAll(frontier, visited, Offered(g));
    EnqueueAllKeepsClean(frontier, visited, Offered(g));
    forall x | x in frontier
      ensures x in f
    {
      assert x in f[..|frontier|];
    }
    var init := expanded[..|expanded| - 1];
    ClosedKeeps(init, visited, frontier, visited, f);
    forall k, c | 0 <= k < |expanded| && c in Offered(expanded[k])
      ensures c in visited || c in f
    {
      if k < |init| {
        assert expanded[k] == init[k];
      }
    }
  }

  /** A chain of moves: each board is one GenerateNextState offers when expanding the one before it. */
  predicate IsPath(p: seq<Grid>)
  {
    forall i :: 0 <= i < |p| - 1 ==> p[i + 1] in Offered(p[i])
  }

  /** No chain of moves from `g0` ends in a safe board. */
  ghost predicate NoSafeReachable(g0: Grid)
  {
    forall p :: IsPath(p) && p != [] && p[0] == g0 ==> !Safe(p[|p| - 1])
  }

  /** A set closed under expansion holds every chain of moves that starts in it. */
  lemma {:induction false} ClosedHoldsPaths(visited: set<Grid>, p: seq<Grid>)
    requires forall g, c :: g in visited && c in Offered(g) ==> c in visited
    requires IsPath(p) && p != [] && p[0] in visited
    ensures p[|p| - 1] in visited
  {
    if |p| > 1 {
      var init := p[..|p| - 1];
      assert IsPath(init) by {
        forall i | 0 <= i < |init| - 1
          ensures init[i + 1] in Offered(init[i])
        {
          assert init[i] == p[i] && init[i + 1] == p[i + 1];
        }
      }
      ClosedHoldsPaths(visited, init);
      assert p[|p| - 1] in Offered(p[|p| - 2]);
    }
  }

  /**
   * A search whose queue ran empty after every tested board was expanded
   * and found unsafe: no safe board can be reached from the start.
   */
  lemma ExhaustedSearchFindsNothing(order: seq<Grid>, visited: set<Grid>)
    requires order != [] && visited == Elems(order) && NoneSafe(order) && Closed(order, visited, [])
    ensures NoSafeReachable(order[0])
  {
    NoneSafeEach(order);
    forall g, c | g in visited && c in Offered(g)
      ensures c in visited
    {
      var k :| 0 <= k < |order| && order[k] == g;
    }
    forall p | IsPath(p) && p != [] && p[0] == order[0]
      ensures !Safe(p[|p| - 1])
    {
      ClosedHoldsPaths(visited, p);
    }
  }

  /** `g` ends a chain of moves that starts at `g0`. */
  ghost predicate Reachable(g0: Grid, g: Grid)
  {
    exists p :: IsPath(p) && p != [] && p[0] == g0 && p[|p| - 1] == g
  }

  /** Every board of `s` ends a chain of moves that starts at `g0`. */
  ghost predicate AllReachable(g0: Grid, s: seq<Grid>)
  {
    forall x :: x in s ==> Reachable(g0, x)
  }

  /** The start board is reached by the chain of no moves. */
  lemma ReachableStart(g0: Grid)
    ensures AllReachable(g0, [] + [g0])
  {
    assert IsPath([g0]);
  }

  /** A board reachable from `g0` reaches, in one more move, every board its expansion offers. */
  lemma ReachableStep(g0: Grid, g: Grid, c: Grid)
    requires Reachable(g0, g) && c in Offered(g)
    ensures Reachable(g0, c)
  {
    var p :| IsPath(p) && p != [] && p[0] == g0 && p[|p| - 1] == g;
    var q := p + [c];
    assert IsPath(q) by {
      forall i | 0 <= i < |q| - 1
        ensures q[i + 1] in Offered(q[i])
      {
        if i < |p| - 1 {
          assert q[i] == p[i] && q[i + 1] == p[i + 1];
        }
      }
    }
    assert q[0] == g0 && q[|q| - 1] == c;
  }

  /** Moving the queue entry at index `m` to the tested boards keeps every board reachable. */
  lemma DequeueKeepsReachable(g0: Grid, tested: seq<Grid>, frontier: seq<Grid>, m: int)
    requires AllReachable(g0, tested + frontier) && 0 <= m < |frontier|
    ensures AllReachable(g0, (tested + [frontier[m]]) + (frontier[..m] + frontier[m + 1..]))
  {
    var r := frontier[..m] + frontier[m + 1..];
    forall x | x in (tested + [frontier[m]]) + r
      ensures x in tested + frontier
    {
      if x in r {
        var i :| 0 <= i < |r| && r[i] == x;
        if i < m {
          assert frontier[i] == x;
        } else {
          assert frontier[i + 1] == x;
        }
      }
    }
  }

  /** Expanding a reachable board queues only reachable boards. */
  lemma ExpandKeepsReachable(g0: Grid, tested: seq<Grid>, frontier: seq<Grid>, visited: set<Grid>, g: Grid)
    requires Clean(frontier, visited) && AllReachable(g0, tested + frontier) && g in tested
    ensures AllReachable(g0, tested + EnqueueAll(frontier, visited, Offered(g)))
  {
    var f := EnqueueAll(frontier, visited, Offered(g));
    EnqueueAllKeepsClean(frontier, visited, Offered(g));
    forall x | x in tested + f
      ensures Reachable(g0, x)
    {
      if x !in tested {
        var i :| 0 <= i < |f| && f[i] == x;
        if i < |frontier| {
          assert f[..|frontier|][i] == x;
          assert x in tested + frontier;
        } else {
          assert f[|frontier|..][i - |frontier|] == x;
          ReachableStep(g0, g, x);
        }
      }
    }
  }

  /** The boards of a queue hold, in order, the given values. */
  ghost predicate Mirrors(boards: seq<GameBoard>, values: seq<Grid>)
    reads set i | 0 <= i < |boards| :: boards[i]
    reads set i | 0 <= i < |boards| :: boards[i].matrix
  {
    |boards| == |values| && forall i :: 0 <= i < |boards| ==> boards[i].Valid() && boards[i].Cells() == values[i]
  }

  /**
   * The queue's membership test (`Queue.Contains`, and `UnorderedItems.Any`
   * over the priority queue): a linear scan with the boards' Equals.
   */
  method ContainsBoard(boards: seq<GameBoard>, ghost values: seq<Grid>, state: GameBoard) returns (found: bool)
    requires Mirrors(boards, values) && state.Valid()
    ensures found <==> state.Cells() in values
  {
    for i := 0 to |boards|
      invariant state.Cells() !in values[..i]
    {
      var same := state.Equals(boards[i]);
      if same {
        assert values[i] == state.Cells();
        return true;
      }
    }
    assert values[..|boards|] == values;
    return false;
  }

  /** `m` indexes a smallest priority. */
  predicate IsLeast(ps: seq<int>, m: int)
  {
    0 <= m < |ps| && forall i :: 0 <= i < |ps| ==> ps[m] <= ps[i]
  }

  /** An index of a smallest priority (the first one, as it happens): every nonempty queue has one. */
  function LeastIndex(ps: seq<int>): (m: nat)
    requires ps != []
    ensures IsLeast(ps, m)
  {
    if |ps| == 1 then 0
    else
      var m := LeastIndex(ps[..|ps| - 1]);
      assert forall i :: 0 <= i < |ps| - 1 ==> ps[..|ps| - 1][i] == ps[i];
      if ps[|ps| - 1] < ps[m] then |ps| - 1 else m
  }

  /** All sequences of length `n` over `xs`. */
  ghost function SeqsOver<T>(xs: set<T>, n: nat): set<seq<T>>
  {
    if n == 0 then {[]} else set x, s | x in xs && s in SeqsOver(xs, n - 1) :: [x] + s
  }

  /** ... and that is every such sequence. */
  lemma {:induction false} SeqsOverComplete<T>(xs: set<T>, s: seq<T>)
    requires forall i :: 0 <= i < |s| ==> s[i] in xs
    ensures s in SeqsOver(xs, |s|)
  {
    if s != [] {
      SeqsOverComplete(xs, s[1..]);
      assert s == [s[0]] + s[1..];
    }
  }

  /** The finite set of all 8x8 boards, which bounds every search. */
  ghost function AllGrids(): set<seq<seq<Cell>>>
  {
    SeqsOver(SeqsOver({Empty, Queen}, Size), Size)
  }

  /** Every board is one of AllGrids. */
  lemma EveryGridCounted(g: Grid)
    ensures g in AllGrids()
  {
    forall i | 0 <= i < Size
      ensures g[i] in SeqsOver({Empty, Queen}, Size)
    {
      forall j | 0 <= j < Size
        ensures g[i][j] in {Empty, Queen}
      {
        if g[i][j].Empty? { assert g[i][j] == Empty; } else { assert g[i][j] == Queen; }
      }
      SeqsOverComplete({Empty, Queen}, g[i]);
    }
    SeqsOverComplete(SeqsOver({Empty, Queen}, Size), g);
  }

  /** The set holds every board. */
  ghost predicate HoldsEveryGrid(all: set<seq<seq<Cell>>>)
  {
    forall g: Grid :: g in all
  }

  /** Some finite set holds every board, so a search that visits a new board each round ends. */
  lemma GridsAreFinite()
    ensures exists all: set<seq<seq<Cell>>> :: HoldsEveryGrid(all)
  {
    forall g: Grid
      ensures g in AllGrids()
    {
      EveryGridCounted(g);
    }
    assert HoldsEveryGrid(AllGrids());
  }

  /** The values of a set of dequeued boards. */
  function Elems(s: seq<Grid>): (e: set<Grid>)
    ensures forall x :: x in e <==> x in s
  {
    set x | x in s
  }
}

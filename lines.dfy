/**
 * The lines GameBoard.IsSafe and the visibility heuristic scan
 * (QueensProblem/GameBoard.cs, QueensProblem/Solvers/HeuristicFunctions.cs):
 * the rows, the anti-diagonals walked up-right, and the segments of the
 * down-right diagonals the second diagonal loop visits. Both members walk
 * exactly these segments, so both are specified over them.
 */
module Lines {
  import opened BoardValues

  /** A cell as (row, column). */
  type Pos = (int, int)

  /** The row step of a scan: -1 (up), 0 (along a row) or +1 (down). */
  predicate IsDirection(di: int)
  {
    -1 <= di <= 1
  }

  /** `i` moved `n` steps in direction `di`. */
  function Step(i: int, di: int, n: int): int
  {
    if di < 0 then i - n else if di == 0 then i else i + n
  }

  /**
   * The condition of `for (i = startI, j = startJ; cond; i += di, j++)`:
   * `i >= endI && j <= endJ` when walking up, `i <= endI && j <= endJ` otherwise.
   */
  predicate Continues(i: int, j: int, endI: int, endJ: int, di: int)
  {
    (if di < 0 then i >= endI else i <= endI) && j <= endJ
  }

  /** The cells such a loop visits from the cursor (i, j) on. */
  function Trace(i: int, j: int, endI: int, endJ: int, di: int): seq<Pos>
    requires IsDirection(di)
    decreases endJ - j + 1
  {
    if Continues(i, j, endI, endJ, di) then [(i, j)] + Trace(i + di, j + 1, endI, endJ, di) else []
  }

  /** The n-th cell of a trace is n steps from the cursor and satisfies the loop condition. */
  lemma {:induction false} TraceSteps(i: int, j: int, endI: int, endJ: int, di: int)
    requires IsDirection(di)
    ensures forall n :: 0 <= n < |Trace(i, j, endI, endJ, di)| ==>
      && Trace(i, j, endI, endJ, di)[n] == (Step(i, di, n), j + n)
      && Continues(Step(i, di, n), j + n, endI, endJ, di)
    decreases endJ - j + 1
  {
    var t := Trace(i, j, endI, endJ, di);
    if t != [] {
      TraceSteps(i + di, j + 1, endI, endJ, di);
      var rest := Trace(i + di, j + 1, endI, endJ, di);
      assert t == [(i, j)] + rest;
      forall n | 1 <= n < |t|
        ensures t[n] == (Step(i, di, n), j + n)
      {
        assert t[n] == rest[n - 1];
      }
    }
  }

  function Min(a: int, b: int): int
  {
    if a < b then a else b
  }

  /** The loop runs until the first of its two bounds is passed. */
  lemma {:induction false} TraceLength(i: int, j: int, endI: int, endJ: int, di: int)
    requires IsDirection(di)
    ensures var steps := if di < 0 then i - endI
                         else if di == 0 then (if i <= endI then endJ - j else -1)
                         else endI - i;
      |Trace(i, j, endI, endJ, di)| == if steps < 0 || endJ - j < 0 then 0 else Min(steps, endJ - j) + 1
    decreases endJ - j + 1
  {
    if Continues(i, j, endI, endJ, di) {
      TraceLength(i + di, j + 1, endI, endJ, di);
    }
  }

  /** The bounds of one scan loop: its start cell, its two end conditions and its row step. */
  datatype Scan = Scan(startI: int, startJ: int, endI: int, endJ: int, di: int)

  /** The three families of lines, in the order IsSafe checks them. */
  datatype Family = Rows | AntiDiagonals | DownDiagonals

  /** How many lines a family has: the row loop runs to Size, the diagonal loops to 2 * Size. */
  function LineCount(f: Family): int
  {
    if f == Rows then Size else 2 * Size
  }

  /**
   * The loop bounds of line `k`. Rows: row k, left to right. Anti-diagonals:
   * i + j == k from the bottom-left up. Down-diagonals: i - j == k - 7 walked
   * down-right; for k >= 8 the loop stops at column k - 7, so the diagonals
   * i - j = 1, 2, 3 are only partly visited.
   */
  function LineScan(f: Family, k: int): (s: Scan)
    requires 0 <= k < LineCount(f)
    ensures IsDirection(s.di)
  {
    match f
    case Rows => Scan(k, 0, k, Size - 1, 0)
    case AntiDiagonals =>
      Scan(if k < Size then k else Size - 1, if k < Size then 0 else k - Size + 1,
           if k < Size then 0 else k - Size + 1, if k < Size then k else Size - 1, -1)
    case DownDiagonals =>
      Scan(if k < Size then 0 else k - Size + 1, if k < Size then Size - k - 1 else 0,
           if k < Size then k else Size - 1, if k < Size then Size - 1 else k - Size + 1, 1)
  }

  /** The cells of line `k`, in the order its loop visits them. */
  function Line(f: Family, k: int): seq<Pos>
    requires 0 <= k < LineCount(f)
  {
    var s := LineScan(f, k);
    Trace(s.startI, s.startJ, s.endI, s.endJ, s.di)
  }

  /** Every cell of a segment is on the board. */
  predicate OnBoard(seg: seq<Pos>)
  {
    forall n :: 0 <= n < |seg| ==> InRange(seg[n].0) && InRange(seg[n].1)
  }

  /** Row `k` is scanned left to right along the row. */
  lemma RowCells(k: int)
    requires InRange(k)
    ensures OnBoard(Line(Rows, k))
    ensures forall n :: 0 <= n < |Line(Rows, k)| ==> Line(Rows, k)[n] == (k, n)
  {
    TraceSteps(k, 0, k, Size - 1, 0);
  }

  /** The first diagonal loop stays on the board and on the anti-diagonal i + j == k. */
  lemma AntiDiagonalCells(k: int)
    requires 0 <= k < 2 * Size
    ensures OnBoard(Line(AntiDiagonals, k))
    ensures forall n :: 0 <= n < |Line(AntiDiagonals, k)| ==> Line(AntiDiagonals, k)[n].0 + Line(AntiDiagonals, k)[n].1 == k
  {
    var s := LineScan(AntiDiagonals, k);
    TraceSteps(s.startI, s.startJ, s.endI, s.endJ, -1);
  }

  /** The second diagonal loop stays on the board and on the diagonal i - j == k - 7. */
  lemma DownDiagonalCells(k: int)
    requires 0 <= k < 2 * Size
    ensures OnBoard(Line(DownDiagonals, k))
    ensures forall n :: 0 <= n < |Line(DownDiagonals, k)| ==>
      Line(DownDiagonals, k)[n].0 - Line(DownDiagonals, k)[n].1 == k - (Size - 1)
  {
    var s := LineScan(DownDiagonals, k);
    TraceSteps(s.startI, s.startJ, s.endI, s.endJ, 1);
  }

  /** The number of cells of the diagonal i - j == d, the textbook line. */
  function DiagonalLength(d: int): int
  {
    if d < 0 then Size + d else Size - d
  }

  /**
   * Every row is scanned whole and every anti-diagonal completely; the
   * down-right loop covers the diagonals i - j = d completely except d = 1, 2, 3
   * (k = 8, 9, 10), where it visits d + 1 of the Size - d cells. The last k of
   * both diagonal loops is empty.
   */
  lemma LineLengths(k: int)
    ensures InRange(k) ==> |Line(Rows, k)| == Size
    ensures 0 <= k < 2 * Size ==> |Line(AntiDiagonals, k)| == if k < Size then k + 1 else 2 * Size - 1 - k
    ensures 0 <= k < Size ==> |Line(DownDiagonals, k)| == DiagonalLength(k - (Size - 1))
    ensures Size <= k < Size + 3 ==> |Line(DownDiagonals, k)| == k - Size + 2 < DiagonalLength(k - (Size - 1))
    ensures Size + 3 <= k < 2 * Size ==> |Line(DownDiagonals, k)| == DiagonalLength(k - (Size - 1))
  {
    if InRange(k) {
      TraceLength(k, 0, k, Size - 1, 0);
    }
    if 0 <= k < 2 * Size {
      var a := LineScan(AntiDiagonals, k);
      var d := LineScan(DownDiagonals, k);
      TraceLength(a.startI, a.startJ, a.endI, a.endJ, a.di);
      TraceLength(d.startI, d.startJ, d.endI, d.endJ, d.di);
    }
  }

  /** Queens at (1, 0) and (3, 2) share a diagonal, but no scanned down-right segment holds both. */
  lemma DownScanNeverComparesTwoCells(k: int)
    requires 0 <= k < 2 * Size
    ensures !((1, 0) in Line(DownDiagonals, k) && (3, 2) in Line(DownDiagonals, k))
  {
    var seg := Line(DownDiagonals, k);
    if (1, 0) in seg && (3, 2) in seg {
      LineLengths(k);
      DownDiagonalCells(k);
      assert k == Size;
      TraceSteps(1, 0, Size - 1, 1, 1);
      assert false;
    }
  }

  /** `(int)cell` of the cell at `p`; positions off the board hold nothing. */
  function CellWeight(g: Grid, p: Pos): nat
  {
    if InRange(p.0) && InRange(p.1) then Weight(g[p.0][p.1]) else 0
  }

  /** The number of queens on a list of cells. */
  function QueensOn(g: Grid, seg: seq<Pos>): nat
    decreases |seg|
  {
    if seg == [] then 0 else CellWeight(g, seg[0]) + QueensOn(g, seg[1..])
  }

  /** The `sum` of `(int)cell` a scan loop still adds from its cursor (i, j) on. */
  function ScanQueens(g: Grid, i: int, j: int, endI: int, endJ: int, di: int): nat
    requires IsDirection(di)
    decreases endJ - j + 1
  {
    if Continues(i, j, endI, endJ, di)
    then CellWeight(g, (i, j)) + ScanQueens(g, i + di, j + 1, endI, endJ, di)
    else 0
  }

  /** What a scan loop adds up is the number of queens on the cells it walks. */
  lemma {:induction false} ScanQueensCountsTrace(g: Grid, i: int, j: int, endI: int, endJ: int, di: int)
    requires IsDirection(di)
    ensures ScanQueens(g, i, j, endI, endJ, di) == QueensOn(g, Trace(i, j, endI, endJ, di))
    decreases endJ - j + 1
  {
    if Continues(i, j, endI, endJ, di) {
      ScanQueensCountsTrace(g, i + di, j + 1, endI, endJ, di);
      var rest := Trace(i + di, j + 1, endI, endJ, di);
      assert ([(i, j)] + rest)[1..] == rest;
    }
  }

  /** The `sum` the loop over line `k` computes. */
  function LineQueens(g: Grid, f: Family, k: int): nat
    requires 0 <= k < LineCount(f)
  {
    var s := LineScan(f, k);
    ScanQueens(g, s.startI, s.startJ, s.endI, s.endJ, s.di)
  }

  /** ... which is the number of queens on the line's cells. */
  lemma LineQueensCountsLine(g: Grid, f: Family, k: int)
    requires 0 <= k < LineCount(f)
    ensures LineQueens(g, f, k) == QueensOn(g, Line(f, k))
  {
    var s := LineScan(f, k);
    ScanQueensCountsTrace(g, s.startI, s.startJ, s.endI, s.endJ, s.di);
  }

  /** The sums of all lines of a family, in the order the loop visits them. */
  function LineSums(g: Grid, f: Family): (qs: seq<nat>)
    ensures |qs| == LineCount(f)
  {
    seq(LineCount(f), k requires 0 <= k < LineCount(f) => LineQueens(g, f, k))
  }

  /** Every sum is at most one queen. */
  predicate AtMostOneEach(qs: seq<nat>)
  {
    forall k :: 0 <= k < |qs| ==> qs[k] <= 1
  }

  /** No line of the family holds two queens. */
  predicate FamilySafe(g: Grid, f: Family)
  {
    AtMostOneEach(LineSums(g, f))
  }

  /** IsSafe: every row and every scanned diagonal segment holds at most one queen. */
  predicate Safe(g: Grid)
  {
    FamilySafe(g, Rows) && FamilySafe(g, AntiDiagonals) && FamilySafe(g, DownDiagonals)
  }

  /** The visibility count of one line: every queen after the first on it scores 1. */
  function Excess(q: nat): nat
  {
    if q == 0 then 0 else q - 1
  }

  /** The visibility counts of a sequence of line sums, added up. */
  function SumExcess(qs: seq<nat>): nat
  {
    if qs == [] then 0 else SumExcess(qs[..|qs| - 1]) + Excess(qs[|qs| - 1])
  }

  /** The visibility count of a family: what its loop adds to `resultCount`. */
  function FamilyPairs(g: Grid, f: Family): nat
  {
    SumExcess(LineSums(g, f))
  }

  /** GetAttackingPairsWithVisibilityCount: the rows' count plus the diagonals' count. */
  function AttackingPairs(g: Grid): nat
  {
    FamilyPairs(g, Rows) + (FamilyPairs(g, AntiDiagonals) + FamilyPairs(g, DownDiagonals))
  }

  /** One more line processed by a scan loop: the prefix grows by that line's sum. */
  lemma PrefixStep(qs: seq<nat>, k: int)
    requires 0 <= k < |qs|
    ensures SumExcess(qs[..k + 1]) == SumExcess(qs[..k]) + Excess(qs[k])
    ensures AtMostOneEach(qs[..k + 1]) <==> AtMostOneEach(qs[..k]) && qs[k] <= 1
  {
    assert qs[..k + 1][..k] == qs[..k];
  }

  /** The visibility count is zero exactly when no sum exceeds one. */
  lemma {:induction false} SumExcessZero(qs: seq<nat>)
    ensures SumExcess(qs) == 0 <==> AtMostOneEach(qs)
  {
    if qs != [] {
      var n := |qs| - 1;
      SumExcessZero(qs[..n]);
      PrefixStep(qs, n);
      assert qs[..n + 1] == qs;
    }
  }

  /** The heuristic is zero exactly on the boards IsSafe accepts. */
  lemma AttackingPairsZeroIffSafe(g: Grid)
    ensures AttackingPairs(g) == 0 <==> Safe(g)
  {
    SumExcessZero(LineSums(g, Rows));
    SumExcessZero(LineSums(g, AntiDiagonals));
    SumExcessZero(LineSums(g, DownDiagonals));
  }
}

/**
 * HeuristicFunctions (QueensProblem/Solvers/HeuristicFunctions.cs): the number
 * of attacking pairs "with visibility". Along every row and every scanned
 * diagonal segment, each queen after the first adds one. The board is only
 * read, through its indexer.
 */
module Heuristic {
  import opened Wrappers
  import opened BoardValues
  import opened Lines
  import opened Board

  /** GetAttackingPairsWithVisibilityCount: a null board is rejected, otherwise rows plus diagonals. */
  method GetAttackingPairsWithVisibilityCount(gameBoard: GameBoard?) returns (r: Result<int, Error>)
    requires gameBoard != null ==> gameBoard.Valid()
    ensures gameBoard == null ==> r == Failure(ArgumentNull("gameBoard"))
    ensures gameBoard != null ==> r == Success(AttackingPairs(gameBoard.Cells()))
  {
    if gameBoard == null {
      return Failure(ArgumentNull("gameBoard"));
    }
    var rows := GetAttackingPairsWithVisibilityInRowsCount(gameBoard);
    var diagonals := GetAttackingPairsWithVisibilityInDiagonalsCount(gameBoard);
    return Success(rows + diagonals);
  }

  /** The row part: in each row, every queen after the first scores one. */
  method GetAttackingPairsWithVisibilityInRowsCount(gameBoard: GameBoard) returns (resultCount: int)
    requires gameBoard.Valid()
    ensures resultCount == FamilyPairs(gameBoard.Cells(), Rows)
  {
    ghost var g := gameBoard.Cells();
    ghost var sums := LineSums(g, Rows);
    resultCount := 0;
    for i := 0 to Size
      invariant resultCount == SumExcess(sums[..i])
    {
      var firstQueenFound := false;
      ghost var seen: nat := 0;
      ghost var before := resultCount;
      for j := 0 to Size
        invariant seen + ScanQueens(g, i, j, i, Size - 1, 0) == LineQueens(g, Rows, i)
        invariant firstQueenFound == (seen >= 1)
        invariant resultCount == before + Excess(seen)
      {
        ghost var w := Weight(g[i][j]);
        if gameBoard.Get(i, j) == Success(Queen) {
          if !firstQueenFound {
            firstQueenFound := true;
          } else {
            resultCount := resultCount + 1;
          }
        }
        seen := seen + w;
      }
      assert seen == sums[i];
      PrefixStep(sums, i);
    }
    assert sums[..Size] == sums;
  }

  /**
   * The diagonal part. Its two loops, which share `resultCount`, are the two
   * methods below; the part returns their sum.
   */
  method GetAttackingPairsWithVisibilityInDiagonalsCount(gameBoard: GameBoard) returns (resultCount: int)
    requires gameBoard.Valid()
    ensures resultCount == FamilyPairs(gameBoard.Cells(), AntiDiagonals) + FamilyPairs(gameBoard.Cells(), DownDiagonals)
  {
    var up := AntiDiagonalPairs(gameBoard);
    var down := DownDiagonalPairs(gameBoard);
    resultCount := up + down;
  }

  /** The first loop of the diagonal part: the anti-diagonals, walked up-right. */
  method AntiDiagonalPairs(gameBoard: GameBoard) returns (resultCount: int)
    requires gameBoard.Valid()
    ensures resultCount == FamilyPairs(gameBoard.Cells(), AntiDiagonals)
  {
    ghost var ups := LineSums(gameBoard.Cells(), AntiDiagonals);
    resultCount := 0;
    for k := 0 to 2 * Size
      invariant resultCount == SumExcess(ups[..k])
    {
      var pairs := AntiDiagonalScan(gameBoard, k);
      resultCount := resultCount + pairs;
      PrefixStep(ups, k);
    }
    assert ups[..2 * Size] == ups;
  }

  /** One pass of that loop: the anti-diagonal `k`, from its lower-left end. */
  method AntiDiagonalScan(gameBoard: GameBoard, k: int) returns (pairs: int)
    requires gameBoard.Valid() && 0 <= k < 2 * Size
    ensures pairs == Excess(LineQueens(gameBoard.Cells(), AntiDiagonals, k))
  {
    ghost var g := gameBoard.Cells();
    var size := Size;
    var firstQueenFound := false;
    ghost var seen: nat := 0;
    pairs := 0;
    var startI := if k < size then k else size - 1;
    var startJ := if k < size then 0 else k - size + 1;
    var endI := if k < size then 0 else k - size + 1;
    var endJ := if k < size then k else size - 1;
    ghost var total := LineQueens(g, AntiDiagonals, k);
    assert total == ScanQueens(g, startI, startJ, endI, endJ, -1);
    var i, j := startI, startJ;
    while i >= endI && j <= endJ
      invariant i <= startI < Size && 0 <= startJ <= j && 0 <= endI && endJ < Size
      invariant seen + ScanQueens(g, i, j, endI, endJ, -1) == total
      invariant firstQueenFound == (seen >= 1)
      invariant pairs == Excess(seen)
      decreases endJ - j
    {
      ghost var w := Weight(g[i][j]);
      if gameBoard.Get(i, j) == Success(Queen) {
        if !firstQueenFound {
          firstQueenFound := true;
        } else {
          pairs := pairs + 1;
        }
      }
      assert ScanQueens(g, i, j, endI, endJ, -1) == w + ScanQueens(g, i - 1, j + 1, endI, endJ, -1);
      seen := seen + w;
      i, j := i - 1, j + 1;
    }
  }

  /** The second loop of the diagonal part: the down-right segments. */
  method DownDiagonalPairs(gameBoard: GameBoard) returns (resultCount: int)
    requires gameBoard.Valid()
    ensures resultCount == FamilyPairs(gameBoard.Cells(), DownDiagonals)
  {
    ghost var downs := LineSums(gameBoard.Cells(), DownDiagonals);
    resultCount := 0;
    for k := 0 to 2 * Size
      invariant resultCount == SumExcess(downs[..k])
    {
      var pairs := DownDiagonalScan(gameBoard, k);
      resultCount := resultCount + pairs;
      PrefixStep(downs, k);
    }
    assert downs[..2 * Size] == downs;
  }

  /** One pass of that loop: the down-right segment `k`, from its upper-left end. */
  method DownDiagonalScan(gameBoard: GameBoard, k: int) returns (pairs: int)
    requires gameBoard.Valid() && 0 <= k < 2 * Size
    ensures pairs == Excess(LineQueens(gameBoard.Cells(), DownDiagonals, k))
  {
    ghost var g := gameBoard.Cells();
    var size := Size;
    var firstQueenFound := false;
    ghost var seen: nat := 0;
    pairs := 0;
    var startI := if k < size then 0 else k - size + 1;
    var startJ := if k < size then size - k - 1 else 0;
    var endI := if k < size then k else size - 1;
    var endJ := if k < size then size - 1 else k - size + 1;
    ghost var total := LineQueens(g, DownDiagonals, k);
    assert total == ScanQueens(g, startI, startJ, endI, endJ, 1);
    var i, j := startI, startJ;
    while i <= endI && j <= endJ
      invariant 0 <= startI <= i && 0 <= startJ <= j && endI < Size
      invariant j - startJ == i - startI && startJ + endI - startI < Size
      invariant seen + ScanQueens(g, i, j, endI, endJ, 1) == total
      invariant firstQueenFound == (seen >= 1)
      invariant pairs == Excess(seen)
      decreases endJ - j
    {
      ghost var w := Weight(g[i][j]);
      if gameBoard.Get(i, j) == Success(Queen) {
        if !firstQueenFound {
          firstQueenFound := true;
        } else {
          pairs := pairs + 1;
        }
      }
      assert ScanQueens(g, i, j, endI, endJ, 1) == w + ScanQueens(g, i + 1, j + 1, endI, endJ, 1);
      seen := seen + w;
      i, j := i + 1, j + 1;
    }
  }
}

/**
 * GameBoard (QueensProblem/GameBoard.cs): an 8x8 matrix of cells that the
 * string constructor fills in place and ReplaceQueenInColumn updates in place.
 */
module Board {
  import opened Wrappers
  import opened BoardValues
  import opened Lines

  class GameBoard {
    /** `_matrix`: the reference is readonly, its cells are not. */
    const matrix: array2<Cell>
    /** The matrix's cells as a value, row by row. */
    ghost var cells: Grid

    /** The matrix is 8x8 and holds `cells`. */
    ghost predicate Valid()
      reads this, matrix
    {
      && matrix.Length0 == Size && matrix.Length1 == Size
      && forall i, j {:trigger matrix[i, j]} :: InRange(i) && InRange(j) ==> matrix[i, j] == cells[i][j]
    }

    /** The board's value. */
    ghost function Cells(): Grid
      reads this
    {
      cells
    }

    /** The field initializer: a fresh matrix of default (Empty) cells. */
    constructor Blank()
      ensures Valid() && fresh(matrix) && Cells() == EmptyGrid
      ensures forall i, j :: InRange(i) && InRange(j) ==> matrix[i, j] == Empty
    {
      matrix := new Cell[Size, Size]((i, j) => Empty);
      cells := EmptyGrid;
    }

    /** The private constructor Clone uses: adopt the given matrix, which holds `g`. */
    constructor FromMatrix(m: array2<Cell>, ghost g: Grid)
      requires m.Length0 == Size && m.Length1 == Size
      requires forall i, j :: InRange(i) && InRange(j) ==> m[i, j] == g[i][j]
      ensures matrix == m && Valid() && Cells() == g
    {
      matrix := m;
      cells := g;
    }

    /**
     * The public constructor GameBoard(string): CheckStateString, then
     * InitializeBoardFromStateWithCharactersCheck. A thrown exception is a Failure.
     */
    static method FromState(s: Option<string>) returns (r: Result<GameBoard, Error>)
      ensures r.Failure? ==> ParseState(s) == Failure(r.error)
      ensures r.Success? ==> && fresh(r.value) && fresh(r.value.matrix) && r.value.Valid()
                             && ParseState(s) == Success(r.value.Cells())
    {
      if s.None? {
        return Failure(ArgumentNull("state"));
      }
      var state := s.value;
      if |state| != Size {
        return Failure(ArgumentOutOfRange("state"));
      }
      var board := new GameBoard.Blank();
      for j := 0 to |state|
        invariant forall t :: 0 <= t < j ==> IsStateChar(state[t])
        invariant forall i, c :: InRange(i) && InRange(c) ==>
          board.matrix[i, c] == if c < j && RowOfChar(state[c]) == i then Queen else Empty
      {
        var character := state[j];
        if character < '1' || character > SizeChar {
          return Failure(Format);
        }
        var rowNumber := (character as int) - ('1' as int);
        board.matrix[rowNumber, j] := Queen;
      }
      ghost var h := GridOf(RowsOfState(state));
      forall i, c | InRange(i) && InRange(c)
        ensures board.matrix[i, c] == h[i][c]
      {
      }
      board.cells := h;
      return Success(board);
    }

    /** The indexer `this[i, j]`: the row is checked first, then the column. */
    function Get(i: int, j: int): (r: Result<Cell, Error>)
      requires Valid()
      reads this, matrix
      ensures r.Success? <==> InRange(i) && InRange(j)
      ensures r.Success? ==> r.value == Cells()[i][j]
      ensures !InRange(i) ==> r == Failure(ArgumentOutOfRange("i"))
      ensures InRange(i) && !InRange(j) ==> r == Failure(ArgumentOutOfRange("j"))
    {
      if !InRange(i) then Failure(ArgumentOutOfRange("i"))
      else if !InRange(j) then Failure(ArgumentOutOfRange("j"))
      else Success(matrix[i, j])
    }

    /** Clone: a new board over a copy of the matrix. */
    method Clone() returns (c: GameBoard)
      requires Valid()
      ensures fresh(c) && fresh(c.matrix) && c.Valid()
      ensures c.Cells() == Cells()
    {
      var copy := new Cell[Size, Size]((i, j) => Empty);
      for i := 0 to Size
        invariant forall a, b :: 0 <= a < i && InRange(b) ==> copy[a, b] == matrix[a, b]
      {
        for j := 0 to Size
          invariant forall a, b :: 0 <= a < i && InRange(b) ==> copy[a, b] == matrix[a, b]
          invariant forall b :: 0 <= b < j ==> copy[i, b] == matrix[i, b]
        {
          copy[i, j] := matrix[i, j];
        }
      }
      c := new GameBoard.FromMatrix(copy, cells);
    }

    /** FindQueenRowIndex: the topmost row holding a queen in column `j`. */
    method FindQueenRowIndex(j: int) returns (r: Result<int, Error>)
      requires Valid()
      ensures !InRange(j) ==> r == Failure(ArgumentOutOfRange("j"))
      ensures r.Success? ==> && InRange(j) && InRange(r.value) && Cells()[r.value][j] == Queen
                             && forall i :: 0 <= i < r.value ==> Cells()[i][j] != Queen
      ensures InRange(j) && r.Failure? ==>
        r.error == InvalidOperation && forall i :: InRange(i) ==> Cells()[i][j] != Queen
      ensures InRange(j) ==> r.Success? == (QueenRow(Cells(), j) < Size)
      ensures r.Success? ==> r.value == QueenRow(Cells(), j)
    {
      if !InRange(j) {
        return Failure(ArgumentOutOfRange("j"));
      }
      for i := 0 to Size
        invariant forall t :: 0 <= t < i ==> Cells()[t][j] != Queen
      {
        if matrix[i, j] == Queen {
          return Success(i);
        }
      }
      return Failure(InvalidOperation);
    }

    /** The checks of ReplaceQueenInColumn, in order: newI, oldI, j, then a queen on (oldI, j). */
    static function ReplaceError(g: Grid, oldI: int, newI: int, j: int): Option<Error>
    {
      if !InRange(newI) then Some(ArgumentOutOfRange("newI"))
      else if !InRange(oldI) then Some(ArgumentOutOfRange("oldI"))
      else if !InRange(j) then Some(ArgumentOutOfRange("j"))
      else if g[oldI][j] != Queen then Some(InvalidOperation)
      else None
    }

    /**
     * ReplaceQueenInColumn: after the checks pass, (oldI, j) is emptied and
     * (newI, j) gets the queen; a failed check changes nothing.
     */
    method ReplaceQueenInColumn(oldI: int, newI: int, j: int) returns (err: Option<Error>)
      requires Valid()
      modifies this, matrix
      ensures Valid()
      ensures err == ReplaceError(old(Cells()), oldI, newI, j)
      ensures err.None? ==> Cells() == Relocate(old(Cells()), oldI, newI, j)
      ensures err.Some? ==> Cells() == old(Cells())
    {
      if !InRange(newI) {
        return Some(ArgumentOutOfRange("newI"));
      }
      if !InRange(oldI) {
        return Some(ArgumentOutOfRange("oldI"));
      }
      if !InRange(j) {
        return Some(ArgumentOutOfRange("j"));
      }
      if matrix[oldI, j] != Queen {
        return Some(InvalidOperation);
      }
      matrix[oldI, j] := Empty;
      matrix[newI, j] := Queen;
      RelocateKeepsOthers(cells, oldI, newI, j);
      cells := Relocate(cells, oldI, newI, j);
      return None;
    }

    /** AreRowsSafe: each row's sum of cells is at most one queen. */
    method AreRowsSafe() returns (r: bool)
      requires Valid()
      ensures r == FamilySafe(Cells(), Rows)
    {
      ghost var g := Cells();
      ghost var sums := LineSums(g, Rows);
      for i := 0 to Size
        invariant AtMostOneEach(sums[..i])
      {
        var sum := 0;
        for j := 0 to Size
          invariant sum + ScanQueens(g, i, j, i, Size - 1, 0) == LineQueens(g, Rows, i)
        {
          sum := sum + Weight(matrix[i, j]);
        }
        assert sum == sums[i];
        PrefixStep(sums, i);
        if sum > Weight(Queen) {
          return false;
        }
      }
      assert sums[..Size] == sums;
      return true;
    }

    /** AreDiagonalsSafe: the up-right loop, then the down-right loop. */
    method AreDiagonalsSafe() returns (r: bool)
      requires Valid()
      ensures r == (FamilySafe(Cells(), AntiDiagonals) && FamilySafe(Cells(), DownDiagonals))
    {
      r := AreAntiDiagonalsSafe();
      if r {
        r := AreDownDiagonalsSafe();
      }
    }

    /** The first loop of AreDiagonalsSafe: every anti-diagonal sums to at most one queen. */
    method AreAntiDiagonalsSafe() returns (r: bool)
      requires Valid()
      ensures r == FamilySafe(Cells(), AntiDiagonals)
    {
      ghost var sums := LineSums(Cells(), AntiDiagonals);
      var kIncreaseUpTo := Size * 2;
      for k := 0 to kIncreaseUpTo
        invariant AtMostOneEach(sums[..k])
      {
        var sum := AntiDiagonalSum(k);
        PrefixStep(sums, k);
        if sum > Weight(Queen) {
          return false;
        }
      }
      assert sums[..kIncreaseUpTo] == sums;
      return true;
    }

    /** One pass of that loop: the queens on anti-diagonal `k`, walked up-right. */
    method AntiDiagonalSum(k: int) returns (sum: nat)
      requires Valid() && 0 <= k < 2 * Size
      ensures sum == LineQueens(Cells(), AntiDiagonals, k)
    {
      ghost var g := Cells();
      var startI := if k < Size then k else Size - 1;
      var startJ := if k < Size then 0 else k - Size + 1;
      var endI := if k < Size then 0 else k - Size + 1;
      var endJ := if k < Size then k else Size - 1;
      sum := 0;
      var i, j := startI, startJ;
      while i >= endI && j <= endJ
        invariant i <= startI && startJ <= j
        invariant sum + ScanQueens(g, i, j, endI, endJ, -1) == LineQueens(g, AntiDiagonals, k)
        decreases endJ - j
      {
        sum := sum + Weight(matrix[i, j]);
        i, j := i - 1, j + 1;
      }
    }

    /** The second loop of AreDiagonalsSafe: every scanned down-right segment sums to at most one queen. */
    method AreDownDiagonalsSafe() returns (r: bool)
      requires Valid()
      ensures r == FamilySafe(Cells(), DownDiagonals)
    {
      ghost var sums := LineSums(Cells(), DownDiagonals);
      var kIncreaseUpTo := Size * 2;
      for k := 0 to kIncreaseUpTo
        invariant AtMostOneEach(sums[..k])
      {
        var sum := DownDiagonalSum(k);
        PrefixStep(sums, k);
        if sum > Weight(Queen) {
          return false;
        }
      }
      assert sums[..kIncreaseUpTo] == sums;
      return true;
    }

    /** One pass of that loop: the queens on down-right segment `k`, walked down-right. */
    method DownDiagonalSum(k: int) returns (sum: nat)
      requires Valid() && 0 <= k < 2 * Size
      ensures sum == LineQueens(Cells(), DownDiagonals, k)
    {
      ghost var g := Cells();
      var startI := if k < Size then 0 else k - Size + 1;
      var startJ := if k < Size then Size - k - 1 else 0;
      var endI := if k < Size then k else Size - 1;
      var endJ := if k < Size then Size - 1 else k - Size + 1;
      sum := 0;
      var i, j := startI, startJ;
      while i <= endI && j <= endJ
        invariant startI <= i && startJ <= j
        invariant sum + ScanQueens(g, i, j, endI, endJ, 1) == LineQueens(g, DownDiagonals, k)
        decreases endJ - j
      {
        sum := sum + Weight(matrix[i, j]);
        i, j := i + 1, j + 1;
      }
    }

    /** IsSafe: AreRowsSafe && AreDiagonalsSafe. */
    method IsSafe() returns (r: bool)
      requires Valid()
      ensures r == Safe(Cells())
    {
      r := AreRowsSafe();
      if r {
        r := AreDiagonalsSafe();
      }
    }

    /** State: for each column, the 1-based row of its topmost queen. */
    method State() returns (s: string)
      requires Valid()
      ensures s == StateOf(Cells())
    {
      ghost var g := Cells();
      s := [];
      for j := 0 to Size
        invariant s == StatePrefix(g, j)
      {
        ghost var found := false;
        for i := 0 to Size
          invariant !found && s == StatePrefix(g, j)
          invariant forall t :: 0 <= t < i ==> g[t][j] != Queen
        {
          assert matrix[i, j] == g[i][j];
          if matrix[i, j] == Queen {
            TopmostQueen(g, j, i);
            s := s + [DigitChar(i + 1)];
            found := true;
            break;
          }
        }
        if !found {
          TopmostQueen(g, j, Size);
        }
      }
    }

    /**
     * The board as a value, which is what HashSet's Equals and GetHashCode
     * compare: the matrix read row by row.
     */
    method Value() returns (g: Grid)
      requires Valid()
      ensures g == Cells()
    {
      var rows: seq<seq<Cell>> := [];
      for i := 0 to Size
        invariant |rows| == i && forall a :: 0 <= a < i ==> rows[a] == cells[a]
      {
        var row: seq<Cell> := [];
        for j := 0 to Size
          invariant row == cells[i][..j]
        {
          row := row + [matrix[i, j]];
        }
        rows := rows + [row];
      }
      return rows;
    }

    /** Equals: cell-wise comparison; null is never equal. */
    method Equals(other: GameBoard?) returns (r: bool)
      requires Valid()
      requires other != null ==> other.Valid()
      ensures r <==> other != null && other.Cells() == Cells()
    {
      if other == null {
        return false;
      }
      for i := 0 to Size
        invariant forall a :: 0 <= a < i ==> Cells()[a] == other.Cells()[a]
      {
        for j := 0 to Size
          invariant forall b :: 0 <= b < j ==> matrix[i, b] == other.matrix[i, b]
        {
          if matrix[i, j] != other.matrix[i, j] {
            assert Cells()[i][j] != other.Cells()[i][j];
            return false;
          }
        }
        forall b | InRange(b)
          ensures Cells()[i][b] == other.Cells()[i][b]
        {
          assert matrix[i, b] == other.matrix[i, b];
        }
        assert Cells()[i] == other.Cells()[i];
      }
      return true;
    }
  }
}

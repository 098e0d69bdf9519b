/**
 * The value of a GameBoard (QueensProblem/GameBoard.cs): its 8x8 matrix of
 * cells, the one-queen-per-column invariant, the state string, parsing, and
 * the single-queen relocation, all as values.
 */
module BoardValues {
  import opened Wrappers

  /** The board dimension (`_size`). */
  const Size: int := 8

  /** The largest row digit accepted in a state string (`sizeAsCharacter`). */
  const SizeChar: char := '8'

  /** ChessBoardCell. Empty is the enum default of a fresh matrix; Queen counts 1 in the sums. */
  datatype Cell = Empty | Queen

  /** The integer value of a cell, `(int)cell`. */
  function Weight(c: Cell): nat
  {
    if c == Queen then 1 else 0
  }

  /** The exceptions the core can raise. */
  datatype Error =
    | ArgumentNull(param: string)
    | ArgumentOutOfRange(param: string)
    | Format
    | InvalidOperation

  predicate InRange(x: int)
  {
    0 <= x < Size
  }

  predicate IsMatrix(g: seq<seq<Cell>>)
  {
    |g| == Size && forall i :: 0 <= i < Size ==> |g[i]| == Size
  }

  /** The contents of an 8x8 matrix, indexed `g[row][column]`. */
  type Grid = g: seq<seq<Cell>> | IsMatrix(g) witness seq(8, _ => seq(8, _ => Empty))

  /** Column `j` holds at least one queen. */
  predicate HasQueen(g: Grid, j: int)
    requires InRange(j)
  {
    exists i :: 0 <= i < Size && g[i][j] == Queen
  }

  /** Column `j` holds exactly one queen. */
  predicate OneQueenIn(g: Grid, j: int)
    requires InRange(j)
  {
    && HasQueen(g, j)
    && forall i1, i2 :: 0 <= i1 < Size && 0 <= i2 < Size && g[i1][j] == Queen && g[i2][j] == Queen ==> i1 == i2
  }

  /** Every column holds exactly one queen. */
  predicate OnePerColumn(g: Grid)
  {
    forall j :: 0 <= j < Size ==> OneQueenIn(g, j)
  }

  /** Column `j` of the board, top to bottom. */
  function Column(g: Grid, j: int): (col: seq<Cell>)
    requires InRange(j)
    ensures |col| == Size && forall i :: 0 <= i < Size ==> col[i] == g[i][j]
  {
    seq(Size, i requires 0 <= i < Size => g[i][j])
  }

  /** The index of the first queen of a column, or its length when it has none. */
  function FirstQueen(col: seq<Cell>): (r: nat)
    ensures r <= |col|
    ensures r < |col| ==> col[r] == Queen
    ensures forall t :: 0 <= t < r ==> col[t] != Queen
  {
    if col == [] then 0
    else if col[0] == Queen then 0
    else 1 + FirstQueen(col[1..])
  }

  /** The row of the topmost queen of column `j` (`Size` if the column is empty). */
  function QueenRow(g: Grid, j: int): int
    requires InRange(j)
  {
    FirstQueen(Column(g, j))
  }

  /** The scan that stops at the first queen of column `j`, or runs off the board, finds QueenRow. */
  lemma TopmostQueen(g: Grid, j: int, i: int)
    requires InRange(j) && 0 <= i <= Size
    requires i < Size ==> g[i][j] == Queen
    requires forall t :: 0 <= t < i ==> g[t][j] != Queen
    ensures QueenRow(g, j) == i
  {
  }

  /** On a board with one queen per column, QueenRow names the one queen of the column. */
  lemma QueenRowIsTheQueen(g: Grid, j: int)
    requires OnePerColumn(g) && InRange(j)
    ensures InRange(QueenRow(g, j))
    ensures forall i :: InRange(i) ==> (g[i][j] == Queen <==> i == QueenRow(g, j))
  {
    assert OneQueenIn(g, j);
    var i0 :| 0 <= i0 < Size && g[i0][j] == Queen;
    assert QueenRow(g, j) <= i0;
  }

  /** A column whose only queen is in row `i0` has exactly one queen, and QueenRow finds it. */
  lemma OnlyQueenOfColumn(g: Grid, j: int, i0: int)
    requires InRange(j) && InRange(i0) && g[i0][j] == Queen
    requires forall i :: InRange(i) && g[i][j] == Queen ==> i == i0
    ensures OneQueenIn(g, j) && QueenRow(g, j) == i0
  {
    assert HasQueen(g, j);
  }

  /** The board whose column `j` holds its queen in row `rows[j]`. */
  function GridOf(rows: seq<int>): (g: Grid)
    requires |rows| == Size && forall j :: 0 <= j < Size ==> InRange(rows[j])
    ensures forall i, j :: InRange(i) && InRange(j) ==> (g[i][j] == Queen <==> i == rows[j])
  {
    seq(Size, i => seq(Size, j requires 0 <= j < Size => if rows[j] == i then Queen else Empty))
  }

  /** The board built from a row per column has one queen per column, in the given rows. */
  lemma GridOfPlacesQueens(rows: seq<int>)
    requires |rows| == Size && forall j :: 0 <= j < Size ==> InRange(rows[j])
    ensures OnePerColumn(GridOf(rows))
    ensures forall j :: 0 <= j < Size ==> QueenRow(GridOf(rows), j) == rows[j]
  {
    var g := GridOf(rows);
    forall j | 0 <= j < Size
      ensures OneQueenIn(g, j) && QueenRow(g, j) == rows[j]
    {
      OnlyQueenOfColumn(g, j, rows[j]);
    }
  }

  /** The board with no queen at all: a freshly allocated matrix. */
  const EmptyGrid: Grid := seq(Size, _ => seq(Size, _ => Empty))

  /** ReplaceQueenInColumn on values: clear (oldI, j), then put a queen on (newI, j). */
  function Relocate(g: Grid, oldI: int, newI: int, j: int): (r: Grid)
    requires InRange(oldI) && InRange(newI) && InRange(j)
    ensures r[newI][j] == Queen
    ensures oldI != newI ==> r[oldI][j] == Empty
  {
    var cleared := g[oldI := g[oldI][j := Empty]];
    cleared[newI := cleared[newI][j := Queen]]
  }

  /** Relocate touches no cell but the two it moves the queen between. */
  lemma RelocateKeepsOthers(g: Grid, oldI: int, newI: int, j: int)
    requires InRange(oldI) && InRange(newI) && InRange(j)
    ensures forall i, c :: InRange(i) && InRange(c) && !(c == j && (i == oldI || i == newI)) ==>
      Relocate(g, oldI, newI, j)[i][c] == g[i][c]
  {
  }

  /** Moving the queen of column `j` keeps one queen per column and leaves it in row `newI`. */
  lemma RelocateKeepsOnePerColumn(g: Grid, oldI: int, newI: int, j: int)
    requires OnePerColumn(g) && InRange(oldI) && InRange(newI) && InRange(j) && g[oldI][j] == Queen
    ensures OnePerColumn(Relocate(g, oldI, newI, j))
    ensures QueenRow(Relocate(g, oldI, newI, j), j) == newI
    ensures forall c :: InRange(c) && c != j ==> QueenRow(Relocate(g, oldI, newI, j), c) == QueenRow(g, c)
  {
    var r := Relocate(g, oldI, newI, j);
    forall c | InRange(c)
      ensures OneQueenIn(r, c) && QueenRow(r, c) == if c == j then newI else QueenRow(g, c)
    {
      QueenRowIsTheQueen(g, c);
      if c == j {
        OnlyQueenOfColumn(r, c, newI);
      } else {
        OnlyQueenOfColumn(r, c, QueenRow(g, c));
      }
    }
  }

  /** The character `'0' + d`: StringBuilder.Append of a one-digit number. */
  function DigitChar(d: int): char
    requires 0 <= d <= 9
  {
    (('0' as int) + d) as char
  }

  /** What State appends for column `j`: the 1-based row digit of its topmost queen, or nothing. */
  function ColumnDigit(g: Grid, j: int): string
    requires InRange(j)
  {
    var r := QueenRow(g, j);
    if r < Size then [DigitChar(r + 1)] else []
  }

  /** The digits State builds for the columns `0 .. n-1`. */
  function StatePrefix(g: Grid, n: int): string
    requires 0 <= n <= Size
  {
    if n == 0 then [] else StatePrefix(g, n - 1) + ColumnDigit(g, n - 1)
  }

  /** The State string of a board. */
  function StateOf(g: Grid): string
  {
    StatePrefix(g, Size)
  }

  /** On a board with one queen per column, State has one digit per column. */
  lemma {:induction false} StatePrefixLength(g: Grid, n: int)
    requires OnePerColumn(g) && 0 <= n <= Size
    ensures |StatePrefix(g, n)| == n
  {
    if n > 0 {
      StatePrefixLength(g, n - 1);
      QueenRowIsTheQueen(g, n - 1);
    }
  }

  /** ... and its `j`-th digit is the 1-based row of the queen of column `j`. */
  lemma {:induction false} StatePrefixDigit(g: Grid, n: int, j: int)
    requires OnePerColumn(g) && 0 <= j < n <= Size
    ensures |StatePrefix(g, n)| == n
    ensures InRange(QueenRow(g, j)) && StatePrefix(g, n)[j] == DigitChar(QueenRow(g, j) + 1)
  {
    StatePrefixLength(g, n);
    StatePrefixLength(g, n - 1);
    QueenRowIsTheQueen(g, n - 1);
    if j < n - 1 {
      StatePrefixDigit(g, n - 1, j);
    }
  }

  /** A character the constructor accepts: a row digit '1' .. '8'. */
  predicate IsStateChar(c: char)
  {
    '1' <= c <= SizeChar
  }

  /** The 0-based row a state character names. */
  function RowOfChar(c: char): int
    requires IsStateChar(c)
  {
    (c as int) - ('1' as int)
  }

  /** A string the constructor accepts. */
  predicate IsValidState(s: string)
  {
    |s| == Size && forall j :: 0 <= j < Size ==> IsStateChar(s[j])
  }

  /** The rows a valid state string names, column by column. */
  function RowsOfState(s: string): (rows: seq<int>)
    requires IsValidState(s)
    ensures |rows| == Size && forall j :: 0 <= j < Size ==> InRange(rows[j]) && rows[j] == RowOfChar(s[j])
  {
    seq(Size, j requires 0 <= j < Size => RowOfChar(s[j]))
  }

  /**
   * The constructor GameBoard(string): null, then the length, then each
   * character is checked; a `None` string is the null reference.
   */
  function ParseState(s: Option<string>): (r: Result<Grid, Error>)
    ensures r.Success? <==> s.Some? && IsValidState(s.value)
    ensures s.None? ==> r == Failure(ArgumentNull("state"))
    ensures s.Some? && |s.value| != Size ==> r == Failure(ArgumentOutOfRange("state"))
    ensures s.Some? && |s.value| == Size && !IsValidState(s.value) ==> r == Failure(Format)
  {
    match s
    case None => Failure(ArgumentNull("state"))
    case Some(str) =>
      if |str| != Size then Failure(ArgumentOutOfRange("state"))
      else if exists j :: 0 <= j < Size && !IsStateChar(str[j]) then Failure(Format)
      else Success(GridOf(RowsOfState(str)))
  }

  /** A parsed board has its queen of column j in row s[j] - '1' and nowhere else. */
  lemma ParsePlacesQueens(s: string)
    requires IsValidState(s)
    ensures ParseState(Some(s)).Success?
    ensures OnePerColumn(ParseState(Some(s)).value)
    ensures forall i, j :: InRange(i) && InRange(j) ==>
      (ParseState(Some(s)).value[i][j] == Queen <==> i == RowOfChar(s[j]))
  {
    GridOfPlacesQueens(RowsOfState(s));
  }

  /** Round trip: the State of a parsed string is that string. */
  lemma StateOfParse(s: string)
    requires IsValidState(s)
    ensures ParseState(Some(s)).Success? && StateOf(ParseState(Some(s)).value) == s
  {
    var g := ParseState(Some(s)).value;
    GridOfPlacesQueens(RowsOfState(s));
    StatePrefixLength(g, Size);
    forall j | 0 <= j < Size
      ensures StateOf(g)[j] == s[j]
    {
      StatePrefixDigit(g, Size, j);
      assert QueenRow(g, j) == RowOfChar(s[j]);
    }
  }

  /** Two boards with queens on the same cells are equal. */
  lemma SameQueensSameGrid(g: Grid, h: Grid)
    requires forall i, j :: InRange(i) && InRange(j) ==> (g[i][j] == Queen <==> h[i][j] == Queen)
    ensures g == h
  {
    forall i | InRange(i)
      ensures g[i] == h[i]
    {
      forall j | InRange(j)
        ensures g[i][j] == h[i][j]
      {
        assert g[i][j] == Queen <==> h[i][j] == Queen;
      }
    }
  }

  /** Round trip: parsing the State of a board with one queen per column gives the board back. */
  lemma ParseOfState(g: Grid)
    requires OnePerColumn(g)
    ensures IsValidState(StateOf(g))
    ensures ParseState(Some(StateOf(g))) == Success(g)
  {
    var s := StateOf(g);
    StatePrefixLength(g, Size);
    forall j | 0 <= j < Size
      ensures IsStateChar(s[j]) && RowOfChar(s[j]) == QueenRow(g, j)
    {
      StatePrefixDigit(g, Size, j);
    }
    var h := GridOf(RowsOfState(s));
    forall i, j | InRange(i) && InRange(j)
      ensures g[i][j] == Queen <==> h[i][j] == Queen
    {
      QueenRowIsTheQueen(g, j);
    }
    SameQueensSameGrid(g, h);
  }

  /** For boards with one queen per column, cell-wise equality is equality of State strings. */
  lemma EqualIffSameState(g1: Grid, g2: Grid)
    requires OnePerColumn(g1) && OnePerColumn(g2)
    ensures g1 == g2 <==> StateOf(g1) == StateOf(g2)
  {
    if StateOf(g1) == StateOf(g2) {
      ParseOfState(g1);
      ParseOfState(g2);
    }
  }
}

/**
 The logical board of the morpion (tic-tac-toe) game: a 3x3 grid whose cells
 hold 0 (empty), 1 (player 1, drawn as O) or 2 (player 2, drawn as X), the
 read-only queries the game asks of it, and the mapping from a pixel of the
 600x600 window to the square under it.
 */
module Board {

  /** Window size in pixels. */
  const Width: int := 600
  const Height: int := 600

  /** Number of rows and columns of the board. */
  const Rows: int := 3
  const Cols: int := 3

  /** Side of one square in pixels (integer division, as in the program). */
  const SquareSize: int := Width / Cols

  /** The value of a cell nobody has played. */
  const EmptyCell: int := 0

  /** The board is a list of rows, each a list of cells. */
  type Grid = seq<seq<int>>

  datatype Square = Square(row: int, col: int)

  predicate IsPlayer(p: int) {
    p == 1 || p == 2
  }

  /** The player who moves after `p`: 2 after 1, and 1 after anything else. */
  function Opponent(p: int): (q: int)
    ensures IsPlayer(q)
    ensures IsPlayer(p) ==> q != p && q == 3 - p
  {
    if p == 1 then 2 else 1
  }

  predicate WellFormed(g: Grid) {
    |g| == Rows && forall r :: 0 <= r < Rows ==> |g[r]| == Cols
  }

  predicate InRange(row: int, col: int) {
    0 <= row < Rows && 0 <= col < Cols
  }

  /** Every cell holds one of the three cell values. */
  predicate CellsValid(g: Grid)
    requires WellFormed(g)
  {
    forall r, c :: 0 <= r < Rows && 0 <= c < Cols ==> 0 <= g[r][c] <= 2
  }

  /** The board as it is at start-up and after every restart. */
  function EmptyGrid(): (g: Grid)
    ensures WellFormed(g)
    ensures forall r, c :: InRange(r, c) ==> g[r][c] == EmptyCell
  {
    [[0, 0, 0], [0, 0, 0], [0, 0, 0]]
  }

  /** Pixel (x, y) of the window lies on the square in row y / SquareSize, column x / SquareSize. */
  function CellOf(x: int, y: int): (sq: Square)
    requires 0 <= x < Width && 0 <= y < Height
    ensures InRange(sq.row, sq.col)
    ensures sq.row * SquareSize <= y < (sq.row + 1) * SquareSize
    ensures sq.col * SquareSize <= x < (sq.col + 1) * SquareSize
  {
    Square(y / SquareSize, x / SquareSize)
  }

  /** The board after writing `player` into one cell. */
  function Mark(g: Grid, row: int, col: int, player: int): (g': Grid)
    requires WellFormed(g) && InRange(row, col)
    ensures WellFormed(g')
    ensures g'[row][col] == player
    ensures forall r, c :: InRange(r, c) && (r != row || c != col) ==> g'[r][c] == g[r][c]
  {
    g[row := g[row][col := player]]
  }

  /** A cell can be played when nobody has played it yet; a board with a playable cell is not full. */
  function Available(g: Grid, row: int, col: int): (free: bool)
    requires WellFormed(g) && InRange(row, col)
    ensures free <==> g[row][col] == EmptyCell
    ensures free ==> !IsFull(g)
  {
    g[row][col] == EmptyCell
  }

  /** The board is full (a draw unless someone won) when no cell is empty, that is, when it counts no empty cell. */
  function IsFull(g: Grid): (full: bool)
    requires WellFormed(g)
    ensures full <==> Count(g, EmptyCell) == 0
  {
    CountCells(g, EmptyCell);
    forall r, c :: 0 <= r < Rows && 0 <= c < Cols ==> g[r][c] != EmptyCell
  }

  predicate RowFilled(g: Grid, r: int, p: int)
    requires WellFormed(g) && 0 <= r < Rows
  {
    g[r][0] == p && g[r][1] == p && g[r][2] == p
  }

  predicate ColFilled(g: Grid, c: int, p: int)
    requires WellFormed(g) && 0 <= c < Cols
  {
    g[0][c] == p && g[1][c] == p && g[2][c] == p
  }

  predicate DiagonalFilled(g: Grid, p: int)
    requires WellFormed(g)
  {
    g[0][0] == p && g[1][1] == p && g[2][2] == p
  }

  predicate AntiDiagonalFilled(g: Grid, p: int)
    requires WellFormed(g)
  {
    g[0][2] == p && g[1][1] == p && g[2][0] == p
  }

  /** The eight lines of the board, each as its three squares: three rows, three columns, two diagonals. */
  const Lines: seq<seq<Square>> := [
    [Square(0, 0), Square(0, 1), Square(0, 2)],
    [Square(1, 0), Square(1, 1), Square(1, 2)],
    [Square(2, 0), Square(2, 1), Square(2, 2)],
    [Square(0, 0), Square(1, 0), Square(2, 0)],
    [Square(0, 1), Square(1, 1), Square(2, 1)],
    [Square(0, 2), Square(1, 2), Square(2, 2)],
    [Square(0, 0), Square(1, 1), Square(2, 2)],
    [Square(0, 2), Square(1, 1), Square(2, 0)]]

  /** Every square of `line` holds `p`. */
  ghost predicate LineFilled(g: Grid, line: seq<Square>, p: int)
    requires WellFormed(g)
  {
    forall k :: 0 <= k < |line| ==> InRange(line[k].row, line[k].col) && g[line[k].row][line[k].col] == p
  }

  /** `p` holds one of the eight lines: a row, a column or a diagonal. */
  function Wins(g: Grid, p: int): (win: bool)
    requires WellFormed(g)
    ensures win <==> exists i :: 0 <= i < |Lines| && LineFilled(g, Lines[i], p)
  {
    LinesAgree(g, p);
    || (exists r :: 0 <= r < Rows && RowFilled(g, r, p))
    || (exists c :: 0 <= c < Cols && ColFilled(g, c, p))
    || DiagonalFilled(g, p)
    || AntiDiagonalFilled(g, p)
  }

  /** A line of three squares is filled exactly when each of its three squares holds `p`. */
  lemma LineOfThree(g: Grid, line: seq<Square>, p: int)
    requires WellFormed(g) && |line| == 3
    requires InRange(line[0].row, line[0].col) && InRange(line[1].row, line[1].col)
    requires InRange(line[2].row, line[2].col)
    ensures LineFilled(g, line, p)
        <==> && g[line[0].row][line[0].col] == p
             && g[line[1].row][line[1].col] == p
             && g[line[2].row][line[2].col] == p
  {
    if g[line[0].row][line[0].col] == p && g[line[1].row][line[1].col] == p && g[line[2].row][line[2].col] == p {
      forall k | 0 <= k < |line| ensures InRange(line[k].row, line[k].col) && g[line[k].row][line[k].col] == p {
        assert k == 0 || k == 1 || k == 2;
      }
    }
  }

  /** The row, column and diagonal tests are exactly the tests of the eight lines in `Lines`. */
  lemma LinesAgree(g: Grid, p: int)
    requires WellFormed(g)
    ensures (|| (exists r :: 0 <= r < Rows && RowFilled(g, r, p))
             || (exists c :: 0 <= c < Cols && ColFilled(g, c, p))
             || DiagonalFilled(g, p)
             || AntiDiagonalFilled(g, p))
        <==> exists i :: 0 <= i < |Lines| && LineFilled(g, Lines[i], p)
  {
    forall r | 0 <= r < Rows ensures RowFilled(g, r, p) <==> LineFilled(g, Lines[r], p) {
      assert Lines[r] == [Square(r, 0), Square(r, 1), Square(r, 2)];
      LineOfThree(g, Lines[r], p);
    }
    forall c | 0 <= c < Cols ensures ColFilled(g, c, p) <==> LineFilled(g, Lines[3 + c], p) {
      assert Lines[3 + c] == [Square(0, c), Square(1, c), Square(2, c)];
      LineOfThree(g, Lines[3 + c], p);
    }
    LineOfThree(g, Lines[6], p);
    LineOfThree(g, Lines[7], p);
    if exists i :: 0 <= i < |Lines| && LineFilled(g, Lines[i], p) {
      var i :| 0 <= i < |Lines| && LineFilled(g, Lines[i], p);
      if i < 3 {
        assert RowFilled(g, i, p);
      } else if i < 6 {
        assert ColFilled(g, i - 3, p);
      }
    }
  }

  /** Number of entries of a row equal to `p`. */
  function CountIn(s: seq<int>, p: int): nat
  {
    if |s| == 0 then 0 else (if s[0] == p then 1 else 0) + CountIn(s[1..], p)
  }

  /** Number of cells of a board equal to `p`. */
  function Count(g: Grid, p: int): nat
  {
    if |g| == 0 then 0 else CountIn(g[0], p) + Count(g[1..], p)
  }

  lemma {:induction false} CountInUpdate(s: seq<int>, i: int, v: int, p: int)
    requires 0 <= i < |s|
    ensures CountIn(s[i := v], p)
         == CountIn(s, p) - (if s[i] == p then 1 else 0) + (if v == p then 1 else 0)
  {
    if i > 0 {
      assert s[i := v][1..] == s[1..][i - 1 := v];
      CountInUpdate(s[1..], i - 1, v, p);
    } else {
      assert s[i := v][1..] == s[1..];
    }
  }

  lemma {:induction false} CountUpdate(g: Grid, i: int, row: seq<int>, p: int)
    requires 0 <= i < |g|
    ensures Count(g[i := row], p) == Count(g, p) - CountIn(g[i], p) + CountIn(row, p)
  {
    if i > 0 {
      assert g[i := row][1..] == g[1..][i - 1 := row];
      CountUpdate(g[1..], i - 1, row, p);
    } else {
      assert g[i := row][1..] == g[1..];
    }
  }

  /** Writing `v` into one cell moves exactly that cell from its old value's count to `v`'s. */
  lemma MarkCount(g: Grid, row: int, col: int, v: int, p: int)
    requires WellFormed(g) && InRange(row, col)
    ensures Count(Mark(g, row, col, v), p)
         == Count(g, p) - (if g[row][col] == p then 1 else 0) + (if v == p then 1 else 0)
  {
    CountUpdate(g, row, g[row][col := v], p);
    CountInUpdate(g[row], col, v, p);
  }

  /** A board of three rows counts, row by row, the cells of each (so the sum of three row counts). */
  lemma CountThreeRows(g: Grid, p: int)
    requires WellFormed(g)
    ensures Count(g, p) == CountIn(g[0], p) + CountIn(g[1], p) + CountIn(g[2], p)
  {
    var g1 := g[1..];
    var g2 := g1[1..];
    assert g1[0] == g[1] && g2[0] == g[2] && g2[1..] == [];
    assert Count(g2, p) == CountIn(g[2], p) + Count(g2[1..], p);
  }

  /** A row of three counts its three entries. */
  lemma CountInThree(s: seq<int>, p: int)
    requires |s| == 3
    ensures CountIn(s, p)
         == (if s[0] == p then 1 else 0) + (if s[1] == p then 1 else 0) + (if s[2] == p then 1 else 0)
  {
    var s1 := s[1..];
    var s2 := s1[1..];
    assert s1[0] == s[1] && s2[0] == s[2] && s2[1..] == [];
    assert CountIn(s2, p) == (if s[2] == p then 1 else 0) + CountIn(s2[1..], p);
  }

  /** Counting the nine cells one by one. */
  lemma CountCells(g: Grid, p: int)
    requires WellFormed(g)
    ensures Count(g, p)
         == (if g[0][0] == p then 1 else 0) + (if g[0][1] == p then 1 else 0) + (if g[0][2] == p then 1 else 0)
          + (if g[1][0] == p then 1 else 0) + (if g[1][1] == p then 1 else 0) + (if g[1][2] == p then 1 else 0)
          + (if g[2][0] == p then 1 else 0) + (if g[2][1] == p then 1 else 0) + (if g[2][2] == p then 1 else 0)
  {
    CountThreeRows(g, p);
    CountInThree(g[0], p);
    CountInThree(g[1], p);
    CountInThree(g[2], p);
  }

  /** The empty board has nine cells of value 0 and none of any other value. */
  lemma EmptyGridCount(p: int)
    ensures Count(EmptyGrid(), p) == if p == EmptyCell then 9 else 0
  {
    CountCells(EmptyGrid(), p);
  }

  /** Holding a line takes at least three marks. */
  lemma WinNeedsThreeMarks(g: Grid, p: int)
    requires WellFormed(g) && Wins(g, p)
    ensures Count(g, p) >= 3
  {
    CountCells(g, p);
  }

  /** A cleared board is neither full nor won by either player. */
  lemma EmptyGridIsClear()
    ensures !IsFull(EmptyGrid())
    ensures !Wins(EmptyGrid(), 1) && !Wins(EmptyGrid(), 2)
  {
    assert EmptyGrid()[0][0] == EmptyCell;
  }

  /** The line test taken with `p` = 0 would report a win on the empty board: the program only asks it for players 1 and 2. */
  lemma EmptyGridWinsForZero()
    ensures Wins(EmptyGrid(), EmptyCell)
  {
    assert RowFilled(EmptyGrid(), 0, EmptyCell);
  }

  /** Marking a cell for `p` never completes a line for a different value `q`. */
  lemma MarkKeepsOthersFromWinning(g: Grid, row: int, col: int, p: int, q: int)
    requires WellFormed(g) && InRange(row, col) && p != q
    requires !Wins(g, q)
    ensures !Wins(Mark(g, row, col, p), q)
  {
    var g' := Mark(g, row, col, p);
    forall r | 0 <= r < Rows ensures !RowFilled(g', r, q) {
      assert !RowFilled(g, r, q);
    }
    forall c | 0 <= c < Cols ensures !ColFilled(g', c, q) {
      assert !ColFilled(g, c, q);
    }
  }
}

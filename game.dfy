/**
 The game as the program runs it: the board is a 3x3 array written in place,
 and the counters of the main loop are fields updated event by event. Each
 event handler is proved to move the game from its abstract state `State()` to
 the state the matching function of module Round computes; the board-level
 methods are proved against the functions of module Board on `Cells()`.
 */
module Morpion {
  import opened Board
  import opened Round

  class Game {
    var board: array2<int>
    var currentPlayer: int
    var gameFinished: bool
    var scorePlayer1: nat
    var scorePlayer2: nat
    var startingPlayer: int
    var winner: int

    predicate HasBoardShape()
      reads this
    {
      board.Length0 == Rows && board.Length1 == Cols
    }

    /** The board as a list of rows. */
    ghost function Cells(): (g: Grid)
      reads this, board
      requires HasBoardShape()
      ensures WellFormed(g)
      ensures forall r, c :: InRange(r, c) ==> g[r][c] == board[r, c]
    {
      [[board[0, 0], board[0, 1], board[0, 2]],
       [board[1, 0], board[1, 1], board[1, 2]],
       [board[2, 0], board[2, 1], board[2, 2]]]
    }

    ghost function State(): Round.State
      reads this, board
      requires HasBoardShape()
    {
      Round.State(Cells(), currentPlayer, startingPlayer, scorePlayer1, scorePlayer2, winner, gameFinished)
    }

    ghost predicate Valid()
      reads this, board
    {
      HasBoardShape() && Inv(State())
    }

    /** The start-up state: an empty board, player 1 to move and to open, no points. */
    constructor ()
      ensures Valid() && fresh(board)
      ensures State() == Init()
    {
      board := new int[Rows, Cols]((_, _) => EmptyCell);
      currentPlayer := 1;
      gameFinished := false;
      scorePlayer1 := 0;
      scorePlayer2 := 0;
      startingPlayer := 1;
      winner := 0;
      new;
      assert Cells() == EmptyGrid();
    }

    /** Write `player` into one cell; the other eight cells keep their values. */
    method MarkSquare(row: int, col: int, player: int)
      requires HasBoardShape() && InRange(row, col)
      modifies board
      ensures board[row, col] == player
      ensures forall r, c :: InRange(r, c) && (r != row || c != col) ==> board[r, c] == old(board[r, c])
      ensures Cells() == Mark(old(Cells()), row, col, player)
    {
      board[row, col] := player;
      ghost var g := Mark(old(Cells()), row, col, player);
      forall r | 0 <= r < Rows ensures Cells()[r] == g[r] {
        assert forall c :: 0 <= c < Cols ==> Cells()[r][c] == g[r][c];
      }
    }

    /** Whether the cell may still be played. */
    function AvailableSquare(row: int, col: int): (free: bool)
      reads this, board
      requires HasBoardShape() && InRange(row, col)
      ensures free <==> Available(Cells(), row, col)
    {
      board[row, col] == EmptyCell
    }

    /** Scan the rows for an empty cell. */
    method IsBoardFull() returns (full: bool)
      requires HasBoardShape()
      ensures full <==> IsFull(Cells())
    {
      for row := 0 to Rows
        invariant forall r, c :: 0 <= r < row && 0 <= c < Cols ==> board[r, c] != EmptyCell
      {
        if exists c :: 0 <= c < Cols && board[row, c] == EmptyCell {
          return false;
        }
      }
      return true;
    }

    /** Try the three rows, the three columns and the two diagonals in turn. */
    method CheckWin(player: int) returns (win: bool)
      requires HasBoardShape()
      ensures win <==> Wins(Cells(), player)
    {
      ghost var g := Cells();
      for row := 0 to Rows
        invariant forall r :: 0 <= r < row ==> !RowFilled(g, r, player)
      {
        if board[row, 0] == player && board[row, 1] == player && board[row, 2] == player {
          assert RowFilled(g, row, player);
          return true;
        }
      }
      for col := 0 to Cols
        invariant forall c :: 0 <= c < col ==> !ColFilled(g, c, player)
      {
        if board[0, col] == player && board[1, col] == player && board[2, col] == player {
          assert ColFilled(g, col, player);
          return true;
        }
      }
      if board[0, 0] == player && board[1, 1] == player && board[2, 2] == player {
        return true;
      }
      if board[0, 2] == player && board[1, 1] == player && board[2, 0] == player {
        return true;
      }
      return false;
    }

    /** Empty every cell. */
    method Restart()
      requires HasBoardShape()
      modifies board
      ensures Cells() == EmptyGrid()
    {
      for row := 0 to Rows
        invariant forall r, c :: 0 <= r < row && 0 <= c < Cols ==> board[r, c] == EmptyCell
      {
        for col := 0 to Cols
          invariant forall r, c :: 0 <= r < row && 0 <= c < Cols ==> board[r, c] == EmptyCell
          invariant forall c :: 0 <= c < col ==> board[row, c] == EmptyCell
        {
          board[row, col] := EmptyCell;
        }
      }
    }

    /** A mouse button press at pixel (x, y) of the window. */
    method HandleClick(x: int, y: int)
      requires Valid() && 0 <= x < Width && 0 <= y < Height
      modifies this, board
      ensures board == old(board) && Valid()
      ensures State() == Click(old(State()), x, y)
    {
      ghost var s := State();
      ghost var r := Click(s, x, y);
      ClickKeepsInv(s, x, y);
      if !gameFinished {
        var clickedRow := y / SquareSize;
        var clickedCol := x / SquareSize;
        assert Square(clickedRow, clickedCol) == CellOf(x, y);
        if AvailableSquare(clickedRow, clickedCol) {
          ghost var b := Mark(s.board, clickedRow, clickedCol, s.current);
          assert r.board == b && r.current == Opponent(s.current);
          MarkSquare(clickedRow, clickedCol, currentPlayer);
          assert Cells() == b;
          var won := CheckWin(currentPlayer);
          assert won == Wins(b, s.current);
          if won {
            gameFinished := true;
            winner := currentPlayer;
            if currentPlayer == 1 {
              scorePlayer1 := scorePlayer1 + 1;
            } else {
              scorePlayer2 := scorePlayer2 + 1;
            }
          }
          currentPlayer := if currentPlayer == 1 then 2 else 1;
          assert State() == r;
        } else {
          assert r == s;
        }
      } else {
        assert r == s;
      }
    }

    /** The R key. */
    method HandleRestartKey()
      requires Valid()
      modifies this, board
      ensures board == old(board) && Valid()
      ensures State() == RestartRound(old(State()))
    {
      ghost var s := State();
      RestartKeepsInv(s);
      Restart();
      gameFinished := false;
      startingPlayer := if startingPlayer == 1 then 2 else 1;
      currentPlayer := startingPlayer;
    }

    /** The checks after the frame's events: record a draw, then close a decided round. */
    method EndFrame()
      requires Valid()
      modifies this, board
      ensures board == old(board) && Valid()
      ensures State() == EndOfFrame(old(State()))
    {
      ghost var s := State();
      EndOfFrameKeepsInv(s);
      var full := IsBoardFull();
      if full && !gameFinished {
        gameFinished := true;
        winner := 0;
      }
      if gameFinished {
        Restart();
        gameFinished := false;
        winner := 0;
        startingPlayer := if startingPlayer == 1 then 2 else 1;
        currentPlayer := startingPlayer;
      }
    }

    method HandleEvent(e: Event)
      requires Valid() && InWindow(e)
      modifies this, board
      ensures board == old(board) && Valid()
      ensures State() == Step(old(State()), e)
    {
      match e
      case MouseDown(x, y) => HandleClick(x, y);
      case RestartKey => HandleRestartKey();
      case OtherEvent =>
    }

    /** One pass of the main loop over the events polled for this frame. */
    method RunFrame(events: seq<Event>)
      requires Valid() && forall i :: 0 <= i < |events| ==> InWindow(events[i])
      modifies this, board
      ensures board == old(board) && Valid() && !gameFinished
      ensures State() == Frame(old(State()), events)
    {
      for i := 0 to |events|
        invariant board == old(board) && Valid()
        invariant State() == Steps(old(State()), events[..i])
      {
        assert events[..i + 1][..i] == events[..i];
        HandleEvent(events[i]);
      }
      assert events[..|events|] == events;
      EndFrame();
    }
  }
}

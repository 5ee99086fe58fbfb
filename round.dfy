/**
 The round state machine that the program's main loop runs, as pure functions
 from the game state before an event to the state after it. The events are a
 mouse button press at a pixel of the window, the R (restart) key, any other
 event, and the check that ends every frame of the loop.
 */
module Round {
  import opened Board

  /** Everything the main loop keeps between events. */
  datatype State = State(
    board: Grid,
    current: int,    // the player whose turn it is
    starting: int,   // the player who opened the running round
    score1: nat,
    score2: nat,
    winner: int,     // who won the round just decided (0 for a draw)
    finished: bool)  // the round is decided and waits for the end of the frame

  datatype Event = MouseDown(x: int, y: int) | RestartKey | OtherEvent

  /** The window only reports presses on its own pixels. */
  predicate InWindow(e: Event) {
    e.MouseDown? ==> 0 <= e.x < Width && 0 <= e.y < Height
  }

  function ScoreOf(s: State, p: int): nat {
    if p == 1 then s.score1 else s.score2
  }

  /** The state the program starts in. */
  function Init(): (s: State)
    ensures Inv(s) && !s.finished
    ensures s.board == EmptyGrid() && s.current == s.starting == 1
    ensures s.score1 == s.score2 == 0 && s.winner == 0
  {
    EmptyGridCount(1);
    EmptyGridCount(2);
    EmptyGridIsClear();
    State(EmptyGrid(), 1, 1, 0, 0, 0, false)
  }

  /**
   The invariant every reachable state keeps: the cells are valid, the
   starting player has played as often as the other one or once more,
   depending on whose turn it is, nobody holds a line while a round is on,
   and a decided round is either won by `winner` or a draw on a full board.
   */
  ghost predicate Inv(s: State) {
    && WellFormed(s.board)
    && CellsValid(s.board)
    && IsPlayer(s.current) && IsPlayer(s.starting)
    && 0 <= s.winner <= 2
    && Count(s.board, s.starting)
       == Count(s.board, Opponent(s.starting)) + (if s.current == s.starting then 0 else 1)
    && (!s.finished ==> !Wins(s.board, 1) && !Wins(s.board, 2))
    && (s.finished ==>
          (s.winner != 0 && Wins(s.board, s.winner)) || (s.winner == 0 && IsFull(s.board)))
  }

  /** A press on the square under pixel (x, y): the current player plays it if the round is on and the square is free. */
  function Click(s: State, x: int, y: int): (r: State)
    requires WellFormed(s.board) && 0 <= x < Width && 0 <= y < Height
    ensures WellFormed(r.board)
  {
    if s.finished then s
    else
      var sq := CellOf(x, y);
      if !Available(s.board, sq.row, sq.col) then s
      else
        var b := Mark(s.board, sq.row, sq.col, s.current);
        var won := Wins(b, s.current);
        State(b, Opponent(s.current), s.starting,
              if won && s.current == 1 then s.score1 + 1 else s.score1,
              if won && s.current != 1 then s.score2 + 1 else s.score2,
              if won then s.current else s.winner,
              won)
  }

  /** The R key: clear the board, reopen the round, and hand the opening move to the other player. */
  function RestartRound(s: State): (r: State)
    ensures WellFormed(r.board)
  {
    var next := Opponent(s.starting);
    s.(board := EmptyGrid(), finished := false, starting := next, current := next)
  }

  /** First half of the end-of-frame check: a full board with no recorded win is a draw. */
  function CheckDraw(s: State): (r: State)
    requires WellFormed(s.board)
    ensures WellFormed(r.board)
  {
    if IsFull(s.board) && !s.finished then s.(finished := true, winner := 0) else s
  }

  /** Second half of the end-of-frame check: a decided round is cleared and the other player opens the next one. */
  function CloseRound(s: State): (r: State)
    ensures WellFormed(s.board) ==> WellFormed(r.board)
  {
    if s.finished then
      var next := Opponent(s.starting);
      s.(board := EmptyGrid(), finished := false, winner := 0, starting := next, current := next)
    else s
  }

  function EndOfFrame(s: State): (r: State)
    requires WellFormed(s.board)
    ensures WellFormed(r.board) && !r.finished
  {
    CloseRound(CheckDraw(s))
  }

  function Step(s: State, e: Event): (r: State)
    requires WellFormed(s.board) && InWindow(e)
    ensures WellFormed(r.board)
  {
    match e
    case MouseDown(x, y) => Click(s, x, y)
    case RestartKey => RestartRound(s)
    case OtherEvent => s
  }

  /** The events of one frame, handled in order. */
  function Steps(s: State, es: seq<Event>): (r: State)
    requires WellFormed(s.board) && forall i :: 0 <= i < |es| ==> InWindow(es[i])
    ensures WellFormed(r.board)
    decreases |es|
  {
    if es == [] then s else Step(Steps(s, es[..|es| - 1]), es[|es| - 1])
  }

  /** One pass of the main loop: the frame's events, then the end-of-frame check. */
  function Frame(s: State, es: seq<Event>): (r: State)
    requires WellFormed(s.board) && forall i :: 0 <= i < |es| ==> InWindow(es[i])
    ensures WellFormed(r.board) && !r.finished
  {
    EndOfFrame(Steps(s, es))
  }

  // ---------------------------------------------------------------------------
  // What one click does

  /** A press changes nothing while the round is decided or on a taken square; otherwise it changes the board. */
  lemma ClickIgnoredIff(s: State, x: int, y: int)
    requires Inv(s) && 0 <= x < Width && 0 <= y < Height
    ensures var sq := CellOf(x, y);
      Click(s, x, y) == s <==> s.finished || !Available(s.board, sq.row, sq.col)
  {
    var sq := CellOf(x, y);
    if !s.finished && Available(s.board, sq.row, sq.col) {
      assert Click(s, x, y).board[sq.row][sq.col] != s.board[sq.row][sq.col];
    }
  }

  /** A played press writes the mover's mark into the pressed square only, and passes the turn. */
  lemma ClickPlays(s: State, x: int, y: int)
    requires Inv(s) && 0 <= x < Width && 0 <= y < Height
    requires var sq := CellOf(x, y); !s.finished && Available(s.board, sq.row, sq.col)
    ensures var sq := CellOf(x, y); var r := Click(s, x, y);
      && r.board[sq.row][sq.col] == s.current
      && (forall i, j :: InRange(i, j) && (i != sq.row || j != sq.col) ==> r.board[i][j] == s.board[i][j])
      && r.current == Opponent(s.current) && r.current != s.current
      && r.starting == s.starting
  {
  }

  /**
   A played press that completes a line for the mover decides the round for
   the mover and raises the mover's score, and only that score, by one; any
   other played press leaves scores, winner and the open round as they were.
   */
  lemma ClickScores(s: State, x: int, y: int)
    requires Inv(s) && 0 <= x < Width && 0 <= y < Height
    requires var sq := CellOf(x, y); !s.finished && Available(s.board, sq.row, sq.col)
    ensures var r := Click(s, x, y); var q := Opponent(s.current);
      if Wins(r.board, s.current) then
        && r.finished && r.winner == s.current
        && ScoreOf(r, s.current) == ScoreOf(s, s.current) + 1
        && ScoreOf(r, q) == ScoreOf(s, q)
      else
        && !r.finished && r.winner == s.winner
        && r.score1 == s.score1 && r.score2 == s.score2
  {
  }

  /** Scores move only when a press decides a round, and then by exactly one point in all. */
  lemma ClickScoreTotal(s: State, x: int, y: int)
    requires Inv(s) && 0 <= x < Width && 0 <= y < Height
    ensures var r := Click(s, x, y);
      r.score1 + r.score2 == s.score1 + s.score2 + (if r.finished && !s.finished then 1 else 0)
  {
  }

  lemma ClickKeepsInv(s: State, x: int, y: int)
    requires Inv(s) && 0 <= x < Width && 0 <= y < Height
    ensures Inv(Click(s, x, y))
  {
    var sq := CellOf(x, y);
    if !s.finished && Available(s.board, sq.row, sq.col) {
      var b := Mark(s.board, sq.row, sq.col, s.current);
      MarkCount(s.board, sq.row, sq.col, s.current, s.starting);
      MarkCount(s.board, sq.row, sq.col, s.current, Opponent(s.starting));
      MarkKeepsOthersFromWinning(s.board, sq.row, sq.col, s.current, Opponent(s.current));
    }
  }

  // ---------------------------------------------------------------------------
  // Restarting and ending rounds

  /** R clears the board and reopens the round with the other opener to move; scores and `winner` are kept. */
  lemma RestartEffect(s: State)
    ensures var r := RestartRound(s);
      && r.board == EmptyGrid() && !IsFull(r.board) && !r.finished
      && r.starting == Opponent(s.starting) && r.current == r.starting
      && r.score1 == s.score1 && r.score2 == s.score2 && r.winner == s.winner
  {
    EmptyGridIsClear();
  }

  lemma RestartKeepsInv(s: State)
    requires Inv(s)
    ensures Inv(RestartRound(s))
  {
    EmptyGridCount(s.starting);
    EmptyGridCount(Opponent(s.starting));
    EmptyGridIsClear();
  }

  /**
   A full board is recorded as a draw only while no win is recorded: then the
   round is decided with winner 0 and no score changes. A recorded win is left
   as it is, and an unfinished board that is not full stays open.
   */
  lemma DrawOnlyWithoutWin(s: State)
    requires Inv(s)
    ensures var r := CheckDraw(s);
      && r.board == s.board && r.score1 == s.score1 && r.score2 == s.score2
      && r.current == s.current && r.starting == s.starting
      && (r.finished && !s.finished <==> IsFull(s.board) && !s.finished)
      && (r.finished && !s.finished ==> r.winner == 0)
      && (s.finished ==> r == s)
      && (!IsFull(s.board) ==> r == s)
  {
  }

  /** A press on the last free square that completes a line stays a win after the draw check. */
  lemma WinOnLastSquareStaysWin(s: State, x: int, y: int)
    requires Inv(s) && 0 <= x < Width && 0 <= y < Height
    requires var sq := CellOf(x, y);
      && !s.finished && Available(s.board, sq.row, sq.col)
      && (forall i, j :: InRange(i, j) && (i != sq.row || j != sq.col) ==> s.board[i][j] != EmptyCell)
      && Wins(Mark(s.board, sq.row, sq.col, s.current), s.current)
    ensures var r := CheckDraw(Click(s, x, y));
      && IsFull(r.board) && r.finished && r.winner == s.current
      && ScoreOf(r, s.current) == ScoreOf(s, s.current) + 1
  {
    ClickScores(s, x, y);
  }

  /** Closing a decided round clears the board, resets `winner` and the flag, and alternates the opener; scores stay. */
  lemma CloseRoundEffect(s: State)
    ensures var r := CloseRound(s);
      if s.finished then
        && r.board == EmptyGrid() && !r.finished && r.winner == 0
        && r.starting == Opponent(s.starting) && r.current == r.starting
        && r.score1 == s.score1 && r.score2 == s.score2
      else r == s
  {
  }

  lemma EndOfFrameKeepsInv(s: State)
    requires Inv(s)
    ensures Inv(EndOfFrame(s))
  {
    var d := CheckDraw(s);
    assert Inv(d);
    if d.finished {
      RestartKeepsInv(d);
      assert CloseRound(d) == RestartRound(d).(winner := 0);
    }
  }

  lemma StepKeepsInv(s: State, e: Event)
    requires Inv(s) && InWindow(e)
    ensures Inv(Step(s, e))
  {
    match e
    case MouseDown(x, y) => ClickKeepsInv(s, x, y);
    case RestartKey => RestartKeepsInv(s);
    case OtherEvent =>
  }

  lemma {:induction false} StepsKeepInv(s: State, es: seq<Event>)
    requires Inv(s) && forall i :: 0 <= i < |es| ==> InWindow(es[i])
    ensures Inv(Steps(s, es))
    decreases |es|
  {
    if es != [] {
      StepsKeepInv(s, es[..|es| - 1]);
      StepKeepsInv(Steps(s, es[..|es| - 1]), es[|es| - 1]);
    }
  }

  /** Every frame starts and ends in a reachable state, with no round left decided. */
  lemma FrameKeepsInv(s: State, es: seq<Event>)
    requires Inv(s) && forall i :: 0 <= i < |es| ==> InWindow(es[i])
    ensures Inv(Frame(s, es)) && !Frame(s, es).finished
  {
    StepsKeepInv(s, es);
    EndOfFrameKeepsInv(Steps(s, es));
  }

  // ---------------------------------------------------------------------------
  // Consequences of the invariant

  /** Turns alternate strictly: it is the opener's turn exactly when an even number of marks is down. */
  lemma TurnParity(s: State)
    requires Inv(s)
    ensures s.current == s.starting <==> (Count(s.board, 1) + Count(s.board, 2)) % 2 == 0
    ensures Count(s.board, 1) - Count(s.board, 2) in {-1, 0, 1}
  {
  }

  /** Nobody can hold a line before five marks are down. */
  lemma NoWinBeforeFiveMarks(s: State, p: int)
    requires Inv(s) && IsPlayer(p) && Wins(s.board, p)
    ensures Count(s.board, 1) + Count(s.board, 2) >= 5
  {
    WinNeedsThreeMarks(s.board, p);
  }
}

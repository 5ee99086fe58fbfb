# Morpion (tic-tac-toe) game logic in Dafny

This project models the game logic of a two-player, same-screen morpion
(tic-tac-toe) program. The board is a 3x3 grid. Each cell holds 0 (empty),
1 (player 1, drawn as O) or 2 (player 2, drawn as X). Players click squares
in turn. A player who completes a row, a column or a diagonal wins the round
and scores a point. A full board with no win is a draw. Each round ends with a
cleared board, and the other player opens the next round. The R key restarts
the round by hand.

The project has three modules:

- `Board` (board.dfy): the grid as a list of rows (`seq<seq<int>>`), the
  queries the game makes of it (`Available`, `IsFull`, `Wins`), writing one
  cell (`Mark`), cell counts, and the map from a window pixel to a square
  (`CellOf`).
- `Round` (round.dfy): the main loop's round state machine as pure functions.
  There is one function per event: a mouse press (`Click`), the R key
  (`RestartRound`), and the end-of-frame check (`CheckDraw`, then `CloseRound`).
  `Steps` and `Frame` run one frame's events in order. `Inv` is an invariant
  that every reachable state keeps, and the lemmas state what each event does.
- `Morpion` (game.dfy): the program as it runs. The class `Game` keeps the
  board as a 3x3 `array2<int>` written in place. The loop's counters
  (`currentPlayer`, `startingPlayer`, the two scores, `winner`,
  `gameFinished`) are fields. Each event handler (`HandleClick`,
  `HandleRestartKey`, `EndFrame`, `HandleEvent`, `RunFrame`) is proved to move
  the abstract state `State()` exactly as the matching `Round` function does,
  and to keep `Valid()`. `Valid()` includes `Round.Inv`. The board-level
  methods work on the board as a list of rows, `Cells()`. `MarkSquare` and
  `Restart` are proved to turn it into `Board.Mark` of the old board and into
  `Board.EmptyGrid()`. The queries `AvailableSquare`, `IsBoardFull` and
  `CheckWin` change nothing and are proved to agree with `Board.Available`,
  `Board.IsFull` and `Board.Wins`.

`Round.Inv` says four things. Every cell holds 0, 1 or 2. Depending on whose
turn it is, the opening player has the same number of marks as the other
player or one more. Nobody holds a line while a round is open. A decided
round is either won by `winner` or a draw on a full board.

## Model

| member | source | states |
|---|---|---|
| `Board.Opponent` | Projet_Pygame_ABAKAR_Oumar_Adam_L2CS/morpion.py:184 | the turn flip always gives a player; for a player p it gives the other player, 3 - p |
| `Board.EmptyGrid` | Projet_Pygame_ABAKAR_Oumar_Adam_L2CS/morpion.py:40 | the initial board is 3x3 and every cell is empty |
| `Board.CellOf` | Projet_Pygame_ABAKAR_Oumar_Adam_L2CS/morpion.py:164-165 | a pixel (x, y) with 0 <= x, y < 600 maps to a square with row and column in 0..2; the square's 200-pixel band contains y (rows) and x (columns) |
| `Board.Mark` | Projet_Pygame_ABAKAR_Oumar_Adam_L2CS/morpion.py:73-75 | the marked cell holds the player; the other eight cells keep their values; the board stays 3x3 |
| `Board.MarkCount` | Projet_Pygame_ABAKAR_Oumar_Adam_L2CS/morpion.py:73-75 | writing a cell moves exactly one cell from its old value's count to the new value's count |
| `Board.Available` | Projet_Pygame_ABAKAR_Oumar_Adam_L2CS/morpion.py:77-79 | a cell is free exactly when it holds 0, and a board with a free cell is not full |
| `Board.IsFull` | Projet_Pygame_ABAKAR_Oumar_Adam_L2CS/morpion.py:81-86 | no cell holds 0; equivalently, the board's count of empty cells is zero |
| `Board.Wins` | Projet_Pygame_ABAKAR_Oumar_Adam_L2CS/morpion.py:88-103 | the row, column and diagonal tests hold exactly when one of the eight listed lines (three rows, three columns, two diagonals) is all `p` |
| `Board.WinNeedsThreeMarks` | Projet_Pygame_ABAKAR_Oumar_Adam_L2CS/morpion.py:88-103 | a player who holds a line has at least three marks on the board |
| `Board.EmptyGridIsClear` | Projet_Pygame_ABAKAR_Oumar_Adam_L2CS/morpion.py:105-112 | a cleared board is not full, and neither player 1 nor player 2 wins on it |
| `Board.EmptyGridWinsForZero` | Projet_Pygame_ABAKAR_Oumar_Adam_L2CS/morpion.py:88-103 | the line test asked for value 0 reports a win on the empty board; the game asks it only for players 1 and 2 |
| `Board.MarkKeepsOthersFromWinning` | Projet_Pygame_ABAKAR_Oumar_Adam_L2CS/morpion.py:88-103 | marking a cell for p never completes a line for any other value q |
| `Round.Init` | Projet_Pygame_ABAKAR_Oumar_Adam_L2CS/morpion.py:137-142 | the start state is an empty board with player 1 to move and to open, both scores 0, `winner` 0, and a round open; it satisfies the invariant |
| `Round.Click` | Projet_Pygame_ABAKAR_Oumar_Adam_L2CS/morpion.py:160-184 | a press keeps the board 3x3; what it does to the state is stated by `ClickIgnoredIff`, `ClickPlays` and `ClickScores` |
| `Round.ClickIgnoredIff` | Projet_Pygame_ABAKAR_Oumar_Adam_L2CS/morpion.py:160-168 | a press leaves the state unchanged exactly when the round is decided or the pressed square is taken |
| `Round.ClickPlays` | Projet_Pygame_ABAKAR_Oumar_Adam_L2CS/morpion.py:168-184 | a played press puts the mover's mark in the pressed square and nowhere else, hands the turn to the other player, and keeps the opener |
| `Round.ClickScores` | Projet_Pygame_ABAKAR_Oumar_Adam_L2CS/morpion.py:172-181 | if the move completes a line for the mover, the round is decided, `winner` is the mover, the mover's score rises by 1 and the other score does not change; otherwise the scores, `winner` and the open round stay as they were |
| `Round.ClickScoreTotal` | Projet_Pygame_ABAKAR_Oumar_Adam_L2CS/morpion.py:172-181 | the combined score rises by exactly one when a press decides the round, and does not change otherwise |
| `Round.ClickKeepsInv` | Projet_Pygame_ABAKAR_Oumar_Adam_L2CS/morpion.py:160-184 | a press keeps the invariant: the mark counts stay balanced, no line is held while the round is open, and a decided round is either won by `winner` or a draw on a full board |
| `Round.RestartRound` | Projet_Pygame_ABAKAR_Oumar_Adam_L2CS/morpion.py:187-192 | the R key keeps the board 3x3; its effect is stated by `RestartEffect` |
| `Round.RestartEffect` | Projet_Pygame_ABAKAR_Oumar_Adam_L2CS/morpion.py:187-192 | R clears the board so that it is not full, reopens the round, flips the opener, makes the new opener the player to move, and keeps both scores and `winner` |
| `Round.RestartKeepsInv` | Projet_Pygame_ABAKAR_Oumar_Adam_L2CS/morpion.py:187-192 | R keeps the invariant |
| `Round.CheckDraw` | Projet_Pygame_ABAKAR_Oumar_Adam_L2CS/morpion.py:195-198 | the draw check keeps the board 3x3; its effect is stated by `DrawOnlyWithoutWin` |
| `Round.DrawOnlyWithoutWin` | Projet_Pygame_ABAKAR_Oumar_Adam_L2CS/morpion.py:195-198 | a draw is newly recorded exactly when the board is full and no result is recorded; it sets `winner` to 0; the board, scores and turn never change; a recorded win, or a board that is not full, is left as it is |
| `Round.WinOnLastSquareStaysWin` | Projet_Pygame_ABAKAR_Oumar_Adam_L2CS/morpion.py:168-198 | a winning press on the last free square is still a win after the draw check: the board is full, `winner` is the mover, and the mover's score has risen by 1 |
| `Round.CloseRound` | Projet_Pygame_ABAKAR_Oumar_Adam_L2CS/morpion.py:201-213 | closing a round keeps a 3x3 board 3x3; its effect is stated by `CloseRoundEffect` |
| `Round.CloseRoundEffect` | Projet_Pygame_ABAKAR_Oumar_Adam_L2CS/morpion.py:201-213 | a decided round is closed: the board is cleared, the flag and `winner` are reset, the opener flips and moves first, and the scores are kept; an open round is left unchanged |
| `Round.EndOfFrame` | Projet_Pygame_ABAKAR_Oumar_Adam_L2CS/morpion.py:195-213 | after the end-of-frame checks, no round is left decided |
| `Round.EndOfFrameKeepsInv` | Projet_Pygame_ABAKAR_Oumar_Adam_L2CS/morpion.py:195-213 | the end-of-frame checks keep the invariant |
| `Round.Step` | Projet_Pygame_ABAKAR_Oumar_Adam_L2CS/morpion.py:153-192 | handling one polled event (a press, the R key, or anything else, which changes nothing) keeps the board 3x3 |
| `Round.StepKeepsInv` | Projet_Pygame_ABAKAR_Oumar_Adam_L2CS/morpion.py:153-192 | handling any event keeps the invariant |
| `Round.Steps` | Projet_Pygame_ABAKAR_Oumar_Adam_L2CS/morpion.py:153-192 | handling a frame's events in order keeps the board 3x3 |
| `Round.StepsKeepInv` | Projet_Pygame_ABAKAR_Oumar_Adam_L2CS/morpion.py:153-192 | any sequence of events keeps the invariant |
| `Round.Frame` | Projet_Pygame_ABAKAR_Oumar_Adam_L2CS/morpion.py:145-213 | after one pass of the main loop, no round is left decided |
| `Round.FrameKeepsInv` | Projet_Pygame_ABAKAR_Oumar_Adam_L2CS/morpion.py:145-213 | every pass of the main loop keeps the invariant and ends with the round open |
| `Round.TurnParity` | Projet_Pygame_ABAKAR_Oumar_Adam_L2CS/morpion.py:137-213 | turns alternate strictly: the opener is to move exactly when an even number of marks is down, and the two players' mark counts differ by at most one |
| `Round.NoWinBeforeFiveMarks` | Projet_Pygame_ABAKAR_Oumar_Adam_L2CS/morpion.py:170-176 | in a reachable state, a player who holds a line means at least five marks are down |
| `Morpion.Game.constructor` | Projet_Pygame_ABAKAR_Oumar_Adam_L2CS/morpion.py:137-142 | the game starts in `Round.Init()` and is valid |
| `Morpion.Game.MarkSquare` | Projet_Pygame_ABAKAR_Oumar_Adam_L2CS/morpion.py:73-75 | in the array, the cell holds the player and the other eight cells keep their old values; the abstract board becomes `Mark` of the old one |
| `Morpion.Game.AvailableSquare` | Projet_Pygame_ABAKAR_Oumar_Adam_L2CS/morpion.py:77-79 | the square is free exactly when `Available` holds of the abstract board, that is, exactly when the cell holds 0 |
| `Morpion.Game.IsBoardFull` | Projet_Pygame_ABAKAR_Oumar_Adam_L2CS/morpion.py:81-86 | the row-by-row scan returns true exactly when no cell of the board is empty |
| `Morpion.Game.CheckWin` | Projet_Pygame_ABAKAR_Oumar_Adam_L2CS/morpion.py:88-103 | the scans of rows, columns and diagonals return true exactly when the player holds one of the eight lines |
| `Morpion.Game.Restart` | Projet_Pygame_ABAKAR_Oumar_Adam_L2CS/morpion.py:105-112 | the nested loops leave every cell empty |
| `Morpion.Game.HandleClick` | Projet_Pygame_ABAKAR_Oumar_Adam_L2CS/morpion.py:160-184 | a mouse press moves the game to `Round.Click` of the old state and keeps it valid |
| `Morpion.Game.HandleRestartKey` | Projet_Pygame_ABAKAR_Oumar_Adam_L2CS/morpion.py:187-192 | the R key moves the game to `Round.RestartRound` of the old state and keeps it valid |
| `Morpion.Game.EndFrame` | Projet_Pygame_ABAKAR_Oumar_Adam_L2CS/morpion.py:195-213 | the end-of-frame checks move the game to `Round.EndOfFrame` of the old state and keep it valid |
| `Morpion.Game.HandleEvent` | Projet_Pygame_ABAKAR_Oumar_Adam_L2CS/morpion.py:153-192 | one polled event moves the game to `Round.Step` of the old state |
| `Morpion.Game.RunFrame` | Projet_Pygame_ABAKAR_Oumar_Adam_L2CS/morpion.py:145-213 | one pass of the main loop moves the game to `Round.Frame` of the old state, keeps it valid, and ends with the round open |

## Left out

- Rendering is not modelled: `draw_lines`, `draw_figures`, `draw_score`, the screen fills, `display_message` (font rendering, the 1200 ms wait) and `pygame.display.update`. None of it changes the game state.
- The console messages on a win and on a draw are not modelled. They have no effect on the state.
- Window and process control are not modelled: `pygame.init`, opening the window, and exiting on the quit event. Events are abstract inputs: `MouseDown(x, y)`, `RestartKey`, and `OtherEvent` for everything else. Any mouse button counts as a press, as in the program.
- Click coordinates are assumed to be inside the 600x600 window (`InWindow`, and `requires` on `Click` and `CellOf`). The program never checks this, because the window reports presses only on its own pixels. Outside the window, Python's `//` rounds down. A coordinate of 600 or more gives an index of 3 or more, and indexing the board raises IndexError. A coordinate from -600 to -1 gives an index from -3 to -1, which Python's negative indexing maps to row or column 0 to 2. A coordinate below -600 raises IndexError. The model excludes all of these.
- The source's module-level globals (`board` and the loop counters) are fields of one `Game` object.
- The colour, line-width and radius constants are not modelled. They matter only for drawing.
- The R key leaves `winner` unchanged, exactly as the program does. Only the end-of-round step resets it. The stale value is never read, because `winner` is used only while a round is decided, and deciding a round always sets it.

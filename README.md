# Connect 4: a verified model of the game engine, the replay and the clock

This project models the core of a desktop Connect 4 game in Dafny:

- **The live engine** (`GameModel`). It keeps a 6 x 7 board in row-major order, with row 0 at the top. It also keeps the player to move, the log of played columns and the result.
  - A click on a cell of the top row drops the mover's chip into the lowest empty cell of that column.
  - The engine then tests for a win, then for a draw, and otherwise passes the turn.
  - The win test looks at the chip just placed. It counts the mover's chips along two opposite rays of at most three steps, on each of four axes.
- **The replay screen** (`ReplayViewModel`). A cursor runs over a stored column log. "Next" drops a chip whose colour comes from the parity of the move number. "Previous" lifts the top chip of the column of the last move shown.
- **The game screen** (`GameViewModel`).
  - It keeps one clock per player, in whole seconds. The clocks run only when the base time is positive.
  - On each tick, one second comes off the running clock. When the turn passes, the player who moved gains the increment.
  - A clock that runs out makes the opponent win on time. A forfeit makes the opponent win by forfeit.
  - When the result changes, the clock stops, the end-of-game banner is set and the game is stored.
- **The stored record** (`GameDbRecord`). It has two display texts: the players line and the result line.

Module layout:

- `Types.dfy`: the players, the results and the settings.
- `Board.dfy`: the board as a sequence of 42 cells, with gravity and with dropping and lifting chips.
- `Win.dfy`: the ray count and the win test, with their meaning as four in a row.
- `Moves.dfy`: the board of a column log, obtained by replaying it.
- `Game.dfy`: the engine, with a specification function of a click and the `GameModel` class over an `array`.
- `Text.dfy`: decimal rendering of integers, as string interpolation prints them.
- `Records.dfy`: the stored game and its texts.
- `Replay.dfy`: the `ReplayViewModel` class.
- `GameView.dfy`: the `GameViewModel` class.

The central invariants:

- The engine's board is always the replay of its column log, and every logged move went into a column that was not full (`Game.GameModel.Valid`).
- The replay screen's board is the replay of the first `currentMoveIndex` stored moves, whenever the stored log is legal (`Replay.ReplayViewModel.Valid`).
- So a full replay of a stored game reproduces the engine's final board. `GameView.GameViewModel.StoredGameReplaysToBoard` states that the last stored game's log is legal and replays to the engine's cells, and `Replay.ReplayViewModel.ApplyNextMove` states that the replay screen shows that replay once the cursor reaches the end.

Where the code differs from what its comments say or what a reader might assume, the model follows the code:

- **Draws.** The engine declares a draw by counting moves (`_moves.Count == 42`), not by scanning the board, although the comment at `Connect4/Models/GameModel.cs:130` speaks of all cells being filled. `Game.DrawOnlyWhenFull` and `Game.GameModel.IsDraw` prove the two agree on every consistent game.
- **Forfeit after the game is over.** Forfeit assigns the result without checking that the game is still in progress. A forfeit after a finished game therefore replaces a different result, shows a new banner and stores the game again. Only the engine's own click handling and the clock tick check for `Unknown`.
- **Replay no-ops.** Dropping into a full column or lifting from an empty one does nothing in the replay; it does not fail.

## Model

| member | source | states |
|---|---|---|
| Types.Opponent | Connect4/ViewModels/ReplayViewModel.cs:179-180 | the opponent of a player is the other colour |
| Types.Winner | Connect4/Models/GameResult.cs:3-13 | a result names a winner exactly when it is neither `Draw` nor `Unknown` (in progress); it names Red exactly for the three Red results and Yellow exactly for the three Yellow results |
| Types.ConnectWin | Connect4/Models/GameModel.cs:89-91 | four in a row by `p` gives the connect result naming `p` as winner |
| Types.TimeWin | Connect4/ViewModels/GameViewModel.cs:169-178 | the on-time result for `p` names `p` as winner and is one of the two on-time results |
| Types.ForfeitWin | Connect4/ViewModels/GameViewModel.cs:188-191 | the forfeit result for `p` names `p` as winner and is one of the two forfeit results |
| Types.DefaultSettings | Connect4/Models/GameSettingsModel.cs:8-12 | fresh settings are untimed (base time <= 0), have no increment, let Red start and use two different names |
| Board.Idx | Connect4/Models/GameModel.cs:116 | cell (r, c) lives at slot r*7+c, which is one of the 42 slots and gives back r and c by division and remainder |
| Board.CreateEmptyBoard | Connect4/ViewModels/ReplayViewModel.cs:129-142 | the two nested loops produce a fresh board of 42 cells, all empty (the same loops initialise the engine, GameModel.cs:55-65) |
| Board.ScanEmpty | Connect4/Models/GameModel.cs:114-120 | scanning up from a row finds an empty cell with only occupied cells below it up to that row, or reports that all those cells are occupied |
| Board.ScanOccupied | Connect4/ViewModels/ReplayViewModel.cs:165-173 | scanning down from a row finds an occupied cell with only empty cells above it down to that row, or reports that all those cells are empty |
| Board.Drop | Connect4/ViewModels/ReplayViewModel.cs:147-158 | dropping keeps the 42 cells; what changes is stated by Board.DropIntoOpenColumn |
| Board.RemoveTop | Connect4/ViewModels/ReplayViewModel.cs:163-174 | lifting keeps the 42 cells; Board.RemoveTopUndoesDrop states what it restores |
| Board.DropIntoOpenColumn | Connect4/Models/GameModel.cs:112-126 | under gravity a column has an empty cell exactly when its top cell is empty; then the chip lands in the lowest empty cell (the one above an occupied cell or the floor) and no other cell changes; a full column is left as it is |
| Board.GravityDrop | Connect4/Models/GameModel.cs:114-120 | dropping a chip keeps every occupied cell above an occupied cell |
| Board.GravityRemoveTop | Connect4/ViewModels/ReplayViewModel.cs:163-174 | lifting the top chip keeps gravity |
| Board.RemoveTopUndoesDrop | Connect4/ViewModels/ReplayViewModel.cs:90-115 | on a board under gravity, lifting the top chip of a column that was not full undoes a drop into it |
| Board.Chips | Connect4/Models/GameModel.cs:128-132 | the number of occupied cells is at most the number of cells |
| Board.ChipsOfFull | Connect4/Models/GameModel.cs:128-132 | a board with every cell occupied has as many chips as cells |
| Board.ChipsAll | Connect4/Models/GameModel.cs:128-132 | a board with as many chips as cells has every cell occupied |
| Win.RayFrom | Connect4/Models/GameModel.cs:148-158 | the run counted from step i holds the player's chips at every step and stops at the board edge, a different cell or step 4 |
| Win.Ray | Connect4/Models/GameModel.cs:145-160 | the ray count is 0..3, every counted step holds the player's chip, and a count below 3 is followed by a step that does not |
| Win.RayUnique | Connect4/Models/GameModel.cs:145-160 | those two properties determine the ray count |
| Win.AxisWinIffLine | Connect4/Models/GameModel.cs:139-142 | on one axis, the two opposite rays sum to 3 or more exactly when four of the player's chips in a line along that axis include the placed chip |
| Win.WinIffConnection | Connect4/Models/GameModel.cs:137-143 | the win test after placing a chip holds exactly when that chip is part of four in a row, column or diagonal |
| Win.HorizontalRunDetected | Connect4/Models/GameModel.cs:140 | four in a row on a row is detected whichever of its four cells was filled last: the chip at (r, c) may be any of the run's four cells |
| Moves.MoverParity | Connect4/ViewModels/ReplayViewModel.cs:94-96 | move i is made by the starting player when i is even and by the opponent when i is odd, which matches strict alternation |
| Moves.Replay | Connect4/ViewModels/ReplayViewModel.cs:90-102 | the board of a column log, built by dropping each column in turn, has 42 cells |
| Moves.ReplaySnoc | Connect4/Models/GameModel.cs:80-84 | logging one more column drops it on the previous board; the longer log is legal exactly when the shorter one is and the column's top cell was empty |
| Moves.ReplayGravity | Connect4/Models/GameModel.cs:114-120 | every replayed board obeys gravity |
| Moves.ReplayChips | Connect4/Models/GameModel.cs:128-132 | a legal log of n moves puts exactly n chips on the board, so n <= 42 |
| Moves.FortyTwoMovesFillTheBoard | Connect4/Models/GameModel.cs:128-132 | after 42 legal moves every cell is occupied |
| Game.DropChipAfterGameOver | Connect4/Models/GameModel.cs:72 | once the result is set, a click changes nothing (board, log, player and result) |
| Game.DropChipIgnoresIllegalClicks | Connect4/Models/GameModel.cs:75-78 | a click below the top row, or on a column whose top cell is occupied, changes nothing |
| Game.DropChipPlacesOneChip | Connect4/Models/GameModel.cs:80-84 | a successful click sets exactly the lowest empty cell of the column to the mover's chip, appends the column to the log and keeps gravity |
| Game.DropChipOutcome | Connect4/Models/GameModel.cs:87-102 | after a successful click the mover wins exactly when the new chip completes four in a row; otherwise a draw exactly when it was the 42nd move; otherwise the turn passes with the result still `Unknown`; the player to move changes exactly when the game goes on |
| Game.PlaceShape | Connect4/Models/GameModel.cs:80-102 | placing sets one cell, logs the column, and passes the turn exactly when the result stays `Unknown` |
| Game.ConsistentAfterDrop | Connect4/Models/GameModel.cs:80-84 | dropping into a column that is not full keeps the board the replay of the extended, still legal log |
| Game.DropChipKeepsInvariant | Connect4/Models/GameModel.cs:70-103 | every click keeps the board the replay of a legal log and, while in progress, the player to move the one whose turn the log says it is |
| Game.DropChipTransitions | Connect4/Models/GameModel.cs:70-103 | a click does nothing, or logs the column and passes the turn, or logs the column and ends the game as a connect win for the mover or a draw |
| Game.DrawOnlyWhenFull | Connect4/Models/GameModel.cs:94-97 | in a consistent game a draw is declared only after 42 moves, with every cell occupied |
| Game.GameModel.constructor | Connect4/Models/GameModel.cs:44-65 | a new engine has an empty board, the starting player to move, result `Unknown` and an empty log |
| Game.GameModel.DropChip | Connect4/Models/GameModel.cs:70-103 | the click updates the array, log, player and result exactly as the click specification says, and keeps the invariant |
| Game.GameModel.SetGameResult | Connect4/Models/GameModel.cs:24-34 | assigning a result changes only the result and reports a change exactly when the value differs, which is when the change is announced |
| Game.GameModel.SwitchPlayer | Connect4/Models/GameModel.cs:105-110 | the player to move becomes the opponent; nothing else changes |
| Game.GameModel.GetLowestEmptyCell | Connect4/Models/GameModel.cs:112-121 | the scan from the bottom row returns the lowest empty row of the column, or none when the column is full |
| Game.GameModel.IsColumnFull | Connect4/Models/GameModel.cs:123-126 | testing the top cell tells, under gravity, whether the column has no empty cell |
| Game.GameModel.IsDraw | Connect4/Models/GameModel.cs:128-132 | the draw test holds exactly when 42 moves were logged and, on a consistent board, exactly when every cell is occupied |
| Game.GameModel.IsWin | Connect4/Models/GameModel.cs:137-143 | the eight ray counts give the win test at the placed chip |
| Game.GameModel.Count | Connect4/Models/GameModel.cs:145-160 | the loop returns 0..3 consecutive chips of the player to move next to the cell in one direction, stopping at the edge or at a different cell |
| Text.NatToString | Connect4/ViewModels/ReplayViewModel.cs:61 | a number prints as a non-empty string of digits without leading zeros |
| Text.IntToString | Connect4/ViewModels/ReplayViewModel.cs:61 | a non-negative number prints as digits; a negative one starts with a minus sign |
| Text.ParseNatToString | Connect4/ViewModels/ReplayViewModel.cs:61 | reading back the printed digits gives the number |
| Text.NatToStringInjective | Connect4/ViewModels/ReplayViewModel.cs:61 | different numbers print differently |
| Records.PlayersText | Connect4/Models/GameDbRecord.cs:35 | the players line is the red name, then " vs ", then the yellow name |
| Records.ResultTextUsesOnlyNames | Connect4/Models/GameDbRecord.cs:38-49 | the result line depends on the settings only through the two names |
| Records.ResultTextShape | Connect4/Models/GameDbRecord.cs:38-49 | the result line is the winner's name followed by " won", " won on time" or " won by forfeit"; a draw gives "Draw" and a game in progress "Unknown result" |
| Records.ResultTextInjective | Connect4/Models/GameDbRecord.cs:38-49 | when the players' names differ, two results give the same line exactly when they are the same result |
| Replay.MoveCounterTextInjective | Connect4/ViewModels/ReplayViewModel.cs:61 | the counter text "Move i / n" determines both i and n |
| Replay.LegalPrefix | Connect4/ViewModels/ReplayViewModel.cs:107-115 | every prefix of a legal log is legal |
| Replay.ReplayStep | Connect4/ViewModels/ReplayViewModel.cs:90-102 | the position after i+1 moves is move i dropped on the position after i moves |
| Replay.UndoStep | Connect4/ViewModels/ReplayViewModel.cs:107-115 | in a legal log, lifting the top chip of move i's column from the position after i+1 moves gives the position after i moves |
| Replay.ReplayViewModel.constructor | Connect4/ViewModels/ReplayViewModel.cs:67-85 | a replay opens on an empty board at move 0, with "Previous" disabled and "Next" enabled exactly when the log is not empty |
| Replay.ReplayViewModel.ApplyNextMove | Connect4/ViewModels/ReplayViewModel.cs:90-102 | "Next" drops the next logged column for the player given by the parity of the move number and advances the cursor; after the last move of a legal log the board is the replay of the whole log, which is the engine's final board |
| Replay.ReplayViewModel.UndoLastMove | Connect4/ViewModels/ReplayViewModel.cs:107-115 | "Previous" lifts the top chip of the last shown move's column and moves the cursor back; for a legal log the board is again the position after that many moves |
| Replay.ReplayViewModel.NextThenPrevious | Connect4/ViewModels/ReplayViewModel.cs:74-82 | "Next" then "Previous", with the next column not full, restores the board and the cursor |
| Replay.ReplayViewModel.DropChip | Connect4/ViewModels/ReplayViewModel.cs:147-158 | the upward scan puts the chip in the lowest empty cell of the column and leaves a full column alone |
| Replay.ReplayViewModel.RemoveTopChip | Connect4/ViewModels/ReplayViewModel.cs:163-174 | the downward scan clears the topmost occupied cell of the column and leaves an empty column alone |
| GameView.CurrentPlayerTextInjective | Connect4/ViewModels/GameViewModel.cs:32 | when the names differ, the turn text "<name>'s turn" tells the two players apart |
| GameView.GameOverTextShape | Connect4/ViewModels/GameViewModel.cs:217-245 | the banner is the winner's name followed by " Won!", " Won on time!" or " Won by forfeit!"; a draw gives "Game ended in a draw!" and `Unknown` gives "Game ended unexpectedly" |
| GameView.GameOverTextInjective | Connect4/ViewModels/GameViewModel.cs:219-245 | when the names differ, the banner tells every result apart |
| GameView.GameViewModel.constructor | Connect4/ViewModels/GameViewModel.cs:72-112 | both clocks start at the base time in seconds; the starting player's clock runs exactly when the base time is positive; the banner is empty, nothing is stored and the game is not over; the engine is new |
| GameView.GameViewModel.GameModelPropertyChanged | Connect4/ViewModels/GameViewModel.cs:125-154 | on a change of the player to move, a running clock gives the increment to the player who just moved and passes to the new mover; on a change of result, the timer and the clock stop and the game ends |
| GameView.GameViewModel.GameEnd | Connect4/ViewModels/GameViewModel.cs:217-250 | the banner shows the result, the game (settings, log, result) is appended to the stored games, and the screen is marked finished |
| GameView.GameViewModel.DropChip | Connect4/ViewModels/GameViewModel.cs:114-118 | a click acts on the engine as its specification says; when the turn passes, nothing is stored and the banner is unchanged, and in a timed game the mover gains the increment and the clock passes on; when the game ends the clock stops and the game is stored; the screen's invariant is kept |
| GameView.GameViewModel.AnnounceChanges | Connect4/Models/GameModel.cs:12-34 | the engine announces the player to move or the result only when the value changed; a change of turn leaves the banner and the stored games alone; the screen's reaction keeps its invariant |
| GameView.GameViewModel.Tick | Connect4/ViewModels/GameViewModel.cs:159-180 | with no running clock or a finished game a tick changes nothing at all (clocks, timer, banner, stored games); otherwise one second comes off the running clock only; at zero or below the opponent wins on time and the game is stored, and above zero the clock keeps running and the banner and stored games stay as they were |
| GameView.GameViewModel.Forfeit | Connect4/ViewModels/GameViewModel.cs:185-192 | the timer stops and the opponent of the player to move wins by forfeit; the game is stored again only when the result changed |
| GameView.GameViewModel.StoredGameReplaysToBoard | Connect4/ViewModels/GameViewModel.cs:202-208 | once the game is over, the last stored game has the engine's column log, that log is legal, and replaying it from the stored starting player gives the engine's final board |

The screen's invariant (`GameView.GameViewModel.Valid`) adds four facts to those stated above:

- While the game is in progress the banner is empty; only the end of the game sets it.
- Only the clock of the player to move runs, and only in a timed game in progress.
- Every stored game has a legal column log, so it can be replayed.
- A player wins on time only in a timed game, with the opponent's clock at zero or below.

## Left out

- Persistence is left out: Entity Framework, SQLite and the history screen's loading and deleting. `SaveGameToDatabase` is modelled as appending the record to the screen's `saved` sequence.
- The JSON encoding of the settings and the column log in the stored record is a library call. The record holds both as plain values.
- The record's `Id`, `PlayedAt` and `PlayedAtText` are left out. They depend on the database and the wall clock.
- `DispatcherTimer` scheduling is left out. The timer is a `timerRunning` flag, and each firing is an explicit call to `Tick`.
- `INotifyPropertyChanged` is left out. The engine's announcements are direct calls to the screen's handler, and notifications that only refresh the display are omitted.
- `RelayCommand` is left out. The can-execute conditions of "Next" and "Previous" are the preconditions of `ApplyNextMove` and `UndoLastMove`.
- Navigation, the views, sound and the WPF value converters are presentation only.
- The `mm:ss` rendering of the clocks depends on culture. `TimeSpan` overflow is not modelled; clocks are unbounded integers of seconds.
- `CellViewModel` objects are reduced to their `State`, a nullable player, stored in one array of 42 cells. Their `Row` and `Column` are the position `r*7+c`.
- The click command's `param is CellViewModel` type test is replaced by passing the row and column of the clicked cell, required to be on the board.
- The declaration of the `PlayerColor` enum is not among the files modelled here. `Types.Player` models it, taking it to have exactly the two values Red and Yellow.
- Game.GameModel.SetGameResult: requires a result other than `Unknown`. The public setter accepts any value. The constructor assigns `Unknown` and the click assigns a connect win or `Draw`; both are modelled inside the engine's own methods. Only time-outs and forfeits go through `SetGameResult`, and they assign a win on time or by forfeit. Assigning `Unknown` after the game ended would break the engine's invariant.
- Replay.ReplayViewModel.constructor: requires every stored column to lie in 0..6. Stored logs come from the engine, and the code does not check columns.
- Replay.ReplayViewModel.Valid: for a stored log that is not legal, it promises only gravity and the cursor bounds. Such a log never comes from the engine.
- Game.GameModel.IsWin: evaluates all eight ray counts, where the code stops at the first axis that wins. `Count` has no side effects, so the result is the same.

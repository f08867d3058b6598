/** The game screen: it owns the engine, keeps a chess-style clock for each
    player when the game is timed, reacts to the engine's change
    notifications, and stores the game when it ends. Clock values are whole
    seconds. */
module GameView {
  import opened Types
  import opened Board
  import opened Moves
  import opened Game
  import opened Records
  import opened Text

  /** The engine property whose change is being announced. */
  datatype ModelProperty = CurrentPlayerChanged | GameResultChanged

  /** "<name of the player to move>'s turn". */
  function CurrentPlayerText(s: GameSettings, p: Player): string {
    PlayerName(s, p) + "'s turn"
  }

  /** The turn text names the player to move: when the players have
      different names, the texts for the two players differ. */
  lemma CurrentPlayerTextInjective(s: GameSettings, p: Player, q: Player)
    requires s.redPlayerName != s.yellowPlayerName
    ensures CurrentPlayerText(s, p) == CurrentPlayerText(s, q) <==> p == q
  {
    if CurrentPlayerText(s, p) == CurrentPlayerText(s, q) {
      CancelEnding(PlayerName(s, p), PlayerName(s, q), "'s turn");
    }
  }

  /** The banner's fixed wording after the winner's name, or the whole
      banner for a draw or an unexpected end. */
  function GameOverWording(r: GameResult): string {
    match r
    case RedWonConnect | YellowWonConnect => " Won!"
    case RedWonOnTime | YellowWonOnTime => " Won on time!"
    case RedWonByForfeit | YellowWonByForfeit => " Won by forfeit!"
    case Draw => "Game ended in a draw!"
    case Unknown => "Game ended unexpectedly"
  }

  /** The banner shown when the game ends. */
  function GameOverText(s: GameSettings, r: GameResult): string {
    match r
    case RedWonConnect => s.redPlayerName + " Won!"
    case YellowWonConnect => s.yellowPlayerName + " Won!"
    case RedWonOnTime => s.redPlayerName + " Won on time!"
    case YellowWonOnTime => s.yellowPlayerName + " Won on time!"
    case RedWonByForfeit => s.redPlayerName + " Won by forfeit!"
    case YellowWonByForfeit => s.yellowPlayerName + " Won by forfeit!"
    case Draw => "Game ended in a draw!"
    case Unknown => "Game ended unexpectedly"
  }

  /** A banner is the winner's name (if any) followed by a wording that
      says how the game ended. */
  lemma GameOverTextShape(s: GameSettings, r: GameResult)
    ensures GameOverText(s, r) == WinnerName(s, r) + GameOverWording(r)
  {
  }

  /** The five banner wordings end differently. */
  lemma GameOverWordingsDiffer(r1: GameResult, r2: GameResult)
    requires GameOverWording(r1)[|GameOverWording(r1)| - 2..] == GameOverWording(r2)[|GameOverWording(r2)| - 2..]
    ensures GameOverWording(r1) == GameOverWording(r2)
  {
  }

  /** The banner tells every result apart, provided the two players have
      different names. */
  lemma GameOverTextInjective(s: GameSettings, r1: GameResult, r2: GameResult)
    requires s.redPlayerName != s.yellowPlayerName
    ensures GameOverText(s, r1) == GameOverText(s, r2) <==> r1 == r2
  {
    if GameOverText(s, r1) == GameOverText(s, r2) {
      GameOverTextShape(s, r1);
      GameOverTextShape(s, r2);
      var w1, w2 := GameOverWording(r1), GameOverWording(r2);
      SameEnding(WinnerName(s, r1), w1, WinnerName(s, r2), w2);
      GameOverWordingsDiffer(r1, r2);
      CancelEnding(WinnerName(s, r1), WinnerName(s, r2), w1);
    }
  }

  /** A game is timed when its base time is positive. */
  predicate Timed(s: GameSettings) {
    s.baseTimeMinutes > 0
  }

  /** A stored column log can be replayed: every move is a column and went
      into a column that was not full. */
  ghost predicate Replayable(rec: GameRecord) {
    ColumnsInRange(rec.moves) && Legal(rec.settings.startingPlayer, rec.moves)
  }

  /** The game screen. */
  class GameViewModel {
    const settings: GameSettings
    const game: GameModel
    /** Remaining time of each player, in seconds. */
    var redTime: int
    var yellowTime: int
    /** Whose clock is running; None when the game is untimed or over. */
    var clockOwner: Option<Player>
    /** The one-second timer is running. */
    var timerRunning: bool
    var isGameOver: bool
    var gameOverText: string
    /** The games written to the history, oldest first. */
    var saved: seq<GameRecord>

    function Clock(p: Player): int
      reads this
    {
      match p
      case Red => redTime
      case Yellow => yellowTime
    }

    /** The screen's own invariant, given the engine's player to move,
        result and column log:
        - the timer runs exactly while some clock runs, and only the clock
          of the player to move runs, only in a timed game in progress;
        - while the game is in progress the clock runs exactly when the game
          is timed, the banner is empty and nothing has been stored;
        - once the game is over the clock is stopped, the banner names the
          result and the last stored game is this one;
        - every stored game can be replayed;
        - a player wins on time only in a timed game, with the opponent's
          clock run out. */
    ghost predicate ScreenValid(current: Player, result: GameResult, moves: seq<int>)
      reads this
    {
      && (timerRunning <==> clockOwner.Some?)
      && (clockOwner.Some? ==> Timed(settings) && result == Unknown && clockOwner.value == current)
      && (result == Unknown ==> (clockOwner.Some? <==> Timed(settings)) && !isGameOver && gameOverText == "" && saved == [])
      && (result != Unknown ==>
            && isGameOver && |saved| > 0
            && saved[|saved| - 1] == GameRecord(settings, moves, result)
            && gameOverText == GameOverText(settings, result))
      && (forall i :: 0 <= i < |saved| ==> Replayable(saved[i]))
      && (forall p :: result == TimeWin(p) ==> Timed(settings) && Clock(Opponent(p)) <= 0)
    }

    /** The engine is consistent and was started with the configured
        player, and the screen agrees with it. */
    ghost predicate Valid()
      reads this, game, game.cells
    {
      && game.Valid()
      && game.startingPlayer == settings.startingPlayer
      && ScreenValid(game.currentPlayer, game.gameResult, game.moves)
    }

    /** Once the game is over, the last stored game replays to the board the
        engine shows: its column log is legal from the configured starting
        player and dropping its columns one by one gives the final cells. */
    lemma StoredGameReplaysToBoard()
      requires Valid() && game.gameResult != Unknown
      ensures |saved| > 0 && saved[|saved| - 1].moves == game.moves
      ensures var rec := saved[|saved| - 1];
        && ColumnsInRange(rec.moves) && Legal(rec.settings.startingPlayer, rec.moves)
        && Replay(rec.settings.startingPlayer, rec.moves) == game.cells[..]
    {
    }

    /** A new game screen: a fresh engine, both clocks at the base time, and
        the starting player's clock running when the game is timed. */
    constructor (s: GameSettings)
      ensures Valid() && fresh(game) && fresh(game.cells) && settings == s
      ensures game.State() == GameState(EmptyBoard(), s.startingPlayer, Unknown, [])
      ensures redTime == s.baseTimeMinutes * 60 && yellowTime == s.baseTimeMinutes * 60
      ensures clockOwner == (if Timed(s) then Some(s.startingPlayer) else None)
      ensures !isGameOver && gameOverText == "" && saved == []
    {
      var g := new GameModel(s.startingPlayer);
      settings := s;
      game := g;
      redTime := s.baseTimeMinutes * 60;
      yellowTime := s.baseTimeMinutes * 60;
      if s.baseTimeMinutes > 0 {
        clockOwner := Some(s.startingPlayer);
        timerRunning := true;
      } else {
        clockOwner := None;
        timerRunning := false;
      }
      isGameOver := false;
      gameOverText := "";
      saved := [];
    }

    /** React to a change announced by the engine. When the player to move
        changed and a clock is running, the player who just moved gains the
        increment and the clock passes to the new player to move. When the
        result changed, the timer stops and the game ends. */
    method GameModelPropertyChanged(property: ModelProperty)
      modifies this
      ensures property == CurrentPlayerChanged ==>
        && saved == old(saved) && isGameOver == old(isGameOver)
        && gameOverText == old(gameOverText) && timerRunning == old(timerRunning)
        && match old(clockOwner)
           case None => clockOwner == None && redTime == old(redTime) && yellowTime == old(yellowTime)
           case Some(p) =>
             && clockOwner == Some(game.currentPlayer)
             && Clock(p) == old(Clock(p)) + settings.incrementSeconds
             && Clock(Opponent(p)) == old(Clock(Opponent(p)))
      ensures property == GameResultChanged ==>
        && !timerRunning && clockOwner == None
        && redTime == old(redTime) && yellowTime == old(yellowTime)
        && isGameOver && gameOverText == GameOverText(settings, game.gameResult)
        && saved == old(saved) + [GameRecord(settings, game.moves, game.gameResult)]
    {
      if property == CurrentPlayerChanged {
        if clockOwner.Some? {
          if clockOwner == Some(Red) {
            redTime := redTime + settings.incrementSeconds;
          } else {
            yellowTime := yellowTime + settings.incrementSeconds;
          }
          clockOwner := Some(game.currentPlayer);
        }
      }
      if property == GameResultChanged {
        timerRunning := false;
        clockOwner := None;
        GameEnd();
      }
    }

    /** The game is over: show the banner for the result, store the game and
        mark the screen as finished. */
    method GameEnd()
      modifies this
      ensures gameOverText == GameOverText(settings, game.gameResult)
      ensures saved == old(saved) + [GameRecord(settings, game.moves, game.gameResult)]
      ensures isGameOver
      ensures redTime == old(redTime) && yellowTime == old(yellowTime)
      ensures clockOwner == old(clockOwner) && timerRunning == old(timerRunning)
    {
      gameOverText := GameOverText(settings, game.gameResult);
      saved := saved + [GameRecord(settings, game.moves, game.gameResult)];
      isGameOver := true;
    }

    /** A click on cell (row, column), forwarded to the engine; the screen
        then reacts to whichever engine property changed. */
    method DropChip(row: int, column: int)
      requires Valid() && InBounds(row, column)
      modifies this, game, game.cells
      ensures Valid()
      ensures game.State() == DropChipSpec(old(game.State()), row, column)
      ensures var mover := old(game.currentPlayer);
        game.gameResult == Unknown && game.currentPlayer != mover ==>
          && saved == old(saved) && !isGameOver && gameOverText == old(gameOverText)
          && (if Timed(settings) then
                && clockOwner == Some(game.currentPlayer)
                && Clock(mover) == old(Clock(mover)) + settings.incrementSeconds
                && Clock(Opponent(mover)) == old(Clock(Opponent(mover)))
              else clockOwner == None && redTime == old(redTime) && yellowTime == old(yellowTime))
      ensures old(game.gameResult) == Unknown && game.gameResult != Unknown ==>
        && clockOwner == None && !timerRunning && isGameOver
        && redTime == old(redTime) && yellowTime == old(yellowTime)
        && gameOverText == GameOverText(settings, game.gameResult)
        && saved == old(saved) + [GameRecord(settings, game.moves, game.gameResult)]
      ensures game.currentPlayer == old(game.currentPlayer) && game.gameResult == old(game.gameResult) ==>
        && redTime == old(redTime) && yellowTime == old(yellowTime) && clockOwner == old(clockOwner)
        && timerRunning == old(timerRunning) && isGameOver == old(isGameOver)
        && gameOverText == old(gameOverText) && saved == old(saved)
    {
      ghost var s := game.State();
      var oldPlayer := game.currentPlayer;
      var oldResult := game.gameResult;
      game.DropChip(row, column);
      DropChipTransitions(s, row, column);
      AnnounceChanges(oldPlayer, oldResult, s.moves);
    }

    /** The engine announces a property only when its value changed, and a
        click changes at most one of the two: the player to move when the
        game goes on, the result when it ends. */
    method AnnounceChanges(oldPlayer: Player, oldResult: GameResult, ghost oldMoves: seq<int>)
      requires ScreenValid(oldPlayer, oldResult, oldMoves)
      requires Replayable(GameRecord(settings, game.moves, game.gameResult))
      requires
        || (game.currentPlayer == oldPlayer && game.gameResult == oldResult && game.moves == oldMoves)
        || (oldResult == Unknown && game.gameResult == Unknown && game.currentPlayer == Opponent(oldPlayer))
        || (&& oldResult == Unknown && game.currentPlayer == oldPlayer
            && (game.gameResult == ConnectWin(oldPlayer) || game.gameResult == Draw))
      modifies this
      ensures ScreenValid(game.currentPlayer, game.gameResult, game.moves)
      ensures game.gameResult == Unknown && game.currentPlayer != oldPlayer ==>
          && saved == old(saved) && !isGameOver && gameOverText == old(gameOverText)
          && (if Timed(settings) then
                && clockOwner == Some(game.currentPlayer)
                && Clock(oldPlayer) == old(Clock(oldPlayer)) + settings.incrementSeconds
                && Clock(Opponent(oldPlayer)) == old(Clock(Opponent(oldPlayer)))
              else clockOwner == None && redTime == old(redTime) && yellowTime == old(yellowTime))
      ensures oldResult == Unknown && game.gameResult != Unknown ==>
        && clockOwner == None && !timerRunning && isGameOver
        && redTime == old(redTime) && yellowTime == old(yellowTime)
        && gameOverText == GameOverText(settings, game.gameResult)
        && saved == old(saved) + [GameRecord(settings, game.moves, game.gameResult)]
      ensures game.currentPlayer == oldPlayer && game.gameResult == oldResult ==>
        && redTime == old(redTime) && yellowTime == old(yellowTime) && clockOwner == old(clockOwner)
        && timerRunning == old(timerRunning) && isGameOver == old(isGameOver)
        && gameOverText == old(gameOverText) && saved == old(saved)
    {
      if game.currentPlayer != oldPlayer {
        GameModelPropertyChanged(CurrentPlayerChanged);
      }
      if game.gameResult != oldResult {
        GameModelPropertyChanged(GameResultChanged);
      }
    }

    /** One second of the running clock: the owner's time drops by one
        second, and when it reaches zero the opponent wins on time. Nothing
        happens when no clock runs or the game is over. */
    method Tick()
      requires Valid()
      modifies this, game
      ensures Valid()
      ensures game.currentPlayer == old(game.currentPlayer) && game.moves == old(game.moves)
      ensures old(clockOwner).None? || old(game.gameResult) != Unknown ==>
        && game.gameResult == old(game.gameResult)
        && redTime == old(redTime) && yellowTime == old(yellowTime) && clockOwner == old(clockOwner)
        && timerRunning == old(timerRunning) && isGameOver == old(isGameOver)
        && gameOverText == old(gameOverText) && saved == old(saved)
      ensures old(clockOwner).Some? && old(game.gameResult) == Unknown ==>
        var p := old(clockOwner).value;
        && Clock(p) == old(Clock(p)) - 1
        && Clock(Opponent(p)) == old(Clock(Opponent(p)))
        && (Clock(p) <= 0 ==>
              && game.gameResult == TimeWin(Opponent(p)) && clockOwner == None && isGameOver
              && saved == old(saved) + [GameRecord(settings, game.moves, game.gameResult)])
        && (Clock(p) > 0 ==>
              && game.gameResult == Unknown && clockOwner == old(clockOwner) && timerRunning == old(timerRunning)
              && isGameOver == old(isGameOver) && gameOverText == old(gameOverText) && saved == old(saved))
    {
      if clockOwner.None? {
        return;
      }
      if game.gameResult != Unknown {
        return;
      }
      if clockOwner == Some(Red) {
        redTime := redTime - 1;
        if redTime <= 0 {
          var changed := game.SetGameResult(YellowWonOnTime);
          if changed {
            GameModelPropertyChanged(GameResultChanged);
          }
        }
      } else {
        yellowTime := yellowTime - 1;
        if yellowTime <= 0 {
          var changed := game.SetGameResult(RedWonOnTime);
          if changed {
            GameModelPropertyChanged(GameResultChanged);
          }
        }
      }
    }

    /** The player to move gives up: the timer stops and the opponent wins
        by forfeit. The result is assigned whatever it was before, so a
        forfeit after the game has ended replaces a different result and
        stores the game again. */
    method Forfeit()
      requires Valid()
      modifies this, game
      ensures Valid()
      ensures game.gameResult == ForfeitWin(Opponent(old(game.currentPlayer)))
      ensures game.currentPlayer == old(game.currentPlayer) && game.moves == old(game.moves)
      ensures !timerRunning && clockOwner == None && isGameOver
      ensures redTime == old(redTime) && yellowTime == old(yellowTime)
      ensures old(game.gameResult) != game.gameResult ==>
        && gameOverText == GameOverText(settings, game.gameResult)
        && saved == old(saved) + [GameRecord(settings, game.moves, game.gameResult)]
      ensures old(game.gameResult) == game.gameResult ==>
        gameOverText == old(gameOverText) && saved == old(saved)
    {
      timerRunning := false;
      var r := if game.currentPlayer == Red then YellowWonByForfeit else RedWonByForfeit;
      var changed := game.SetGameResult(r);
      if changed {
        GameModelPropertyChanged(GameResultChanged);
      }
    }
  }
}

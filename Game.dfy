/** The live game engine: a 6 x 7 board updated in place, the player to
    move, the column log and the result. */
module Game {
  import opened Types
  import opened Board
  import opened Win
  import opened Moves

  /** The engine's state as a value. */
  datatype GameState = GameState(board: seq<Cell>, current: Player, result: GameResult, moves: seq<int>)

  /** The board is the replay of the column log and every logged move was
      legal. */
  ghost predicate Consistent(start: Player, s: GameState) {
    && ColumnsInRange(s.moves)
    && Legal(start, s.moves)
    && s.board == Replay(start, s.moves)
  }

  /** What the engine keeps true between calls: besides consistency, while
      the game is in progress the player to move is the one whose turn the
      move count says it is. */
  ghost predicate Invariant(start: Player, s: GameState) {
    Consistent(start, s) && (s.result == Unknown ==> s.current == Mover(start, |s.moves|))
  }

  /** The effect of clicking cell (row, column): nothing unless the game is
      in progress, the cell is in the top row and the column is not full;
      otherwise the chip lands in the lowest empty cell of the column. */
  function DropChipSpec(s: GameState, row: int, column: int): GameState
    requires |s.board| == Size && InBounds(row, column)
  {
    if s.result != Unknown || row != 0 || s.board[Idx(0, column)].Some? then s
    else match LowestEmptyRow(s.board, column)
      case None => s
      case Some(r) => Place(s, r, column)
  }

  /** The mover's chip is put at (r, column) and the column logged; then the
      move wins, draws or passes the turn, tested in that order. */
  function Place(s: GameState, r: int, column: int): GameState
    requires |s.board| == Size && InBounds(r, column)
  {
    var b := s.board[Idx(r, column) := Some(s.current)];
    var moves := s.moves + [column];
    if IsWinAt(b, r, column, s.current) then GameState(b, s.current, ConnectWin(s.current), moves)
    else if |moves| == Size then GameState(b, s.current, Draw, moves)
    else GameState(b, Opponent(s.current), Unknown, moves)
  }

  /** Once the result is set, clicking changes nothing. */
  lemma DropChipAfterGameOver(s: GameState, row: int, column: int)
    requires |s.board| == Size && InBounds(row, column) && s.result != Unknown
    ensures DropChipSpec(s, row, column) == s
  {
  }

  /** Clicking below the top row, or on a full column, changes nothing. */
  lemma DropChipIgnoresIllegalClicks(s: GameState, row: int, column: int)
    requires |s.board| == Size && InBounds(row, column)
    requires row != 0 || s.board[Idx(0, column)].Some?
    ensures DropChipSpec(s, row, column) == s
  {
  }

  /** A successful click changes exactly one cell, the lowest empty cell of
      the column, which receives the mover's chip; the column is logged and
      gravity still holds. */
  lemma DropChipPlacesOneChip(s: GameState, column: int)
    requires Gravity(s.board) && 0 <= column < Columns
    requires s.result == Unknown && s.board[Idx(0, column)] == None
    ensures var s' := DropChipSpec(s, 0, column);
      && LowestEmptyRow(s.board, column).Some?
      && var r := LowestEmptyRow(s.board, column).value;
      && s.board[Idx(r, column)] == None
      && (r == Rows - 1 || s.board[Idx(r + 1, column)].Some?)
      && s'.board == s.board[Idx(r, column) := Some(s.current)]
      && s'.moves == s.moves + [column]
      && Gravity(s'.board)
  {
    DropIntoOpenColumn(s.board, column, s.current);
    GravityDrop(s.board, column, s.current);
  }

  /** A successful click ends the game as a win for the mover exactly when
      the new chip completes four in a row (the player to move is then not
      switched); otherwise as a draw exactly when it is the 42nd move;
      otherwise the turn passes to the opponent. */
  lemma DropChipOutcome(s: GameState, column: int)
    requires Gravity(s.board) && 0 <= column < Columns
    requires s.result == Unknown && s.board[Idx(0, column)] == None
    ensures var s' := DropChipSpec(s, 0, column);
      var r := LowestEmptyRow(s.board, column).value;
      && (s'.result == ConnectWin(s.current) <==> ConnectionThrough(s'.board, r, column, s.current))
      && (s'.result == Draw <==> !ConnectionThrough(s'.board, r, column, s.current) && |s.moves| + 1 == Size)
      && (s'.result == Unknown <==> !ConnectionThrough(s'.board, r, column, s.current) && |s.moves| + 1 != Size)
      && (s'.current == s.current <==> s'.result != Unknown)
      && (s'.result == Unknown ==> s'.current == Opponent(s.current))
  {
    DropIntoOpenColumn(s.board, column, s.current);
    var r := LowestEmptyRow(s.board, column).value;
    WinIffConnection(DropChipSpec(s, 0, column).board, r, column, s.current);
  }

  /** The shape of a placement: one cell set to the mover's chip, the column
      appended to the log, and the turn passed exactly when the game goes on. */
  lemma PlaceShape(s: GameState, r: int, column: int)
    requires |s.board| == Size && InBounds(r, column)
    ensures var s' := Place(s, r, column);
      && s'.board == s.board[Idx(r, column) := Some(s.current)]
      && s'.moves == s.moves + [column]
      && (s'.result == Unknown ==> s'.current == Opponent(s.current))
      && (s'.result != Unknown ==> s'.current == s.current)
  {
  }

  /** Dropping the next mover's chip into a column that is not full keeps
      the board the replay of the extended log. */
  lemma ConsistentAfterDrop(start: Player, s: GameState, column: int)
    requires Consistent(start, s) && 0 <= column < Columns && s.board[Idx(0, column)] == None
    ensures ColumnsInRange(s.moves + [column]) && Legal(start, s.moves + [column])
    ensures Replay(start, s.moves + [column]) == Drop(s.board, column, Mover(start, |s.moves|))
  {
    ReplaySnoc(start, s.moves, column);
  }

  /** Every click keeps the engine's invariant. */
  lemma DropChipKeepsInvariant(start: Player, s: GameState, row: int, column: int)
    requires Invariant(start, s) && InBounds(row, column)
    ensures Invariant(start, DropChipSpec(s, row, column))
  {
    if s.result == Unknown && row == 0 && s.board[Idx(0, column)] == None {
      ReplayGravity(start, s.moves);
      DropIntoOpenColumn(s.board, column, s.current);
      var r := LowestEmptyRow(s.board, column).value;
      ConsistentAfterDrop(start, s, column);
      PlaceShape(s, r, column);
      assert DropChipSpec(s, row, column) == Place(s, r, column);
    } else {
      assert DropChipSpec(s, row, column) == s;
    }
  }

  /** Every click does one of three things: nothing; log the column and
      pass the turn with the game still in progress; or log the column and
      end the game, as a connection win for the mover or a draw, without
      passing the turn. */
  lemma DropChipTransitions(s: GameState, row: int, column: int)
    requires |s.board| == Size && InBounds(row, column)
    ensures var s' := DropChipSpec(s, row, column);
      || s' == s
      || (&& s.result == Unknown && s'.moves == s.moves + [column]
          && s'.result == Unknown && s'.current == Opponent(s.current))
      || (&& s.result == Unknown && s'.moves == s.moves + [column]
          && (s'.result == ConnectWin(s.current) || s'.result == Draw) && s'.current == s.current)
  {
    if s.result == Unknown && row == 0 && s.board[Idx(0, column)] == None {
      match LowestEmptyRow(s.board, column)
      case None =>
      case Some(r) =>
        PlaceShape(s, r, column);
    }
  }

  /** In a consistent game a draw is declared only with the board full. */
  lemma DrawOnlyWhenFull(start: Player, s: GameState, row: int, column: int)
    requires Invariant(start, s) && InBounds(row, column) && s.result == Unknown
    ensures var s' := DropChipSpec(s, row, column);
      s'.result == Draw ==> |s'.moves| == Size && forall i :: 0 <= i < Size ==> s'.board[i].Some?
  {
    var s' := DropChipSpec(s, row, column);
    DropChipKeepsInvariant(start, s, row, column);
    if s'.result == Draw {
      FortyTwoMovesFillTheBoard(start, s'.moves);
    }
  }

  /** The live engine. */
  class GameModel {
    const cells: array<Cell>
    var currentPlayer: Player
    var gameResult: GameResult
    var moves: seq<int>
    /** The player the game was created with; not stored by the engine. */
    ghost const startingPlayer: Player

    ghost function State(): GameState
      reads this, cells
    {
      GameState(cells[..], currentPlayer, gameResult, moves)
    }

    /** The cells are the replay of the logged columns. */
    ghost predicate BoardMatchesMoves()
      reads this, cells
    {
      cells.Length == Size && Consistent(startingPlayer, State())
    }

    ghost predicate Valid()
      reads this, cells
    {
      cells.Length == Size && Invariant(startingPlayer, State())
    }

    /** A new game: an empty board, `start` to move, result Unknown. */
    constructor (start: Player)
      ensures Valid() && fresh(cells) && startingPlayer == start
      ensures State() == GameState(EmptyBoard(), start, Unknown, [])
    {
      var a := CreateEmptyBoard();
      currentPlayer := start;
      gameResult := Unknown;
      moves := [];
      startingPlayer := start;
      cells := a;
    }

    /** Click on cell (row, column). */
    method DropChip(row: int, column: int)
      requires Valid() && InBounds(row, column)
      modifies this, cells
      ensures Valid() && State() == DropChipSpec(old(State()), row, column)
    {
      ghost var s := State();
      if gameResult != Unknown {
        DropChipAfterGameOver(s, row, column);
        return;
      }
      if row != 0 {
        DropChipIgnoresIllegalClicks(s, row, column);
        return;
      }
      ReplayGravity(startingPlayer, moves);
      var full := IsColumnFull(column);
      if full {
        DropChipIgnoresIllegalClicks(s, row, column);
        return;
      }
      var target := GetLowestEmptyCell(column);
      if target.None? { return; }
      var r := target.value;
      assert DropChipSpec(s, row, column) == Place(s, r, column);
      moves := moves + [column];
      cells[r * Columns + column] := Some(currentPlayer);
      assert cells[..] == s.board[Idx(r, column) := Some(s.current)];
      var win := IsWin(r, column);
      if win {
        gameResult := if currentPlayer == Red then RedWonConnect else YellowWonConnect;
      } else {
        var draw := IsDraw();
        if draw {
          gameResult := Draw;
        } else {
          SwitchPlayer();
        }
      }
      assert State() == Place(s, r, column);
      DropChipKeepsInvariant(startingPlayer, s, row, column);
    }

    /** Assign the result from outside the engine (a clock running out or a
        forfeit); `changed` says whether the value differed, which is when
        the change is announced to listeners. */
    method SetGameResult(r: GameResult) returns (changed: bool)
      requires Valid() && r != Unknown
      modifies this
      ensures Valid()
      ensures changed <==> old(gameResult) != r
      ensures gameResult == r && currentPlayer == old(currentPlayer) && moves == old(moves)
    {
      changed := gameResult != r;
      gameResult := r;
    }

    /** Pass the turn to the other player. */
    method SwitchPlayer()
      modifies this
      ensures currentPlayer == Opponent(old(currentPlayer))
      ensures gameResult == old(gameResult) && moves == old(moves)
    {
      currentPlayer := if currentPlayer == Red then Yellow else Red;
    }

    /** The row of the lowest empty cell of `column`, scanning up from the
        bottom row. */
    method GetLowestEmptyCell(column: int) returns (row: Option<int>)
      requires cells.Length == Size && 0 <= column < Columns
      ensures row == LowestEmptyRow(cells[..], column)
    {
      var r := Rows - 1;
      while r >= 0
        invariant -1 <= r < Rows
        invariant ScanEmpty(cells[..], column, r) == LowestEmptyRow(cells[..], column)
      {
        if cells[r * Columns + column] == None {
          return Some(r);
        }
        r := r - 1;
      }
      return None;
    }

    /** On a board under gravity the top cell is occupied exactly when the
        column has no empty cell left. */
    method IsColumnFull(column: int) returns (full: bool)
      requires cells.Length == Size && Gravity(cells[..]) && 0 <= column < Columns
      ensures full <==> cells[Idx(0, column)].Some?
      ensures full <==> LowestEmptyRow(cells[..], column).None?
    {
      DropIntoOpenColumn(cells[..], column, Red);
      return cells[column] != None;
    }

    /** The draw test counts moves: on a consistent board it holds exactly
        when every cell is occupied. */
    method IsDraw() returns (draw: bool)
      requires cells.Length == Size
      ensures draw <==> |moves| == Size
      ensures BoardMatchesMoves() ==> (draw <==> forall i :: 0 <= i < Size ==> cells[i].Some?)
    {
      if BoardMatchesMoves() {
        ReplayChips(startingPlayer, moves);
        if forall i :: 0 <= i < Size ==> cells[i].Some? {
          ChipsOfFull(cells[..]);
        }
        if |moves| == Size {
          FortyTwoMovesFillTheBoard(startingPlayer, moves);
        }
      }
      return |moves| == Rows * Columns;
    }

    /** The win test for the current player's chip at (row, column). */
    method IsWin(row: int, column: int) returns (win: bool)
      requires cells.Length == Size && InBounds(row, column)
      ensures win == IsWinAt(cells[..], row, column, currentPlayer)
    {
      var down := Count(row, column, 1, 0);
      var up := Count(row, column, -1, 0);
      var right := Count(row, column, 0, 1);
      var left := Count(row, column, 0, -1);
      var downRight := Count(row, column, 1, 1);
      var upLeft := Count(row, column, -1, -1);
      var downLeft := Count(row, column, 1, -1);
      var upRight := Count(row, column, -1, 1);
      return down + up >= 3 || right + left >= 3 || downRight + upLeft >= 3 || downLeft + upRight >= 3;
    }

    /** The number of the current player's chips next to (row, col) in
        direction (dRow, dCol), at most 3. */
    method Count(row: int, col: int, dRow: int, dCol: int) returns (count: int)
      requires cells.Length == Size
      ensures 0 <= count <= 3
      ensures forall k :: 1 <= k <= count ==> Step(cells[..], row, col, dRow, dCol, currentPlayer, k)
      ensures count < 3 ==> !Step(cells[..], row, col, dRow, dCol, currentPlayer, count + 1)
      ensures count == Ray(cells[..], row, col, dRow, dCol, currentPlayer)
    {
      count := 0;
      var i := 1;
      while i < 4
        invariant 1 <= i <= 4 && count == i - 1
        invariant forall k :: 1 <= k < i ==> Step(cells[..], row, col, dRow, dCol, currentPlayer, k)
      {
        var r := row + dRow * i;
        var c := col + dCol * i;
        if r < 0 || r >= Rows || c < 0 || c >= Columns {
          break;
        }
        if cells[r * Columns + c] == Some(currentPlayer) {
          count := count + 1;
        } else {
          break;
        }
        i := i + 1;
      }
      RayUnique(cells[..], row, col, dRow, dCol, currentPlayer, count);
    }
  }
}

/** Step-by-step replay of a stored game: a cursor into the column log and a
    board that shows the position after the first `currentMoveIndex`
    moves. Moving forward drops the next chip, moving back lifts the top
    chip of the last column played. */
module Replay {
  import opened Types
  import opened Board
  import opened Moves
  import opened Records
  import opened Text

  /** "Move <index> / <total>". */
  function MoveCounterText(index: int, total: int): string {
    "Move " + IntToString(index) + " / " + IntToString(total)
  }

  /** The two numbers of a counter text are read back unambiguously. */
  lemma CounterParts(a1: string, b1: string, a2: string, b2: string)
    requires AllDigits(a1) && AllDigits(a2)
    requires "Move " + a1 + " / " + b1 == "Move " + a2 + " / " + b2
    ensures a1 == a2 && b1 == b2
  {
    var t1, t2 := a1 + (" / " + b1), a2 + (" / " + b2);
    assert "Move " + a1 + " / " + b1 == "Move " + t1;
    assert "Move " + a2 + " / " + b2 == "Move " + t2;
    assert t1 == ("Move " + t1)[5..] && t2 == ("Move " + t2)[5..];
    SplitAtNonDigit(a1, " / " + b1, a2, " / " + b2);
    assert b1 == (" / " + b1)[3..] && b2 == (" / " + b2)[3..];
  }

  /** The counter text tells the position and the length of the replay
      apart: different (index, total) pairs give different texts. */
  lemma MoveCounterTextInjective(i1: nat, n1: nat, i2: nat, n2: nat)
    ensures MoveCounterText(i1, n1) == MoveCounterText(i2, n2) <==> i1 == i2 && n1 == n2
  {
    if MoveCounterText(i1, n1) == MoveCounterText(i2, n2) {
      CounterParts(NatToString(i1), NatToString(n1), NatToString(i2), NatToString(n2));
      NatToStringInjective(i1, i2);
      NatToStringInjective(n1, n2);
    }
  }

  /** A prefix of a legal column log is legal. */
  lemma {:induction false} LegalPrefix(start: Player, moves: seq<int>, i: nat)
    requires ColumnsInRange(moves) && Legal(start, moves) && i <= |moves|
    ensures ColumnsInRange(moves[..i]) && Legal(start, moves[..i])
    decreases |moves|
  {
    if i < |moves| {
      var n := |moves| - 1;
      LegalPrefix(start, moves[..n], i);
      assert moves[..n][..i] == moves[..i];
    } else {
      assert moves[..i] == moves;
    }
  }

  /** The replay after i + 1 moves drops move i on the replay after i moves. */
  lemma ReplayStep(start: Player, moves: seq<int>, i: nat)
    requires ColumnsInRange(moves) && i < |moves|
    ensures ColumnsInRange(moves[..i]) && ColumnsInRange(moves[..i + 1])
    ensures Replay(start, moves[..i + 1]) == Drop(Replay(start, moves[..i]), moves[i], Mover(start, i))
    ensures Legal(start, moves[..i + 1]) <==> Legal(start, moves[..i]) && Replay(start, moves[..i])[Idx(0, moves[i])] == None
  {
    assert moves[..i + 1] == moves[..i] + [moves[i]];
    ReplaySnoc(start, moves[..i], moves[i]);
  }

  /** In a legal log, lifting the top chip of the column of move i from the
      replay after i + 1 moves gives back the replay after i moves. */
  lemma UndoStep(start: Player, moves: seq<int>, i: nat)
    requires ColumnsInRange(moves) && Legal(start, moves) && i < |moves|
    ensures ColumnsInRange(moves[..i]) && ColumnsInRange(moves[..i + 1])
    ensures RemoveTop(Replay(start, moves[..i + 1]), moves[i]) == Replay(start, moves[..i])
  {
    ReplayStep(start, moves, i);
    LegalPrefix(start, moves, i + 1);
    ReplayGravity(start, moves[..i]);
    RemoveTopUndoesDrop(Replay(start, moves[..i]), moves[i], Mover(start, i));
  }

  /** The replay screen for one stored game. */
  class ReplayViewModel {
    const game: GameRecord
    const cells: array<Cell>
    var currentMoveIndex: int

    function TotalMoves(): nat {
      |game.moves|
    }

    ghost function Start(): Player {
      game.settings.startingPlayer
    }

    /** The "next move" command is enabled. */
    predicate CanApplyNext()
      reads this
    {
      currentMoveIndex < TotalMoves()
    }

    /** The "previous move" command is enabled. */
    predicate CanUndo()
      reads this
    {
      currentMoveIndex > 0
    }

    /** The cursor lies within the log, the board obeys gravity, and for a
        legal log the board is the position after the first
        `currentMoveIndex` moves. */
    ghost predicate Valid()
      reads this, cells
    {
      && cells.Length == Size
      && ColumnsInRange(game.moves)
      && 0 <= currentMoveIndex <= TotalMoves()
      && Gravity(cells[..])
      && (Legal(Start(), game.moves) ==> cells[..] == Replay(Start(), game.moves[..currentMoveIndex]))
    }

    /** Open a stored game at its start: an empty board, cursor at 0. */
    constructor (record: GameRecord)
      requires ColumnsInRange(record.moves)
      ensures Valid() && fresh(cells) && game == record
      ensures currentMoveIndex == 0 && cells[..] == EmptyBoard()
      ensures !CanUndo() && (CanApplyNext() <==> |record.moves| > 0)
    {
      var a := CreateEmptyBoard();
      game := record;
      cells := a;
      currentMoveIndex := 0;
      new;
      assert game.moves[..0] == [];
    }

    /** Show one more move: the chip of the player whose turn it was (by the
        parity of the move number) drops into the next logged column. */
    method ApplyNextMove()
      requires Valid() && CanApplyNext()
      modifies this, cells
      ensures Valid()
      ensures currentMoveIndex == old(currentMoveIndex) + 1
      ensures cells[..] == Drop(old(cells[..]), game.moves[old(currentMoveIndex)], Mover(Start(), old(currentMoveIndex)))
      ensures currentMoveIndex == TotalMoves() && Legal(Start(), game.moves) ==> cells[..] == Replay(Start(), game.moves)
    {
      var column := game.moves[currentMoveIndex];
      var player := if currentMoveIndex % 2 == 0 then game.settings.startingPlayer else Opponent(game.settings.startingPlayer);
      MoverParity(Start(), currentMoveIndex);
      ghost var i := currentMoveIndex;
      ghost var before := cells[..];
      GravityDrop(before, column, player);
      DropChip(column, player);
      currentMoveIndex := currentMoveIndex + 1;
      ReplayStep(Start(), game.moves, i);
      assert game.moves[..|game.moves|] == game.moves;
    }

    /** Step back one move: the top chip of the last shown move's column is
        lifted. For a legal log this restores the previous position. */
    method UndoLastMove()
      requires Valid() && CanUndo()
      modifies this, cells
      ensures Valid()
      ensures currentMoveIndex == old(currentMoveIndex) - 1
      ensures cells[..] == RemoveTop(old(cells[..]), game.moves[currentMoveIndex])
      ensures Legal(Start(), game.moves) ==> cells[..] == Replay(Start(), game.moves[..currentMoveIndex])
    {
      var column := game.moves[currentMoveIndex - 1];
      ghost var before := cells[..];
      GravityRemoveTop(before, column);
      RemoveTopChip(column);
      currentMoveIndex := currentMoveIndex - 1;
      if Legal(Start(), game.moves) {
        UndoStep(Start(), game.moves, currentMoveIndex);
      }
    }

    /** "Next" followed by "Previous": when the next move's column is not
        full, the board and the cursor come back to where they were. */
    method NextThenPrevious()
      requires Valid() && CanApplyNext()
      requires cells[Idx(0, game.moves[currentMoveIndex])] == None
      modifies this, cells
      ensures Valid()
      ensures currentMoveIndex == old(currentMoveIndex) && cells[..] == old(cells[..])
    {
      ghost var before := cells[..];
      ghost var column := game.moves[currentMoveIndex];
      ApplyNextMove();
      UndoLastMove();
      RemoveTopUndoesDrop(before, column, Mover(Start(), currentMoveIndex));
    }

    /** Put a chip of `player` in the lowest empty cell of `column`,
        scanning up from the bottom row; a full column is left alone. */
    method DropChip(column: int, player: Player)
      requires cells.Length == Size && 0 <= column < Columns
      modifies cells
      ensures cells[..] == Drop(old(cells[..]), column, player)
    {
      var row := Rows - 1;
      while row >= 0
        invariant -1 <= row < Rows
        invariant cells[..] == old(cells[..])
        invariant ScanEmpty(cells[..], column, row) == LowestEmptyRow(cells[..], column)
      {
        if cells[row * Columns + column] == None {
          cells[row * Columns + column] := Some(player);
          return;
        }
        row := row - 1;
      }
    }

    /** Clear the topmost occupied cell of `column`, scanning down from the
        top row; an empty column is left alone. */
    method RemoveTopChip(column: int)
      requires cells.Length == Size && 0 <= column < Columns
      modifies cells
      ensures cells[..] == RemoveTop(old(cells[..]), column)
    {
      var row := 0;
      while row < Rows
        invariant 0 <= row <= Rows
        invariant cells[..] == old(cells[..])
        invariant ScanOccupied(cells[..], column, row) == TopChipRow(cells[..], column)
      {
        if cells[row * Columns + column] != None {
          cells[row * Columns + column] := None;
          return;
        }
        row := row + 1;
      }
    }
  }
}

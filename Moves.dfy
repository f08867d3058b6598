/** A game is stored as its list of columns only; the board at any point is
    recovered by dropping those columns in turn, the players alternating from
    the starting player. */
module Moves {
  import opened Types
  import opened Board

  /** The player who makes move i (counting from 0): the players alternate,
      with no passes, from the starting player. */
  function Mover(start: Player, i: nat): Player
  {
    if i == 0 then start else Opponent(Mover(start, i - 1))
  }

  /** Move i is made by the starting player when i is even and by the
      opponent when i is odd. */
  lemma {:induction false} MoverParity(start: Player, i: nat)
    ensures Mover(start, i) == if i % 2 == 0 then start else Opponent(start)
  {
    if i > 0 {
      MoverParity(start, i - 1);
    }
  }

  /** Every stored move is a column of the board. */
  predicate ColumnsInRange(moves: seq<int>) {
    forall i :: 0 <= i < |moves| ==> 0 <= moves[i] < Columns
  }

  /** The board after dropping `moves` in turn on an empty board. */
  function Replay(start: Player, moves: seq<int>): (b: seq<Cell>)
    requires ColumnsInRange(moves)
    ensures |b| == Size
    decreases |moves|
  {
    if moves == [] then EmptyBoard()
    else
      var n := |moves| - 1;
      Drop(Replay(start, moves[..n]), moves[n], Mover(start, n))
  }

  /** Every move went into a column that was not full at the time. */
  predicate Legal(start: Player, moves: seq<int>)
    requires ColumnsInRange(moves)
    decreases |moves|
  {
    moves == [] ||
    var n := |moves| - 1;
    Legal(start, moves[..n]) && Replay(start, moves[..n])[Idx(0, moves[n])] == None
  }

  /** One more move: the replay of `moves + [c]` drops c on the replay of `moves`. */
  lemma ReplaySnoc(start: Player, moves: seq<int>, c: int)
    requires ColumnsInRange(moves) && 0 <= c < Columns
    ensures ColumnsInRange(moves + [c])
    ensures Replay(start, moves + [c]) == Drop(Replay(start, moves), c, Mover(start, |moves|))
    ensures Legal(start, moves + [c]) <==> Legal(start, moves) && Replay(start, moves)[Idx(0, c)] == None
  {
    assert (moves + [c])[..|moves|] == moves;
  }

  /** Any replay obeys gravity. */
  lemma {:induction false} ReplayGravity(start: Player, moves: seq<int>)
    requires ColumnsInRange(moves)
    ensures Gravity(Replay(start, moves))
    decreases |moves|
  {
    if moves != [] {
      var n := |moves| - 1;
      ReplayGravity(start, moves[..n]);
      GravityDrop(Replay(start, moves[..n]), moves[n], Mover(start, n));
    }
  }

  /** After a legal move list the board holds exactly one chip per move, so
      a legal game has at most 42 moves. */
  lemma {:induction false} ReplayChips(start: Player, moves: seq<int>)
    requires ColumnsInRange(moves) && Legal(start, moves)
    ensures Chips(Replay(start, moves)) == |moves| <= Size
    decreases |moves|
  {
    if moves == [] {
      assert forall i :: 0 <= i < |EmptyBoard()| ==> EmptyBoard()[i] == None;
      ChipsNone(EmptyBoard());
    } else {
      var n := |moves| - 1;
      var b := Replay(start, moves[..n]);
      ReplayChips(start, moves[..n]);
      ReplayGravity(start, moves[..n]);
      DropIntoOpenColumn(b, moves[n], Mover(start, n));
      var r := LowestEmptyRow(b, moves[n]).value;
      ChipsFill(b, Idx(r, moves[n]), Mover(start, n));
    }
  }

  /** A board of empty cells has no chips. */
  lemma {:induction false} ChipsNone(b: seq<Cell>)
    requires forall i :: 0 <= i < |b| ==> b[i] == None
    ensures Chips(b) == 0
    decreases |b|
  {
    if b != [] {
      ChipsNone(b[..|b| - 1]);
    }
  }

  /** After 42 legal moves every cell is occupied: the move-count draw test
      agrees with a full-board test. */
  lemma FortyTwoMovesFillTheBoard(start: Player, moves: seq<int>)
    requires ColumnsInRange(moves) && Legal(start, moves) && |moves| == Size
    ensures forall i :: 0 <= i < Size ==> Replay(start, moves)[i].Some?
  {
    ReplayChips(start, moves);
    ChipsAll(Replay(start, moves));
  }
}

/** The 6 x 7 board as a value: a row-major sequence of 42 cells, row 0 at
    the top, each cell empty or holding one player's chip. The scans, the
    drop and the removal defined here are the specification that the live
    game (GameModel) and the replay (ReplayViewModel) implement with loops. */
module Board {
  import opened Types

  const Rows: int := 6
  const Columns: int := 7
  const Size: int := 42

  /** The state of one cell: `None` is empty. */
  type Cell = Option<Player>

  predicate InBounds(r: int, c: int) {
    0 <= r < Rows && 0 <= c < Columns
  }

  /** Position of cell (r, c) in the row-major cell list. */
  function Idx(r: int, c: int): (i: nat)
    requires InBounds(r, c)
    ensures i < Size && i / Columns == r && i % Columns == c
  {
    r * Columns + c
  }

  /** A board with every cell empty. */
  function EmptyBoard(): (b: seq<Cell>)
    ensures |b| == Size && forall i :: 0 <= i < Size ==> b[i] == None
  {
    seq(Size, _ => None)
  }

  /** A fresh array of 42 empty cells, filled row by row so that cell (r, c)
      is slot r * Columns + c. */
  method CreateEmptyBoard() returns (a: array<Cell>)
    ensures fresh(a) && a[..] == EmptyBoard()
  {
    a := new Cell[Size];
    for row := 0 to Rows
      invariant forall i :: 0 <= i < row * Columns ==> a[i] == None
    {
      for col := 0 to Columns
        invariant forall i :: 0 <= i < row * Columns + col ==> a[i] == None
      {
        a[row * Columns + col] := None;
      }
    }
  }

  /** Chips obey gravity: an occupied cell never sits above an empty one. */
  ghost predicate Gravity(b: seq<Cell>) {
    |b| == Size &&
    forall r, c :: 0 <= r < Rows - 1 && 0 <= c < Columns && b[Idx(r, c)].Some? ==> b[Idx(r + 1, c)].Some?
  }

  /** Under gravity everything below an occupied cell is occupied. */
  lemma {:induction false} GravityBelow(b: seq<Cell>, r: int, r': int, c: int)
    requires Gravity(b) && 0 <= r <= r' < Rows && 0 <= c < Columns
    requires b[Idx(r, c)].Some?
    ensures b[Idx(r', c)].Some?
    decreases r' - r
  {
    if r < r' {
      GravityBelow(b, r + 1, r', c);
    }
  }

  /** The lowest empty row of column c among rows 0..from, scanning upwards
      from row `from`. */
  function ScanEmpty(b: seq<Cell>, c: int, from: int): (r: Option<int>)
    requires |b| == Size && 0 <= c < Columns && -1 <= from < Rows
    ensures r.Some? ==> 0 <= r.value <= from && b[Idx(r.value, c)] == None
    ensures r.Some? ==> forall k :: r.value < k <= from ==> b[Idx(k, c)].Some?
    ensures r.None? ==> forall k :: 0 <= k <= from ==> b[Idx(k, c)].Some?
    decreases from + 1
  {
    if from < 0 then None
    else if b[Idx(from, c)] == None then Some(from)
    else ScanEmpty(b, c, from - 1)
  }

  /** The lowest empty cell's row in column c, if the column has one. */
  function LowestEmptyRow(b: seq<Cell>, c: int): Option<int>
    requires |b| == Size && 0 <= c < Columns
  {
    ScanEmpty(b, c, Rows - 1)
  }

  /** The topmost occupied row of column c among rows from..Rows-1,
      scanning downwards from row `from`. */
  function ScanOccupied(b: seq<Cell>, c: int, from: int): (r: Option<int>)
    requires |b| == Size && 0 <= c < Columns && 0 <= from <= Rows
    ensures r.Some? ==> from <= r.value < Rows && b[Idx(r.value, c)].Some?
    ensures r.Some? ==> forall k :: from <= k < r.value ==> b[Idx(k, c)] == None
    ensures r.None? ==> forall k :: from <= k < Rows ==> b[Idx(k, c)] == None
    decreases Rows - from
  {
    if from == Rows then None
    else if b[Idx(from, c)].Some? then Some(from)
    else ScanOccupied(b, c, from + 1)
  }

  /** The topmost chip's row in column c, if the column has a chip. */
  function TopChipRow(b: seq<Cell>, c: int): Option<int>
    requires |b| == Size && 0 <= c < Columns
  {
    ScanOccupied(b, c, 0)
  }

  /** Drop a chip of `p` into column c: it lands in the lowest empty cell; a
      full column is left as it is. */
  function Drop(b: seq<Cell>, c: int, p: Player): (b': seq<Cell>)
    requires |b| == Size && 0 <= c < Columns
    ensures |b'| == Size
  {
    match LowestEmptyRow(b, c)
    case None => b
    case Some(r) => b[Idx(r, c) := Some(p)]
  }

  /** Clear the topmost chip of column c; an empty column is left as it is. */
  function RemoveTop(b: seq<Cell>, c: int): (b': seq<Cell>)
    requires |b| == Size && 0 <= c < Columns
    ensures |b'| == Size
  {
    match TopChipRow(b, c)
    case None => b
    case Some(r) => b[Idx(r, c) := None]
  }

  /** A column is full exactly when its top cell is occupied; a column that
      is not full receives the chip in its lowest empty cell, and only that
      cell changes. */
  lemma DropIntoOpenColumn(b: seq<Cell>, c: int, p: Player)
    requires Gravity(b) && 0 <= c < Columns
    ensures LowestEmptyRow(b, c).Some? <==> b[Idx(0, c)] == None
    ensures b[Idx(0, c)] == None ==>
      var r := LowestEmptyRow(b, c).value;
      && b[Idx(r, c)] == None
      && (r == Rows - 1 || b[Idx(r + 1, c)].Some?)
      && Drop(b, c, p)[Idx(r, c)] == Some(p)
      && forall i :: 0 <= i < Size && i != Idx(r, c) ==> Drop(b, c, p)[i] == b[i]
    ensures b[Idx(0, c)].Some? ==> Drop(b, c, p) == b
  {
    if b[Idx(0, c)].Some? {
      forall k | 0 <= k < Rows ensures b[Idx(k, c)].Some? {
        GravityBelow(b, 0, k, c);
      }
    }
  }

  /** Dropping a chip keeps the board under gravity. */
  lemma GravityDrop(b: seq<Cell>, c: int, p: Player)
    requires Gravity(b) && 0 <= c < Columns
    ensures Gravity(Drop(b, c, p))
  {
    var b' := Drop(b, c, p);
    forall r, c' | 0 <= r < Rows - 1 && 0 <= c' < Columns && b'[Idx(r, c')].Some?
      ensures b'[Idx(r + 1, c')].Some?
    {
      if LowestEmptyRow(b, c).Some? {
        var lr := LowestEmptyRow(b, c).value;
        if r == lr && c' == c {
          assert b[Idx(r + 1, c)].Some?;
        } else {
          assert b[Idx(r, c')].Some?;
        }
      }
    }
  }

  /** Removing the topmost chip keeps the board under gravity. */
  lemma GravityRemoveTop(b: seq<Cell>, c: int)
    requires Gravity(b) && 0 <= c < Columns
    ensures Gravity(RemoveTop(b, c))
  {
    var b' := RemoveTop(b, c);
    forall r, c' | 0 <= r < Rows - 1 && 0 <= c' < Columns && b'[Idx(r, c')].Some?
      ensures b'[Idx(r + 1, c')].Some?
    {
      if TopChipRow(b, c).Some? {
        var tr := TopChipRow(b, c).value;
        assert Idx(r, c') != Idx(tr, c);
      }
    }
  }

  /** Removing the top chip of a column undoes a drop into that column, on a
      board under gravity whose column was not full. */
  lemma RemoveTopUndoesDrop(b: seq<Cell>, c: int, p: Player)
    requires Gravity(b) && 0 <= c < Columns && b[Idx(0, c)] == None
    ensures RemoveTop(Drop(b, c, p), c) == b
  {
    DropIntoOpenColumn(b, c, p);
    var r := LowestEmptyRow(b, c).value;
    var b' := Drop(b, c, p);
    forall k | 0 <= k < r ensures b'[Idx(k, c)] == None {
      if b[Idx(k, c)].Some? {
        GravityBelow(b, k, r, c);
      }
    }
    var t := TopChipRow(b', c);
    assert t == Some(r) by {
      assert b'[Idx(r, c)].Some?;
    }
    assert RemoveTop(b', c) == b'[Idx(r, c) := None];
    assert b'[Idx(r, c) := None] == b;
  }

  /** Number of occupied cells. */
  function Chips(b: seq<Cell>): (n: nat)
    ensures n <= |b|
  {
    if b == [] then 0
    else Chips(b[..|b| - 1]) + (if b[|b| - 1].Some? then 1 else 0)
  }

  /** Filling one empty cell adds exactly one chip. */
  lemma {:induction false} ChipsFill(b: seq<Cell>, i: int, p: Player)
    requires 0 <= i < |b| && b[i] == None
    ensures Chips(b[i := Some(p)]) == Chips(b) + 1
    decreases |b|
  {
    var n := |b| - 1;
    var b' := b[i := Some(p)];
    if i == n {
      assert b'[..n] == b[..n];
    } else {
      assert b'[..n] == b[..n][i := Some(p)];
      ChipsFill(b[..n], i, p);
    }
  }

  /** A full board has as many chips as cells. */
  lemma {:induction false} ChipsOfFull(b: seq<Cell>)
    requires forall i :: 0 <= i < |b| ==> b[i].Some?
    ensures Chips(b) == |b|
    decreases |b|
  {
    if b != [] {
      ChipsOfFull(b[..|b| - 1]);
    }
  }

  /** A board with as many chips as cells is full. */
  lemma {:induction false} ChipsAll(b: seq<Cell>)
    requires Chips(b) == |b|
    ensures forall i :: 0 <= i < |b| ==> b[i].Some?
    decreases |b|
  {
    if b != [] {
      var n := |b| - 1;
      assert Chips(b[..n]) <= n;
      ChipsAll(b[..n]);
      forall i | 0 <= i < |b| ensures b[i].Some? {
        if i < n {
          assert b[i] == b[..n][i];
        }
      }
    }
  }
}

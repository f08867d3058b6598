/** Win detection around the chip just placed: four axes, each made of two
    opposite rays of at most three steps. */
module Win {
  import opened Types
  import opened Board

  /** Step k along direction (dr, dc) from (r, c) lies on the board and holds
      a chip of `p`. */
  predicate Step(b: seq<Cell>, r: int, c: int, dr: int, dc: int, p: Player, k: int)
    requires |b| == Size
  {
    InBounds(r + dr * k, c + dc * k) && b[Idx(r + dr * k, c + dc * k)] == Some(p)
  }

  /** Steps i, i+1, ... (stopping before step 4) that hold `p` without a gap. */
  function RayFrom(b: seq<Cell>, r: int, c: int, dr: int, dc: int, p: Player, i: int): (n: nat)
    requires |b| == Size && 1 <= i <= 4
    ensures i + n <= 4
    ensures forall k :: i <= k < i + n ==> Step(b, r, c, dr, dc, p, k)
    ensures i + n < 4 ==> !Step(b, r, c, dr, dc, p, i + n)
    decreases 4 - i
  {
    if i == 4 || !Step(b, r, c, dr, dc, p, i) then 0
    else 1 + RayFrom(b, r, c, dr, dc, p, i + 1)
  }

  /** The number of consecutive chips of `p` next to (r, c) in direction
      (dr, dc), at most 3. */
  function Ray(b: seq<Cell>, r: int, c: int, dr: int, dc: int, p: Player): (n: nat)
    requires |b| == Size
    ensures n <= 3
    ensures forall k :: 1 <= k <= n ==> Step(b, r, c, dr, dc, p, k)
    ensures n < 3 ==> !Step(b, r, c, dr, dc, p, n + 1)
  {
    RayFrom(b, r, c, dr, dc, p, 1)
  }

  /** The run length is determined by its two defining properties. */
  lemma RayUnique(b: seq<Cell>, r: int, c: int, dr: int, dc: int, p: Player, n: int)
    requires |b| == Size && 0 <= n <= 3
    requires forall k :: 1 <= k <= n ==> Step(b, r, c, dr, dc, p, k)
    requires n < 3 ==> !Step(b, r, c, dr, dc, p, n + 1)
    ensures Ray(b, r, c, dr, dc, p) == n
  {
  }

  /** Both rays of one axis add up to at least three more chips. */
  predicate AxisWin(b: seq<Cell>, r: int, c: int, dr: int, dc: int, p: Player)
    requires |b| == Size
  {
    Ray(b, r, c, dr, dc, p) + Ray(b, r, c, -dr, -dc, p) >= 3
  }

  /** The win test applied after a chip of `p` lands at (r, c): vertical,
      horizontal and the two diagonals. */
  predicate IsWinAt(b: seq<Cell>, r: int, c: int, p: Player)
    requires |b| == Size
  {
    AxisWin(b, r, c, 1, 0, p) || AxisWin(b, r, c, 0, 1, p) ||
    AxisWin(b, r, c, 1, 1, p) || AxisWin(b, r, c, 1, -1, p)
  }

  /** Four chips of `p` in a line along (dr, dc) such that (r, c) is the
      j-th of them (counting from 0). */
  ghost predicate LineThrough(b: seq<Cell>, r: int, c: int, dr: int, dc: int, p: Player, j: int)
    requires |b| == Size
  {
    forall k :: -j <= k <= 3 - j ==> Step(b, r, c, dr, dc, p, k)
  }

  /** Some four-in-a-row along (dr, dc) passes through (r, c). */
  ghost predicate LineOnAxis(b: seq<Cell>, r: int, c: int, dr: int, dc: int, p: Player)
    requires |b| == Size
  {
    exists j :: 0 <= j <= 3 && LineThrough(b, r, c, dr, dc, p, j)
  }

  /** Connection: four chips of `p` in a row, column or diagonal, one of
      them at (r, c). */
  ghost predicate ConnectionThrough(b: seq<Cell>, r: int, c: int, p: Player)
    requires |b| == Size
  {
    LineOnAxis(b, r, c, 1, 0, p) || LineOnAxis(b, r, c, 0, 1, p) ||
    LineOnAxis(b, r, c, 1, 1, p) || LineOnAxis(b, r, c, 1, -1, p)
  }

  /** A step backwards is a step along the opposite direction. */
  lemma StepOpposite(b: seq<Cell>, r: int, c: int, dr: int, dc: int, p: Player, k: int)
    requires |b| == Size
    ensures Step(b, r, c, dr, dc, p, -k) == Step(b, r, c, -dr, -dc, p, k)
  {
    assert dr * -k == -dr * k && dc * -k == -dc * k;
  }

  /** One axis: the two rays add up to three or more exactly when a line of
      four chips of `p` along that axis passes through (r, c). */
  lemma AxisWinIffLine(b: seq<Cell>, r: int, c: int, dr: int, dc: int, p: Player)
    requires |b| == Size && InBounds(r, c) && b[Idx(r, c)] == Some(p)
    ensures AxisWin(b, r, c, dr, dc, p) <==> LineOnAxis(b, r, c, dr, dc, p)
  {
    var fwd := Ray(b, r, c, dr, dc, p);
    var bwd := Ray(b, r, c, -dr, -dc, p);
    assert Step(b, r, c, dr, dc, p, 0);
    if fwd + bwd >= 3 {
      var j: int := bwd;
      forall k: int | -j <= k <= 3 - j ensures Step(b, r, c, dr, dc, p, k) {
        if k < 0 {
          StepOpposite(b, r, c, dr, dc, p, -k);
        }
      }
      assert LineThrough(b, r, c, dr, dc, p, j);
    }
    if LineOnAxis(b, r, c, dr, dc, p) {
      var j :| 0 <= j <= 3 && LineThrough(b, r, c, dr, dc, p, j);
      assert bwd >= j by {
        if bwd < j {
          StepOpposite(b, r, c, dr, dc, p, bwd + 1);
        }
      }
      assert fwd >= 3 - j;
    }
  }

  /** The win test after placing a chip of `p` at (r, c) is true exactly
      when the new chip completes a connection of four. */
  lemma WinIffConnection(b: seq<Cell>, r: int, c: int, p: Player)
    requires |b| == Size && InBounds(r, c) && b[Idx(r, c)] == Some(p)
    ensures IsWinAt(b, r, c, p) <==> ConnectionThrough(b, r, c, p)
  {
    AxisWinIffLine(b, r, c, 1, 0, p);
    AxisWinIffLine(b, r, c, 0, 1, p);
    AxisWinIffLine(b, r, c, 1, 1, p);
    AxisWinIffLine(b, r, c, 1, -1, p);
  }

  /** A ray counts at least the first m steps when all of them hold `p`. */
  lemma RayAtLeast(b: seq<Cell>, r: int, c: int, dr: int, dc: int, p: Player, m: int)
    requires |b| == Size && 0 <= m <= 3
    requires forall k :: 1 <= k <= m ==> Step(b, r, c, dr, dc, p, k)
    ensures Ray(b, r, c, dr, dc, p) >= m
  {
  }

  /** Along a row, the ray to the right is at least as long as the run of
      chips of `p` that follows (r, c). */
  lemma RowRayRight(b: seq<Cell>, r: int, c: int, p: Player, m: int)
    requires |b| == Size && 0 <= r < Rows && 0 <= m <= 3 && 0 <= c && c + m < Columns
    requires forall cc :: c < cc <= c + m ==> b[Idx(r, cc)] == Some(p)
    ensures Ray(b, r, c, 0, 1, p) >= m
  {
    forall k | 1 <= k <= m ensures Step(b, r, c, 0, 1, p, k) {
      assert b[Idx(r, c + k)] == Some(p);
    }
    RayAtLeast(b, r, c, 0, 1, p, m);
  }

  /** Along a row, the ray to the left is at least as long as the run of
      chips of `p` that precedes (r, c). */
  lemma RowRayLeft(b: seq<Cell>, r: int, c: int, p: Player, m: int)
    requires |b| == Size && 0 <= r < Rows && 0 <= m <= 3 && 0 <= c - m && c < Columns
    requires forall cc :: c - m <= cc < c ==> b[Idx(r, cc)] == Some(p)
    ensures Ray(b, r, c, 0, -1, p) >= m
  {
    forall k | 1 <= k <= m ensures Step(b, r, c, 0, -1, p, k) {
      assert b[Idx(r, c - k)] == Some(p);
    }
    RayAtLeast(b, r, c, 0, -1, p, m);
  }

  /** A horizontal run of four is detected whichever of its cells was
      filled last: (r, c) is the j-th cell of a run covering columns c - j
      to c - j + 3. */
  lemma HorizontalRunDetected(b: seq<Cell>, r: int, c: int, j: int, p: Player)
    requires |b| == Size && 0 <= r < Rows && 0 <= j <= 3 && 0 <= c - j && c - j + 3 < Columns
    requires forall cc :: c - j <= cc <= c - j + 3 ==> b[Idx(r, cc)] == Some(p)
    ensures IsWinAt(b, r, c, p)
  {
    RowRayRight(b, r, c, p, 3 - j);
    RowRayLeft(b, r, c, p, j);
    assert AxisWin(b, r, c, 0, 1, p);
  }
}

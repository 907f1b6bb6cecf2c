/**
 The zigzag walk over the grid, two columns at a time from the right, that
 jumps over column 6.
 */
module Zigzag {
  import opened Grids

  /** `((right + 1) & 2) == 0` */
  predicate Upward(right: int) {
    (right + 1) % 4 < 2
  }

  /** Cell k of the two columns `right` and `right - 1`. */
  function StripCell(n: nat, right: int, k: nat): Cell {
    Cell(right - k % 2, if Upward(right) then n - 1 - k / 2 else k / 2)
  }

  function Strip(n: nat, right: int): (s: seq<Cell>)
    ensures |s| == 2 * n && forall k :: 0 <= k < 2 * n ==> s[k] == StripCell(n, right, k)
  {
    seq(2 * n, k requires 0 <= k => StripCell(n, right, k))
  }

  /** The right column actually used: 5 instead of 6. */
  function Jump(right: int): int {
    if right == 6 then 5 else right
  }

  /** The walk from a right column on. */
  function WalkFrom(n: nat, right: int): seq<Cell>
    decreases right
  {
    if right < 1 then [] else Strip(n, Jump(right)) + WalkFrom(n, Jump(right) - 2)
  }

  function Walk(n: nat): seq<Cell> {
    WalkFrom(n, n - 1)
  }

  /** The right columns the walk goes through in a grid of odd size: even down to 6, then odd. */
  predicate OnTrack(right: int) {
    if right >= 6 then right % 2 == 0 else right % 2 == 1 && right >= -1
  }

  // ---------- a strip covers its two columns once ----------

  function StripIndex(n: nat, right: int, c: Cell): int {
    2 * (if Upward(right) then n - 1 - c.y else c.y) + right - c.x
  }

  lemma StripCovers(n: nat, right: int, c: Cell)
    requires right >= 1
    ensures c in Strip(n, right) <==> right - 1 <= c.x <= right && 0 <= c.y < n
  {
    if right - 1 <= c.x <= right && 0 <= c.y < n {
      var k := StripIndex(n, right, c);
      assert 0 <= k < 2 * n && k / 2 == (if Upward(right) then n - 1 - c.y else c.y) && k % 2 == right - c.x;
      assert Strip(n, right)[k] == c;
    }
  }

  lemma StripDistinct(n: nat, right: int)
    ensures Distinct(Strip(n, right))
  {
    forall i, j | 0 <= i < j < 2 * n ensures Strip(n, right)[i] != Strip(n, right)[j] {
      assert StripIndex(n, right, StripCell(n, right, i)) == i;
      assert StripIndex(n, right, StripCell(n, right, j)) == j;
    }
  }

  // ---------- the walk covers every column but 6 once ----------

  lemma InConcat(a: seq<Cell>, b: seq<Cell>, c: Cell)
    ensures c in a + b <==> c in a || c in b
  {}

  lemma {:induction false} WalkFromCovers(n: nat, right: int, c: Cell)
    requires OnTrack(right)
    ensures c in WalkFrom(n, right) <==> 0 <= c.x <= right && c.x != 6 && 0 <= c.y < n
    decreases right
  {
    if right >= 1 {
      var r := Jump(right);
      StripCovers(n, r, c);
      WalkFromCovers(n, r - 2, c);
      InConcat(Strip(n, r), WalkFrom(n, r - 2), c);
    }
  }

  lemma DistinctConcat(a: seq<Cell>, b: seq<Cell>)
    requires Distinct(a) && Distinct(b) && forall i :: 0 <= i < |a| ==> a[i] !in b
    ensures Distinct(a + b)
  {}

  lemma {:induction false} WalkFromDistinct(n: nat, right: int)
    requires OnTrack(right)
    ensures Distinct(WalkFrom(n, right))
    decreases right
  {
    if right >= 1 {
      var r := Jump(right);
      StripDistinct(n, r);
      WalkFromDistinct(n, r - 2);
      forall i | 0 <= i < 2 * n ensures Strip(n, r)[i] !in WalkFrom(n, r - 2) {
        WalkFromCovers(n, r - 2, Strip(n, r)[i]);
      }
      DistinctConcat(Strip(n, r), WalkFrom(n, r - 2));
    }
  }

  lemma WalkInside(n: nat)
    requires n >= 7 && n % 2 == 1
    ensures AllInside(n, Walk(n))
  {
    var walk := Walk(n);
    forall i | 0 <= i < |walk| ensures Inside(n, walk[i]) {
      WalkFromCovers(n, n - 1, walk[i]);
    }
  }

  lemma WalkDistinct(n: nat)
    requires n >= 7 && n % 2 == 1
    ensures Distinct(Walk(n))
  {
    WalkFromDistinct(n, n - 1);
  }

  /** In a grid of odd size from 7, the walk visits every cell outside column 6 exactly once. */
  lemma WalkVisitsOnce(n: nat)
    requires n >= 7 && n % 2 == 1
    ensures Distinct(Walk(n)) && AllInside(n, Walk(n))
    ensures forall c :: c in Walk(n) <==> Inside(n, c) && c.x != 6
  {
    WalkInside(n);
    WalkDistinct(n);
    forall c ensures c in Walk(n) <==> Inside(n, c) && c.x != 6 {
      WalkFromCovers(n, n - 1, c);
    }
  }

  // ---------- the order of the walk ----------

  /** The right column of strip s: every second one from the right edge, one less from column 6 on. */
  function RightOf(n: nat, s: nat): int {
    if n - 1 - 2 * s > 6 then n - 1 - 2 * s else n - 2 - 2 * s
  }

  /** The loop variable at the start of strip s. */
  function LoopAt(n: nat, s: nat): int {
    if n - 1 - 2 * s >= 6 then n - 1 - 2 * s else n - 2 - 2 * s
  }

  lemma LoopSteps(n: nat, s: nat)
    requires n % 2 == 1
    ensures Jump(LoopAt(n, s)) == RightOf(n, s) && RightOf(n, s) - 2 == LoopAt(n, s + 1)
  {}

  /** How many cells k strips have. */
  function CellsIn(n: nat, k: nat): nat {
    if k == 0 then 0 else CellsIn(n, k - 1) + 2 * n
  }

  lemma {:induction false} CellsAre(n: nat, k: nat)
    ensures CellsIn(n, k) == 2 * n * k
  {
    if k > 0 {
      CellsAre(n, k - 1);
      assert 2 * n * k == 2 * n * (k - 1) + 2 * n;
    }
  }

  /** Cell i of the k-th strip after strip s. */
  lemma {:induction false} WalkFromAt(n: nat, s: nat, k: nat, i: nat)
    requires n % 2 == 1 && RightOf(n, s + k) >= 1 && i < 2 * n
    ensures CellsIn(n, k) + i < |WalkFrom(n, LoopAt(n, s))|
    ensures WalkFrom(n, LoopAt(n, s))[CellsIn(n, k) + i] == StripCell(n, RightOf(n, s + k), i)
    decreases k
  {
    LoopSteps(n, s);
    var strip, rest := Strip(n, RightOf(n, s)), WalkFrom(n, LoopAt(n, s + 1));
    assert WalkFrom(n, LoopAt(n, s)) == strip + rest;
    if k > 0 {
      WalkFromAt(n, s + 1, k - 1, i);
      assert (strip + rest)[2 * n + (CellsIn(n, k - 1) + i)] == rest[CellsIn(n, k - 1) + i];
    }
  }

  /** In the grids of QR Codes, the first strip and every second one after it go up. */
  lemma StripDirection(n: nat, s: nat)
    requires n % 4 == 1 && n >= 9
    ensures Upward(RightOf(n, s)) <==> s % 2 == 0
  {}

  lemma StripCellIs(n: nat, right: int, vert: nat, j: nat)
    requires j < 2
    ensures StripCell(n, right, 2 * vert + j) == Cell(right - j, if Upward(right) then n - 1 - vert else vert)
  {}

  lemma CellOfStrip(n: nat, s: nat, vert: nat, j: nat)
    requires n % 4 == 1 && n >= 9 && j < 2
    ensures StripCell(n, RightOf(n, s), 2 * vert + j) == Cell(RightOf(n, s) - j, if s % 2 == 0 then n - 1 - vert else vert)
  {
    StripDirection(n, s);
    StripCellIs(n, RightOf(n, s), vert, j);
  }

  lemma WalkStrip(n: nat, s: nat, i: nat, p: int)
    requires n % 4 == 1 && n >= 9 && 2 * s < n - 1 && i < 2 * n && p == 2 * n * s + i
    ensures 0 <= p < |Walk(n)| && Walk(n)[p] == StripCell(n, RightOf(n, s), i)
  {
    CellsAre(n, s);
    WalkFromAt(n, 0, s, i);
  }

  /**
   The place of every cell in the walk: strip by strip from the right, the first strip upward and then in turn, each
   row from right to left.
   */
  lemma WalkAt(n: nat, s: nat, vert: nat, j: nat)
    requires n % 4 == 1 && n >= 9 && 2 * s < n - 1 && vert < n && j < 2
    ensures var right := if n - 1 - 2 * s > 6 then n - 1 - 2 * s else n - 2 - 2 * s;
      && 2 * n * s + 2 * vert + j < |Walk(n)|
      && Walk(n)[2 * n * s + 2 * vert + j] == Cell(right - j, if s % 2 == 0 then n - 1 - vert else vert)
  {
    WalkStrip(n, s, 2 * vert + j, 2 * n * s + 2 * vert + j);
    CellOfStrip(n, s, vert, j);
  }

  /** The walk begins in the lower right corner. */
  lemma WalkStartsLowerRight(n: nat)
    requires n % 4 == 1 && n >= 9
    ensures Walk(n) != [] && Walk(n)[0] == Cell(n - 1, n - 1)
  {
    WalkAt(n, 0, 0, 0);
  }
}

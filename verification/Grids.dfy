/**
 Square grids of modules, rows of columns, and what it does to one to write a
 list of cells or to draw bits along a walk.
 */
module Grids {

  datatype Cell = Cell(x: int, y: int)

  type Grid = seq<seq<bool>>

  predicate Square(g: Grid, n: nat) {
    |g| == n && forall y :: 0 <= y < n ==> |g[y]| == n
  }

  predicate Inside(n: nat, c: Cell) {
    0 <= c.x < n && 0 <= c.y < n
  }

  function Blank(n: nat): (g: Grid)
    ensures Square(g, n)
  {
    seq(n, _ => seq(n, _ => false))
  }

  function Get(g: Grid, n: nat, c: Cell): bool
    requires Square(g, n) && Inside(n, c)
  {
    g[c.y][c.x]
  }

  function Set(g: Grid, n: nat, c: Cell, b: bool): (h: Grid)
    requires Square(g, n) && Inside(n, c)
    ensures Square(h, n)
  {
    g[c.y := g[c.y][c.x := b]]
  }

  /** Grids with the same modules are equal. */
  lemma SameGrid(g: Grid, h: Grid, n: nat)
    requires Square(g, n) && Square(h, n)
    requires forall c :: Inside(n, c) ==> Get(g, n, c) == Get(h, n, c)
    ensures g == h
  {
    forall y | 0 <= y < n ensures g[y] == h[y] {
      forall x | 0 <= x < n ensures g[y][x] == h[y][x] {
        assert Get(g, n, Cell(x, y)) == Get(h, n, Cell(x, y));
      }
    }
  }

  // ---------- drawing bits along a walk ----------

  predicate AllInside(n: nat, cells: seq<Cell>) {
    forall i :: 0 <= i < |cells| ==> Inside(n, cells[i])
  }

  predicate Distinct(cells: seq<Cell>) {
    forall i, j :: 0 <= i < j < |cells| ==> cells[i] != cells[j]
  }

  /** The number of free cells. */
  function Free(free: Cell -> bool, cells: seq<Cell>): nat {
    if cells == [] then 0
    else Free(free, cells[..|cells| - 1]) + if free(cells[|cells| - 1]) then 1 else 0
  }

  /** A grid being drawn on, and how many bits have been used. */
  datatype Pen = Pen(grid: Grid, used: nat)

  /** The next bit goes on the cell if it is free and a bit is left. */
  function DrawOn(free: Cell -> bool, bits: seq<bool>, n: nat, pen: Pen, c: Cell): (p: Pen)
    requires Square(pen.grid, n) && Inside(n, c)
    ensures Square(p.grid, n)
  {
    if free(c) && pen.used < |bits| then Pen(Set(pen.grid, n, c, bits[pen.used]), pen.used + 1) else pen
  }

  function Draw(free: Cell -> bool, bits: seq<bool>, n: nat, g: Grid, cells: seq<Cell>): (p: Pen)
    requires Square(g, n) && AllInside(n, cells)
    ensures Square(p.grid, n)
  {
    if cells == [] then Pen(g, 0)
    else DrawOn(free, bits, n, Draw(free, bits, n, g, cells[..|cells| - 1]), cells[|cells| - 1])
  }

  function Min(a: nat, b: nat): nat {
    if a < b then a else b
  }

  /** As many bits are used as there are free cells, up to all of them. */
  lemma {:induction false} DrawUses(free: Cell -> bool, bits: seq<bool>, n: nat, g: Grid, cells: seq<Cell>)
    requires Square(g, n) && AllInside(n, cells)
    ensures Draw(free, bits, n, g, cells).used == Min(Free(free, cells), |bits|)
    decreases |cells|
  {
    if cells != [] {
      DrawUses(free, bits, n, g, cells[..|cells| - 1]);
    }
  }

  /** A cell off the walk, or not free, keeps its module. */
  lemma {:induction false} DrawKeeps(free: Cell -> bool, bits: seq<bool>, n: nat, g: Grid, cells: seq<Cell>, c: Cell)
    requires Square(g, n) && AllInside(n, cells) && Inside(n, c)
    requires c !in cells || !free(c)
    ensures Get(Draw(free, bits, n, g, cells).grid, n, c) == Get(g, n, c)
    decreases |cells|
  {
    if cells != [] {
      DrawKeeps(free, bits, n, g, cells[..|cells| - 1], c);
    }
  }

  /** The k-th cell of a walk without repetition gets the bit of its rank among the free cells, or keeps its module. */
  lemma {:induction false} DrawAt(free: Cell -> bool, bits: seq<bool>, n: nat, g: Grid, cells: seq<Cell>, k: nat)
    requires Square(g, n) && AllInside(n, cells) && Distinct(cells) && k < |cells|
    ensures var rank := Free(free, cells[..k]);
      Get(Draw(free, bits, n, g, cells).grid, n, cells[k])
        == if free(cells[k]) && rank < |bits| then bits[rank] else Get(g, n, cells[k])
    decreases |cells|
  {
    var m := |cells| - 1;
    if k == m {
      DrawUses(free, bits, n, g, cells[..m]);
      DrawKeeps(free, bits, n, g, cells[..m], cells[m]);
    } else {
      DrawAt(free, bits, n, g, cells[..m], k);
      assert cells[..m][..k] == cells[..k];
    }
  }

  /** The modules of the free cells, in the order of the walk. */
  function Read(free: Cell -> bool, n: nat, g: Grid, cells: seq<Cell>): (s: seq<bool>)
    requires Square(g, n) && AllInside(n, cells)
    ensures |s| == Free(free, cells)
  {
    if cells == [] then []
    else
      var m := |cells| - 1;
      if free(cells[m]) then Read(free, n, g, cells[..m]) + [Get(g, n, cells[m])] else Read(free, n, g, cells[..m])
  }

  lemma {:induction false} ReadPrefix(free: Cell -> bool, bits: seq<bool>, n: nat, g: Grid, h: Grid, cells: seq<Cell>, k: nat)
    requires Square(g, n) && AllInside(n, cells) && Distinct(cells) && k <= |cells|
    requires h == Draw(free, bits, n, g, cells).grid
    ensures var used := Min(Free(free, cells[..k]), |bits|); Read(free, n, h, cells[..k])[..used] == bits[..used]
    decreases k
  {
    if k > 0 {
      assert cells[..k][..k - 1] == cells[..k - 1];
      ReadPrefix(free, bits, n, g, h, cells, k - 1);
      DrawAt(free, bits, n, g, cells, k - 1);
    }
  }

  /** Rereading the walk returns the bits, when there are free cells for all of them. */
  lemma ReadDrawn(free: Cell -> bool, bits: seq<bool>, n: nat, g: Grid, cells: seq<Cell>)
    requires Square(g, n) && AllInside(n, cells) && Distinct(cells) && Free(free, cells) >= |bits|
    ensures Read(free, n, Draw(free, bits, n, g, cells).grid, cells)[..|bits|] == bits
  {
    ReadPrefix(free, bits, n, g, Draw(free, bits, n, g, cells).grid, cells, |cells|);
    assert cells[..|cells|] == cells && bits[..|bits|] == bits;
  }
}

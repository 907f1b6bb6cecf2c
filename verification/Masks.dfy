/**
 Masks: inverting the modules that are not function modules, and why trying all
 eight masks on one grid leaves no trace.
 */
module Masks {
  import opened Grids
  import opened Patterns

  /** The modules that a mask inverts. */
  predicate Inverts(msk: nat, x: nat, y: nat) {
    if msk == 0 then (x + y) % 2 == 0
    else if msk == 1 then y % 2 == 0
    else if msk == 2 then x % 3 == 0
    else if msk == 3 then (x + y) % 3 == 0
    else if msk == 4 then (x / 3 + y / 2) % 2 == 0
    else if msk == 5 then x * y % 2 + x * y % 3 == 0
    else if msk == 6 then (x * y % 2 + x * y % 3) % 2 == 0
    else ((x + y) % 2 + x * y % 3) % 2 == 0
  }

  /** The module the mask makes of one. */
  function Inverted(inv: (nat, nat) -> bool, x: nat, y: nat, black: bool, fixed: bool): bool {
    black != (inv(x, y) && !fixed)
  }

  function MaskedRow(inv: (nat, nat) -> bool, n: nat, row: seq<bool>, fn: seq<bool>, y: nat): (r: seq<bool>)
    requires |row| == |fn| == n
    ensures |r| == n
  {
    seq(n, x requires 0 <= x < n => Inverted(inv, x, y, row[x], fn[x]))
  }

  /** A grid with a mask applied to its modules outside the function modules. */
  function Masked(inv: (nat, nat) -> bool, n: nat, g: Grid, fn: Grid): (h: Grid)
    requires Square(g, n) && Square(fn, n)
    ensures Square(h, n)
  {
    seq(n, y requires 0 <= y < n => MaskedRow(inv, n, g[y], fn[y], y))
  }

  lemma MaskedAt(inv: (nat, nat) -> bool, n: nat, g: Grid, fn: Grid, c: Cell)
    requires Square(g, n) && Square(fn, n) && Inside(n, c)
    ensures Get(Masked(inv, n, g, fn), n, c) == (Get(g, n, c) != (inv(c.x, c.y) && !Get(fn, n, c)))
  {}

  /** Applying a mask again undoes it. */
  lemma MaskTwice(inv: (nat, nat) -> bool, n: nat, g: Grid, fn: Grid)
    requires Square(g, n) && Square(fn, n)
    ensures Masked(inv, n, Masked(inv, n, g, fn), fn) == g
  {
    var h := Masked(inv, n, g, fn);
    forall c | Inside(n, c) ensures Get(Masked(inv, n, h, fn), n, c) == Get(g, n, c) {
      MaskedAt(inv, n, g, fn, c);
      MaskedAt(inv, n, h, fn, c);
    }
    SameGrid(Masked(inv, n, h, fn), g, n);
  }

  // ---------- no trace ----------

  /** The grids have the same modules outside the dots. */
  ghost predicate AgreeOutside(dots: seq<Dot>, n: nat, g: Grid, h: Grid) {
    && Square(g, n) && Square(h, n)
    && forall c :: Inside(n, c) && !Covers(dots, c) ==> Get(g, n, c) == Get(h, n, c)
  }

  /** Every dot is on a function module. */
  ghost predicate OnFunction(dots: seq<Dot>, n: nat, fn: Grid) {
    && Square(fn, n) && DotsInside(n, dots)
    && forall c :: Inside(n, c) && Covers(dots, c) ==> Get(fn, n, c)
  }

  ghost predicate SameCells(a: seq<Dot>, b: seq<Dot>) {
    forall c :: Covers(a, c) <==> Covers(b, c)
  }

  /** A grid finished with a mask and the dots of its format. */
  function Finish(inv: (nat, nat) -> bool, dots: seq<Dot>, n: nat, g: Grid, fn: Grid): (h: Grid)
    requires Square(g, n) && Square(fn, n) && DotsInside(n, dots)
    ensures Square(h, n)
  {
    Paint(Masked(inv, n, g, fn), n, dots)
  }

  lemma PaintAgrees(dots: seq<Dot>, n: nat, g: Grid, h: Grid)
    requires DotsInside(n, dots) && AgreeOutside(dots, n, g, h)
    ensures Paint(g, n, dots) == Paint(h, n, dots)
  {
    forall c | Inside(n, c) ensures Get(Paint(g, n, dots), n, c) == Get(Paint(h, n, dots), n, c) {
      PaintAgree(g, h, n, dots, c);
    }
    SameGrid(Paint(g, n, dots), Paint(h, n, dots), n);
  }

  lemma MaskedAgrees(inv: (nat, nat) -> bool, dots: seq<Dot>, n: nat, g: Grid, h: Grid, fn: Grid)
    requires Square(fn, n) && AgreeOutside(dots, n, g, h)
    ensures AgreeOutside(dots, n, Masked(inv, n, g, fn), Masked(inv, n, h, fn))
  {
    forall c | Inside(n, c) && !Covers(dots, c)
      ensures Get(Masked(inv, n, g, fn), n, c) == Get(Masked(inv, n, h, fn), n, c)
    {
      MaskedAt(inv, n, g, fn, c);
      MaskedAt(inv, n, h, fn, c);
    }
  }

  /** The finished grid does not depend on an earlier format. */
  lemma FinishAgrees(inv: (nat, nat) -> bool, dots: seq<Dot>, n: nat, g: Grid, h: Grid, fn: Grid)
    requires Square(fn, n) && DotsInside(n, dots) && AgreeOutside(dots, n, g, h)
    ensures Finish(inv, dots, n, g, fn) == Finish(inv, dots, n, h, fn)
  {
    MaskedAgrees(inv, dots, n, g, h, fn);
    PaintAgrees(dots, n, Masked(inv, n, g, fn), Masked(inv, n, h, fn));
  }

  /** Undoing the mask of a finished grid gives back all but the format. */
  lemma UnfinishAt(inv: (nat, nat) -> bool, dots: seq<Dot>, n: nat, g: Grid, fn: Grid, c: Cell)
    requires Square(g, n) && Square(fn, n) && DotsInside(n, dots) && Inside(n, c) && !Covers(dots, c)
    ensures Get(Masked(inv, n, Finish(inv, dots, n, g, fn), fn), n, c) == Get(g, n, c)
  {
    var m := Masked(inv, n, g, fn);
    MaskedAt(inv, n, g, fn, c);
    PaintKeeps(m, n, dots, c);
    MaskedAt(inv, n, Paint(m, n, dots), fn, c);
  }

  lemma Unfinish(inv: (nat, nat) -> bool, dots: seq<Dot>, n: nat, g: Grid, fn: Grid)
    requires Square(g, n) && Square(fn, n) && DotsInside(n, dots)
    ensures AgreeOutside(dots, n, g, Masked(inv, n, Finish(inv, dots, n, g, fn), fn))
  {
    forall c | Inside(n, c) && !Covers(dots, c)
      ensures Get(g, n, c) == Get(Masked(inv, n, Finish(inv, dots, n, g, fn), fn), n, c)
    {
      UnfinishAt(inv, dots, n, g, fn, c);
    }
  }

  /** What one trial of a mask does to a grid that agrees with g outside the format: it shows the grid finished
      with that mask, and leaves a grid that still agrees with g. */
  lemma Trial(inv: (nat, nat) -> bool, dots: seq<Dot>, n: nat, g: Grid, h: Grid, fn: Grid)
    requires Square(fn, n) && DotsInside(n, dots) && AgreeOutside(dots, n, g, h)
    ensures Finish(inv, dots, n, h, fn) == Finish(inv, dots, n, g, fn)
    ensures AgreeOutside(dots, n, g, Masked(inv, n, Finish(inv, dots, n, h, fn), fn))
  {
    FinishAgrees(inv, dots, n, g, h, fn);
    Unfinish(inv, dots, n, g, fn);
  }

  lemma AgreeSameCells(a: seq<Dot>, b: seq<Dot>, n: nat, g: Grid, h: Grid)
    requires AgreeOutside(a, n, g, h) && SameCells(a, b)
    ensures AgreeOutside(b, n, g, h)
  {}
}

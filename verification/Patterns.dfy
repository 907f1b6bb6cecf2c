/**
 Function patterns as lists of dots: timing, finder and alignment patterns,
 version information and format information.
 */
module Patterns {
  import opened Bits
  import opened Grids
  import opened Versions

  /** A module set by `setFunctionModule`. */
  datatype Dot = Dot(cell: Cell, black: bool)

  predicate DotsInside(n: nat, dots: seq<Dot>) {
    forall i :: 0 <= i < |dots| ==> Inside(n, dots[i].cell)
  }

  predicate Covers(dots: seq<Dot>, c: Cell) {
    exists i :: 0 <= i < |dots| && dots[i].cell == c
  }

  /** The grid after the dots are drawn in order. */
  function Paint(g: Grid, n: nat, dots: seq<Dot>): (h: Grid)
    requires Square(g, n) && DotsInside(n, dots)
    ensures Square(h, n)
  {
    if dots == [] then g
    else
      var k := |dots| - 1;
      Set(Paint(g, n, dots[..k]), n, dots[k].cell, dots[k].black)
  }

  /** The map of function modules after the dots are drawn. */
  function Mark(fn: Grid, n: nat, dots: seq<Dot>): (h: Grid)
    requires Square(fn, n) && DotsInside(n, dots)
    ensures Square(h, n)
  {
    if dots == [] then fn
    else
      var k := |dots| - 1;
      Set(Mark(fn, n, dots[..k]), n, dots[k].cell, true)
  }

  lemma CoversLast(dots: seq<Dot>, c: Cell)
    requires dots != []
    ensures Covers(dots, c) <==> Covers(dots[..|dots| - 1], c) || dots[|dots| - 1].cell == c
  {
    if Covers(dots, c) {
      var i :| 0 <= i < |dots| && dots[i].cell == c;
      if i < |dots| - 1 {
        assert dots[..|dots| - 1][i].cell == c;
      }
    }
    if Covers(dots[..|dots| - 1], c) {
      var i :| 0 <= i < |dots| - 1 && dots[..|dots| - 1][i].cell == c;
      assert dots[i].cell == c;
    }
  }

  /** A cell is a function module afterwards exactly if it was one or a dot is on it. */
  lemma {:induction false} MarkAt(fn: Grid, n: nat, dots: seq<Dot>, c: Cell)
    requires Square(fn, n) && DotsInside(n, dots) && Inside(n, c)
    ensures Get(Mark(fn, n, dots), n, c) <==> Get(fn, n, c) || Covers(dots, c)
    decreases |dots|
  {
    if dots != [] {
      var k := |dots| - 1;
      MarkAt(fn, n, dots[..k], c);
      CoversLast(dots, c);
    }
  }

  lemma {:induction false} PaintKeeps(g: Grid, n: nat, dots: seq<Dot>, c: Cell)
    requires Square(g, n) && DotsInside(n, dots) && Inside(n, c) && !Covers(dots, c)
    ensures Get(Paint(g, n, dots), n, c) == Get(g, n, c)
    decreases |dots|
  {
    if dots != [] {
      CoversLast(dots, c);
      PaintKeeps(g, n, dots[..|dots| - 1], c);
    }
  }

  /** What is drawn depends only on the cells that no dot is on. */
  lemma {:induction false} PaintAgree(g: Grid, h: Grid, n: nat, dots: seq<Dot>, c: Cell)
    requires Square(g, n) && Square(h, n) && DotsInside(n, dots) && Inside(n, c)
    requires !Covers(dots, c) ==> Get(g, n, c) == Get(h, n, c)
    ensures Get(Paint(g, n, dots), n, c) == Get(Paint(h, n, dots), n, c)
    decreases |dots|
  {
    if dots != [] {
      var k := |dots| - 1;
      CoversLast(dots, c);
      if dots[k].cell != c {
        PaintAgree(g, h, n, dots[..k], c);
      }
    }
  }

  /** A dot that no later dot is on shows its colour. */
  lemma {:induction false} PaintShows(g: Grid, n: nat, dots: seq<Dot>, i: nat)
    requires Square(g, n) && DotsInside(n, dots) && i < |dots|
    requires forall j :: i < j < |dots| ==> dots[j].cell != dots[i].cell
    ensures Get(Paint(g, n, dots), n, dots[i].cell) == dots[i].black
    decreases |dots|
  {
    if i < |dots| - 1 {
      PaintShows(g, n, dots[..|dots| - 1], i);
    }
  }

  // ---------- timing, finder and alignment patterns ----------

  function Timing(n: nat): seq<Dot> {
    if n == 0 then []
    else Timing(n - 1) + [Dot(Cell(6, n - 1), (n - 1) % 2 == 0), Dot(Cell(n - 1, 6), (n - 1) % 2 == 0)]
  }

  /** The larger of the two distances. */
  function Chebyshev(dx: int, dy: int): nat {
    var ax, ay := if dx < 0 then -dx else dx, if dy < 0 then -dy else dy;
    if ax > ay then ax else ay
  }

  /** The dots that are inside the grid. */
  function Clip(n: nat, dots: seq<Dot>): (s: seq<Dot>)
    ensures DotsInside(n, s)
  {
    if dots == [] then []
    else
      var k := |dots| - 1;
      if Inside(n, dots[k].cell) then Clip(n, dots[..k]) + [dots[k]] else Clip(n, dots[..k])
  }

  /** The 9 by 9 finder pattern with its white border. */
  function Finder(n: nat, x: int, y: int): seq<Dot> {
    Clip(n, seq(81, k requires 0 <= k =>
      var dx, dy := k % 9 - 4, k / 9 - 4;
      Dot(Cell(x + dx, y + dy), Chebyshev(dx, dy) != 2 && Chebyshev(dx, dy) != 4)))
  }

  /** The 5 by 5 alignment pattern. */
  function Alignment(x: int, y: int): (s: seq<Dot>)
    ensures |s| == 25
    ensures forall k :: 0 <= k < 25 ==> x - 2 <= s[k].cell.x <= x + 2 && y - 2 <= s[k].cell.y <= y + 2
  {
    seq(25, k requires 0 <= k < 25 =>
      var dx, dy := k % 5 - 2, k / 5 - 2;
      Dot(Cell(x + dx, y + dy), Chebyshev(dx, dy) != 1))
  }

  function NumAlign(ver: nat): nat {
    ver / 7 + 2
  }

  function AlignStep(ver: nat): nat {
    if ver == 32 then 26
    else (ver * 4 + NumAlign(ver) * 2 + 1) / (NumAlign(ver) * 2 - 2) * 2
  }

  /** The i-th position of the centres of alignment patterns, on both axes. */
  function AlignPosition(ver: nat, i: nat): int {
    if i == 0 then 6 else ver * 4 + 10 - (NumAlign(ver) - 1 - i) * AlignStep(ver)
  }

  lemma StepBounds(ver: nat, a: nat, step: nat)
    requires 2 <= ver <= 40 && a == NumAlign(ver) && step == AlignStep(ver)
    ensures step >= 4 && (a - 2) * step <= ver * 4 - 1
  {
    if a == 2 {
    } else if a == 3 {
    } else if a == 4 {
    } else if a == 5 {
    } else if a == 6 {
    } else {
      assert a == 7;
    }
  }

  lemma Fewer(k: nat, m: nat, step: nat)
    requires k <= m
    ensures k * step <= m * step
  {
    assert m * step == k * step + (m - k) * step;
  }

  lemma AlignPositionInside(ver: nat, i: nat)
    requires 2 <= ver <= 40 && i < NumAlign(ver)
    ensures 2 <= AlignPosition(ver, i) <= ver * 4 + 10
    ensures 1 <= i < NumAlign(ver) - 1 ==> 11 <= AlignPosition(ver, i) <= ver * 4 + 6
  {
    var a, step := NumAlign(ver), AlignStep(ver);
    StepBounds(ver, a, step);
    if i > 0 {
      Fewer(a - 1 - i, a - 2, step);
      if i < a - 1 {
        Fewer(1, a - 1 - i, step);
      }
    }
  }

  /** The three corners that have finder patterns instead. */
  predicate IsCorner(last: int, i: int, j: int) {
    (i == 0 && j == 0) || (i == 0 && j == last) || (i == last && j == 0)
  }

  /** All alignment patterns before pattern (i, j) of a by a, row by row, centred at the given positions. */
  function AlignmentsBefore(pos: nat -> int, a: nat, i: nat, j: nat): seq<Dot>
    requires j <= a
    decreases i, j
  {
    if j > 0 then
      AlignmentsBefore(pos, a, i, j - 1) + if IsCorner(a - 1, i, j - 1) then [] else Alignment(pos(i), pos(j - 1))
    else if i > 0 then AlignmentsBefore(pos, a, i - 1, a)
    else []
  }

  lemma InsideConcat(n: nat, a: seq<Dot>, b: seq<Dot>)
    requires DotsInside(n, a) && DotsInside(n, b)
    ensures DotsInside(n, a + b)
  {}

  lemma {:induction false} AlignmentsInside(n: nat, pos: nat -> int, a: nat, i: nat, j: nat)
    requires j <= a && i <= a && (j > 0 ==> i < a) && forall k :: 0 <= k < a ==> 2 <= pos(k) < n - 2
    ensures DotsInside(n, AlignmentsBefore(pos, a, i, j))
    decreases i, j
  {
    if j > 0 {
      AlignmentsInside(n, pos, a, i, j - 1);
      if !IsCorner(a - 1, i, j - 1) {
        InsideConcat(n, AlignmentsBefore(pos, a, i, j - 1), Alignment(pos(i), pos(j - 1)));
      }
    } else if i > 0 {
      AlignmentsInside(n, pos, a, i - 1, a);
    }
  }

  // ---------- format and version information ----------

  /** One step of the division by x^|poly| + poly of bits that go through a register. */
  function Divide(r: seq<bool>, poly: seq<bool>): (s: seq<bool>)
    requires |r| == |poly|
    ensures |s| == |r|
  {
    seq(|r|, i requires 0 <= i < |r| => (i + 1 < |r| && r[i + 1]) != (r[0] && poly[i]))
  }

  /** The check bits of a BCH code after k steps. */
  function Bch(r: seq<bool>, poly: seq<bool>, k: nat): (s: seq<bool>)
    requires |r| == |poly|
    ensures |s| == |r|
    decreases k, r
  {
    if k == 0 then r else Divide(Bch(r, poly, k - 1), poly)
  }

  /** 0x537 without its leading bit. */
  const FORMAT_POLY: seq<bool> := [false, true, false, false, true, true, false, true, true, true]
  /** 0x1F25 without its leading bit. */
  const VERSION_POLY: seq<bool> :=
    [true, true, true, true, false, false, true, false, false, true, false, true]
  /** 0x5412 */
  const FORMAT_MASK: seq<bool> :=
    [true, false, true, false, true, false, false, false, false, false, true, false, false, true, false]

  function FormatData(level: Level, msk: nat): (s: seq<bool>)
    ensures |s| == 5
  {
    [level.Quartile? || level.High?, level.Low? || level.Quartile?, msk / 4 % 2 == 1, msk / 2 % 2 == 1, msk % 2 == 1]
  }

  function Flip(a: seq<bool>, b: seq<bool>): (s: seq<bool>)
    requires |a| == |b|
    ensures |s| == |a| && forall i :: 0 <= i < |a| ==> s[i] == (a[i] != b[i])
  {
    seq(|a|, i requires 0 <= i < |a| => a[i] != b[i])
  }

  /** The fifteen format bits, the most significant first. */
  function FormatBits(level: Level, msk: nat): (s: seq<bool>)
    ensures |s| == 15
  {
    var data := FormatData(level, msk);
    Flip(data + Bch([false, false, false, false, false] + data, FORMAT_POLY, 10), FORMAT_MASK)
  }

  /** The level and mask that format bits name. */
  function ReadFormat(bits: seq<bool>): (Level, nat)
    requires |bits| == 15
  {
    ((match (!bits[0], bits[1])
      case (false, true) => Low
      case (false, false) => Medium
      case (true, true) => Quartile
      case (true, false) => High),
     (if bits[2] then 0 else 4) + (if bits[3] then 2 else 0) + (if bits[4] then 0 else 1))
  }

  lemma ReadFormatBits(level: Level, msk: nat)
    requires msk < 8
    ensures ReadFormat(FormatBits(level, msk)) == (level, msk)
  {
    var bits, data := FormatBits(level, msk), FormatData(level, msk);
    assert forall i :: 0 <= i < 5 ==> bits[i] == (data[i] != FORMAT_MASK[i]);
    assert bits[0] == !data[0] && bits[1] == data[1] && bits[2] == !data[2] && bits[3] == data[3] && bits[4] == !data[4];
    assert msk == (msk / 4 % 2) * 4 + (msk / 2 % 2) * 2 + msk % 2;
  }

  /** Where bit i of the format goes first, counted from the least significant. */
  function FirstCopy(i: nat): Cell {
    if i <= 5 then Cell(8, i)
    else if i == 6 then Cell(8, 7)
    else if i == 7 then Cell(8, 8)
    else if i == 8 then Cell(7, 8)
    else Cell(14 - i, 8)
  }

  function SecondCopy(n: nat, i: nat): Cell {
    if i < 8 then Cell(n - 1 - i, 8) else Cell(8, n - 15 + i)
  }

  function FormatDots(n: nat, bits: seq<bool>): (s: seq<Dot>)
    requires |bits| == 15
    ensures |s| == 31 && s[30] == Dot(Cell(8, n - 8), true)
    ensures forall i :: 0 <= i < 15 ==> s[i] == Dot(FirstCopy(i), bits[14 - i])
    ensures forall i :: 15 <= i < 30 ==> s[i] == Dot(SecondCopy(n, i - 15), bits[29 - i])
  {
    seq(15, i requires 0 <= i < 15 => Dot(FirstCopy(i), bits[14 - i]))
    + seq(15, i requires 0 <= i < 15 => Dot(SecondCopy(n, i), bits[14 - i]))
    + [Dot(Cell(8, n - 8), true)]
  }

  lemma FormatInside(n: nat, bits: seq<bool>)
    requires n >= 21 && |bits| == 15
    ensures DotsInside(n, FormatDots(n, bits))
  {}

  /** The cells of the format do not depend on its bits. */
  lemma FormatCells(n: nat, bits: seq<bool>, other: seq<bool>, c: Cell)
    requires |bits| == |other| == 15 && Covers(FormatDots(n, bits), c)
    ensures Covers(FormatDots(n, other), c)
  {
    var s, t := FormatDots(n, bits), FormatDots(n, other);
    var i :| 0 <= i < |s| && s[i].cell == c;
    assert t[i].cell == c;
  }

  /** Both copies show the format bits. */
  lemma FormatShows(g: Grid, n: nat, bits: seq<bool>, i: nat)
    requires n >= 21 && Square(g, n) && |bits| == 15 && i < 15 && DotsInside(n, FormatDots(n, bits))
    ensures Inside(n, FirstCopy(i)) && Inside(n, SecondCopy(n, i))
    ensures Get(Paint(g, n, FormatDots(n, bits)), n, FirstCopy(i)) == bits[14 - i]
    ensures Get(Paint(g, n, FormatDots(n, bits)), n, SecondCopy(n, i)) == bits[14 - i]
  {
    PaintShows(g, n, FormatDots(n, bits), i);
    PaintShows(g, n, FormatDots(n, bits), 15 + i);
  }

  /** The eighteen version bits, the most significant first. */
  function VersionBits(ver: nat): (s: seq<bool>)
    ensures |s| == 18
  {
    var v := BigEndian(ver, 6);
    v + Bch([false, false, false, false, false, false] + v, VERSION_POLY, 12)
  }

  /** Two copies of the version bits, transposed; none below version 7. */
  function VersionDots(n: nat, ver: nat): (s: seq<Dot>)
    ensures n >= 21 ==> DotsInside(n, s)
  {
    if ver < 7 then []
    else
      var bits := VersionBits(ver);
      seq(36, k requires 0 <= k < 36 =>
        var i := k / 2;
        var a, b := n - 11 + i % 3, i / 3;
        Dot(if k % 2 == 0 then Cell(a, b) else Cell(b, a), bits[17 - i]))
  }

  // ---------- all of them ----------

  function Size(ver: nat): nat {
    ver * 4 + 17
  }

  lemma {:induction false} TimingInside(n: nat, k: nat)
    requires n >= 7 && k <= n
    ensures DotsInside(n, Timing(k))
    decreases k
  {
    if k > 0 {
      TimingInside(n, k - 1);
    }
  }

  function Positions(ver: nat): nat -> int {
    (i: nat) => AlignPosition(ver, i)
  }

  function Alignments(ver: nat): seq<Dot> {
    if ver < 2 then [] else AlignmentsBefore(Positions(ver), NumAlign(ver), NumAlign(ver), 0)
  }

  function Join(a: seq<Dot>, b: seq<Dot>, c: seq<Dot>, d: seq<Dot>, e: seq<Dot>, f: seq<Dot>, g: seq<Dot>): seq<Dot> {
    a + (b + (c + (d + (e + (f + g)))))
  }

  /** Everything drawn before the codewords. */
  function FunctionDots(ver: nat, level: Level): seq<Dot> {
    var n := Size(ver);
    Join(Timing(n), Finder(n, 3, 3), Finder(n, n - 4, 3), Finder(n, 3, n - 4), Alignments(ver),
         FormatDots(n, FormatBits(level, 0)), VersionDots(n, ver))
  }

  lemma AllAlignmentsInside(ver: nat)
    requires 1 <= ver <= 40
    ensures DotsInside(Size(ver), Alignments(ver))
  {
    if ver >= 2 {
      forall k | 0 <= k < NumAlign(ver) ensures 2 <= Positions(ver)(k) < Size(ver) - 2 {
        AlignPositionInside(ver, k);
      }
      AlignmentsInside(Size(ver), Positions(ver), NumAlign(ver), NumAlign(ver), 0);
    }
  }
}

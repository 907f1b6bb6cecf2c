/**
 Every version leaves enough modules free for its codewords: the function
 patterns are covered by boxes whose areas add up to the rest of the grid.
 */
module FreeCells {
  import opened Grids
  import opened Zigzag
  import opened Versions
  import opened Patterns
  import opened PenaltyScore
  import opened QrCodes
  import opened QrSymbols

  // ---------- boxes ----------

  datatype Box = Box(x: int, y: int, w: nat, h: nat)

  predicate InBox(b: Box, c: Cell) {
    b.x <= c.x < b.x + b.w && b.y <= c.y < b.y + b.h
  }

  predicate InBoxes(boxes: seq<Box>, c: Cell) {
    exists i :: 0 <= i < |boxes| && InBox(boxes[i], c)
  }

  function Area(boxes: seq<Box>): nat {
    if boxes == [] then 0 else Area(boxes[..|boxes| - 1]) + boxes[|boxes| - 1].w * boxes[|boxes| - 1].h
  }

  lemma {:induction false} AreaConcat(a: seq<Box>, b: seq<Box>)
    ensures Area(a + b) == Area(a) + Area(b)
    decreases |b|
  {
    if b == [] {
      assert a + b == a;
    } else {
      var k := |b| - 1;
      assert (a + b)[..|a| + k] == a + b[..k];
      AreaConcat(a, b[..k]);
    }
  }

  function CellsOf(b: Box): (s: set<Cell>)
    ensures forall c :: c in s <==> InBox(b, c)
  {
    set x, y | b.x <= x < b.x + b.w && b.y <= y < b.y + b.h :: Cell(x, y)
  }

  function BoxRow(x: int, y: int, w: nat): (s: set<Cell>)
    ensures forall c :: c in s <==> x <= c.x < x + w && c.y == y
  {
    set i | x <= i < x + w :: Cell(i, y)
  }

  lemma {:induction false} BoxRowSize(x: int, y: int, w: nat)
    ensures |BoxRow(x, y, w)| == w
  {
    if w > 0 {
      BoxRowSize(x, y, w - 1);
      assert BoxRow(x, y, w) == BoxRow(x, y, w - 1) + {Cell(x + w - 1, y)};
    } else {
      assert BoxRow(x, y, w) == {};
    }
  }

  lemma BoxStep(b: Box)
    requires b.h > 0
    ensures |CellsOf(b)| == |CellsOf(b.(h := b.h - 1))| + b.w
  {
    var y := b.y + b.h - 1;
    BoxRowSize(b.x, y, b.w);
    assert CellsOf(b) == CellsOf(b.(h := b.h - 1)) + BoxRow(b.x, y, b.w);
  }

  lemma {:induction false} BoxSize(b: Box)
    ensures |CellsOf(b)| == b.w * b.h
    decreases b.h
  {
    if b.h > 0 {
      BoxStep(b);
      BoxSize(b.(h := b.h - 1));
      assert b.w * b.h == b.w * (b.h - 1) + b.w;
    } else {
      assert CellsOf(b) == {};
    }
  }

  lemma UnionSize<T>(a: set<T>, b: set<T>)
    ensures |a + b| <= |a| + |b|
  {
    assert a + b == a + (b - a);
    SubsetSize(b - a, b);
  }

  /** Cells that are all in boxes are no more than the area of the boxes. */
  lemma {:induction false} CoveredSize(cells: set<Cell>, boxes: seq<Box>)
    requires forall c :: c in cells ==> InBoxes(boxes, c)
    ensures |cells| <= Area(boxes)
    decreases |boxes|
  {
    if boxes == [] {
      assert cells == {};
    } else {
      var k := |boxes| - 1;
      var last := CellsOf(boxes[k]);
      forall c | c in cells - last ensures InBoxes(boxes[..k], c) {
        var i :| 0 <= i < |boxes| && InBox(boxes[i], c);
        assert InBox(boxes[..k][i], c);
      }
      CoveredSize(cells - last, boxes[..k]);
      BoxSize(boxes[k]);
      SplitSize(cells, last);
    }
  }

  lemma SplitSize<T>(cells: set<T>, last: set<T>)
    ensures |cells| <= |cells - last| + |last|
  {
    SubsetSize(cells, (cells - last) + last);
    UnionSize(cells - last, last);
  }

  // ---------- the function patterns are in boxes ----------

  predicate AllInBoxes(dots: seq<Dot>, boxes: seq<Box>) {
    forall i :: 0 <= i < |dots| ==> InBoxes(boxes, dots[i].cell)
  }

  lemma InFirst(a: seq<Box>, b: seq<Box>, c: Cell)
    requires InBoxes(a, c)
    ensures InBoxes(a + b, c)
  {
    var i :| 0 <= i < |a| && InBox(a[i], c);
    assert InBox((a + b)[i], c);
  }

  lemma InSecond(a: seq<Box>, b: seq<Box>, c: Cell)
    requires InBoxes(b, c)
    ensures InBoxes(a + b, c)
  {
    var i :| 0 <= i < |b| && InBox(b[i], c);
    assert InBox((a + b)[|a| + i], c);
  }

  lemma AllInFirst(dots: seq<Dot>, a: seq<Box>, b: seq<Box>)
    requires AllInBoxes(dots, a)
    ensures AllInBoxes(dots, a + b)
  {
    forall i | 0 <= i < |dots| ensures InBoxes(a + b, dots[i].cell) {
      InFirst(a, b, dots[i].cell);
    }
  }

  lemma AllInSecond(dots: seq<Dot>, a: seq<Box>, b: seq<Box>)
    requires AllInBoxes(dots, b)
    ensures AllInBoxes(dots, a + b)
  {
    forall i | 0 <= i < |dots| ensures InBoxes(a + b, dots[i].cell) {
      InSecond(a, b, dots[i].cell);
    }
  }

  lemma ConcatInBoxes(s: seq<Dot>, t: seq<Dot>, boxes: seq<Box>)
    requires AllInBoxes(s, boxes) && AllInBoxes(t, boxes)
    ensures AllInBoxes(s + t, boxes)
  {}

  /** The three corners with their formats, and the timing patterns between them. */
  function Fixed(n: nat): (s: seq<Box>)
    requires n >= 21
    ensures |s| == 5
    ensures s[0] == Box(0, 0, 9, 9) && s[1] == Box(n - 8, 0, 8, 9) && s[2] == Box(0, n - 8, 9, 8)
    ensures s[3] == Box(6, 9, 1, n - 17) && s[4] == Box(9, 6, n - 17, 1)
  {
    [Box(0, 0, 9, 9), Box(n - 8, 0, 8, 9), Box(0, n - 8, 9, 8), Box(6, 9, 1, n - 17), Box(9, 6, n - 17, 1)]
  }

  /** The cells of the corners and the timing patterns. */
  predicate InFixed(n: nat, c: Cell) {
    || (0 <= c.x < 9 && 0 <= c.y < 9)
    || (n - 8 <= c.x < n && 0 <= c.y < 9)
    || (0 <= c.x < 9 && n - 8 <= c.y < n)
    || (c.x == 6 && 9 <= c.y < n - 8)
    || (9 <= c.x < n - 8 && c.y == 6)
  }

  lemma InFixedBoxes(n: nat, c: Cell)
    requires n >= 21 && InFixed(n, c)
    ensures InBoxes(Fixed(n), c)
  {
    var s := Fixed(n);
    assert InBox(s[0], c) || InBox(s[1], c) || InBox(s[2], c) || InBox(s[3], c) || InBox(s[4], c);
  }

  predicate AllFixed(n: nat, dots: seq<Dot>) {
    forall i :: 0 <= i < |dots| ==> InFixed(n, dots[i].cell)
  }

  lemma AllFixedInBoxes(n: nat, dots: seq<Dot>)
    requires n >= 21 && AllFixed(n, dots)
    ensures AllInBoxes(dots, Fixed(n))
  {
    forall i | 0 <= i < |dots| ensures InBoxes(Fixed(n), dots[i].cell) {
      InFixedBoxes(n, dots[i].cell);
    }
  }

  lemma {:induction false} TimingFixed(n: nat, k: nat)
    requires k <= n && n >= 21
    ensures AllFixed(n, Timing(k))
    decreases k
  {
    if k > 0 {
      TimingFixed(n, k - 1);
    }
  }

  lemma {:induction false} ClipFixed(n: nat, dots: seq<Dot>)
    requires forall i :: 0 <= i < |dots| && Inside(n, dots[i].cell) ==> InFixed(n, dots[i].cell)
    ensures AllFixed(n, Clip(n, dots))
    decreases |dots|
  {
    if dots != [] {
      ClipFixed(n, dots[..|dots| - 1]);
    }
  }

  lemma FinderFixed(n: nat, x: int, y: int)
    requires n >= 21 && (x == 3 || x == n - 4) && (y == 3 || y == n - 4) && (x == 3 || y == 3)
    ensures AllFixed(n, Finder(n, x, y))
  {
    var dots := seq(81, k requires 0 <= k =>
      var dx, dy := k % 9 - 4, k / 9 - 4;
      Dot(Cell(x + dx, y + dy), Chebyshev(dx, dy) != 2 && Chebyshev(dx, dy) != 4));
    forall i | 0 <= i < 81 ensures Inside(n, dots[i].cell) ==> InFixed(n, dots[i].cell) {
      assert dots[i].cell == Cell(x + (i % 9 - 4), y + (i / 9 - 4));
    }
    ClipFixed(n, dots);
  }

  lemma FormatFixed(n: nat, bits: seq<bool>)
    requires n >= 21 && |bits| == 15
    ensures AllFixed(n, FormatDots(n, bits))
  {}

  function VersionBoxes(n: nat, ver: nat): seq<Box> {
    if ver < 7 then [] else [Box(n - 11, 0, 3, 6), Box(0, n - 11, 6, 3)]
  }

  lemma VersionInBoxes(n: nat, ver: nat)
    requires n >= 21
    ensures AllInBoxes(VersionDots(n, ver), VersionBoxes(n, ver))
  {
    var dots, boxes := VersionDots(n, ver), VersionBoxes(n, ver);
    forall i | 0 <= i < |dots| ensures InBoxes(boxes, dots[i].cell) {
      assert InBox(boxes[0], dots[i].cell) || InBox(boxes[1], dots[i].cell);
    }
  }

  // ---------- alignment patterns ----------

  /** What pattern (i, j) covers outside the timing patterns. */
  function PatternBoxes(pos: nat -> int, a: nat, i: nat, j: nat): seq<Box> {
    if IsCorner(a - 1, i, j) then []
    else if i == 0 then [Box(pos(i) - 2, pos(j) - 2, 2, 5), Box(pos(i) + 1, pos(j) - 2, 2, 5)]
    else if j == 0 then [Box(pos(i) - 2, pos(j) - 2, 5, 2), Box(pos(i) - 2, pos(j) + 1, 5, 2)]
    else [Box(pos(i) - 2, pos(j) - 2, 5, 5)]
  }

  function AlignBoxes(pos: nat -> int, a: nat, i: nat, j: nat): seq<Box>
    requires j <= a
    decreases i, j
  {
    if j > 0 then AlignBoxes(pos, a, i, j - 1) + PatternBoxes(pos, a, i, j - 1)
    else if i > 0 then AlignBoxes(pos, a, i - 1, a)
    else []
  }

  /** Between the corners, patterns on the timing lines are wholly between the finders. */
  lemma AlignPositionBetween(ver: nat, i: nat)
    requires 2 <= ver <= 40 && 1 <= i < NumAlign(ver) - 1
    ensures 11 <= AlignPosition(ver, i) <= Size(ver) - 11
  {
    AlignPositionInside(ver, i);
  }

  /** The first position is on the timing line, and the others but the last are between the finders. */
  predicate Between(n: nat, pos: nat -> int, a: nat) {
    n >= 21 && pos(0) == 6 && forall i :: 1 <= i < a - 1 ==> 11 <= pos(i) <= n - 11
  }

  /** Every cell of a pattern is in its boxes or on a timing line. */
  lemma CellCovered(n: nat, pos: nat -> int, a: nat, i: nat, j: nat, c: Cell)
    requires Between(n, pos, a) && i < a && j < a && !IsCorner(a - 1, i, j)
    requires pos(i) - 2 <= c.x <= pos(i) + 2 && pos(j) - 2 <= c.y <= pos(j) + 2
    ensures InBoxes(PatternBoxes(pos, a, i, j), c) || InFixed(n, c)
  {
    var boxes := PatternBoxes(pos, a, i, j);
    if i == 0 {
      assert c.x != 6 ==> InBox(boxes[0], c) || InBox(boxes[1], c);
    } else if j == 0 {
      assert c.y != 6 ==> InBox(boxes[0], c) || InBox(boxes[1], c);
    } else {
      assert InBox(boxes[0], c);
    }
  }

  lemma PatternCovered(n: nat, pos: nat -> int, a: nat, i: nat, j: nat)
    requires Between(n, pos, a) && i < a && j < a && !IsCorner(a - 1, i, j)
    ensures AllInBoxes(Alignment(pos(i), pos(j)), Fixed(n) + PatternBoxes(pos, a, i, j))
  {
    var dots, fixed, boxes := Alignment(pos(i), pos(j)), Fixed(n), PatternBoxes(pos, a, i, j);
    forall k | 0 <= k < |dots| ensures InBoxes(fixed + boxes, dots[k].cell) {
      var c := dots[k].cell;
      CellCovered(n, pos, a, i, j, c);
      if InBoxes(boxes, c) {
        InSecond(fixed, boxes, c);
      } else {
        InFixedBoxes(n, c);
        InFirst(fixed, boxes, c);
      }
    }
  }

  /** Boxes between others may be added. */
  lemma AllInMore(dots: seq<Dot>, a: seq<Box>, b: seq<Box>, c: seq<Box>)
    requires AllInBoxes(dots, a + c)
    ensures AllInBoxes(dots, a + (b + c))
  {
    forall i | 0 <= i < |dots| ensures InBoxes(a + (b + c), dots[i].cell) {
      var k :| 0 <= k < |a + c| && InBox((a + c)[k], dots[i].cell);
      assert InBox((a + (b + c))[if k < |a| then k else k + |b|], dots[i].cell);
    }
  }

  lemma AppendCovered(fixed: seq<Box>, dots: seq<Dot>, boxes: seq<Box>, more: seq<Dot>, extra: seq<Box>)
    requires AllInBoxes(dots, fixed + boxes) && AllInBoxes(more, fixed + extra)
    ensures AllInBoxes(dots + more, fixed + (boxes + extra))
  {
    AllInFirst(dots, fixed + boxes, extra);
    assert (fixed + boxes) + extra == fixed + (boxes + extra);
    AllInMore(more, fixed, boxes, extra);
    ConcatInBoxes(dots, more, fixed + (boxes + extra));
  }

  lemma {:induction false} AlignmentsCovered(n: nat, pos: nat -> int, a: nat, i: nat, j: nat)
    requires Between(n, pos, a) && j <= a && i <= a && (j > 0 ==> i < a)
    ensures AllInBoxes(AlignmentsBefore(pos, a, i, j), Fixed(n) + AlignBoxes(pos, a, i, j))
    decreases i, j
  {
    if j > 0 {
      AlignmentsCovered(n, pos, a, i, j - 1);
      if !IsCorner(a - 1, i, j - 1) {
        PatternCovered(n, pos, a, i, j - 1);
        AppendCovered(Fixed(n), AlignmentsBefore(pos, a, i, j - 1), AlignBoxes(pos, a, i, j - 1),
                      Alignment(pos(i), pos(j - 1)), PatternBoxes(pos, a, i, j - 1));
      } else {
        AppendCovered(Fixed(n), AlignmentsBefore(pos, a, i, j - 1), AlignBoxes(pos, a, i, j - 1), [], []);
      }
    } else if i > 0 {
      AlignmentsCovered(n, pos, a, i - 1, a);
    }
  }

  // ---------- the area ----------

  function PatternArea(a: nat, i: nat, j: nat): nat {
    if IsCorner(a - 1, i, j) then 0 else if i == 0 || j == 0 then 20 else 25
  }

  lemma AreaOfTwo(b: Box, c: Box)
    ensures Area([b]) == b.w * b.h && Area([b, c]) == b.w * b.h + c.w * c.h
  {
    assert [b, c][..1] == [b] && [b][..0] == [];
  }

  lemma PatternAreaIs(pos: nat -> int, a: nat, i: nat, j: nat)
    ensures Area(PatternBoxes(pos, a, i, j)) == PatternArea(a, i, j)
  {
    var boxes := PatternBoxes(pos, a, i, j);
    if boxes != [] {
      AreaOfTwo(boxes[0], boxes[|boxes| - 1]);
    }
  }

  /** The area of the patterns before (i, j) of a by a. */
  function AreaBefore(a: nat, i: nat, j: nat): nat
    requires j <= a
    decreases i, j
  {
    if j > 0 then AreaBefore(a, i, j - 1) + PatternArea(a, i, j - 1)
    else if i > 0 then AreaBefore(a, i - 1, a)
    else 0
  }

  ghost predicate Additive(area: seq<Box> -> nat) {
    area([]) == 0 && forall s, t {:trigger area(s + t)} :: area(s + t) == area(s) + area(t)
  }

  lemma {:induction false} AlignAreaBy(area: seq<Box> -> nat, pos: nat -> int, a: nat, i: nat, j: nat)
    requires j <= a && Additive(area)
    requires forall k: nat, l: nat :: area(PatternBoxes(pos, a, k, l)) == PatternArea(a, k, l)
    ensures area(AlignBoxes(pos, a, i, j)) == AreaBefore(a, i, j)
    decreases i, j
  {
    if j > 0 {
      AlignAreaBy(area, pos, a, i, j - 1);
    } else if i > 0 {
      AlignAreaBy(area, pos, a, i - 1, a);
    }
  }

  lemma AlignAreaIs(pos: nat -> int, a: nat)
    ensures Area(AlignBoxes(pos, a, a, 0)) == AreaBefore(a, a, 0)
  {
    var area: seq<Box> -> nat := s => Area(s);
    forall s: seq<Box>, t: seq<Box> ensures Area(s + t) == Area(s) + Area(t) {
      AreaConcat(s, t);
    }
    forall k: nat, l: nat ensures Area(PatternBoxes(pos, a, k, l)) == PatternArea(a, k, l) {
      PatternAreaIs(pos, a, k, l);
    }
    AlignAreaBy(area, pos, a, a, 0);
  }

  /** The area of the first j patterns of a row. */
  function RowArea(a: nat, i: nat, j: nat): int
    requires a >= 2 && j <= a
  {
    if j == 0 then 0
    else if i == 0 then 20 * (if j == a then a - 2 else j - 1)
    else (if i == a - 1 then 0 else 20) + 25 * (j - 1)
  }

  lemma {:induction false} AreaInRow(a: nat, i: nat, j: nat)
    requires a >= 2 && j <= a && i < a
    ensures AreaBefore(a, i, j) == AreaBefore(a, i, 0) + RowArea(a, i, j)
    decreases j
  {
    if j > 0 {
      AreaInRow(a, i, j - 1);
    }
  }

  lemma {:induction false} AreaOfRows(a: nat, i: nat)
    requires a >= 2 && 1 <= i <= a
    ensures AreaBefore(a, i, 0) == 20 * (a - 2) + (i - 1) * (25 * a - 5) - (if i == a then 20 else 0)
    decreases i
  {
    AreaInRow(a, i - 1, a);
    if i > 1 {
      AreaOfRows(a, i - 1);
      assert (i - 1) * (25 * a - 5) == (i - 2) * (25 * a - 5) + (25 * a - 5);
    }
  }

  lemma AlignArea(a: nat)
    requires a >= 2
    ensures AreaBefore(a, a, 0) == (25 * a - 10) * a - 55
  {
    AreaOfRows(a, a);
    assert (a - 1) * (25 * a - 5) == 25 * (a * a) - 30 * a + 5;
    assert (25 * a - 10) * a == 25 * (a * a) - 10 * a;
  }

  // ---------- all function patterns ----------

  function AllAlignBoxes(ver: nat): seq<Box> {
    if ver < 2 then [] else AlignBoxes(Positions(ver), NumAlign(ver), NumAlign(ver), 0)
  }

  lemma AllAlignmentsCovered(ver: nat)
    requires 1 <= ver <= 40
    ensures AllInBoxes(Alignments(ver), Fixed(Size(ver)) + AllAlignBoxes(ver))
  {
    if ver >= 2 {
      forall i | 1 <= i < NumAlign(ver) - 1 ensures 11 <= Positions(ver)(i) <= Size(ver) - 11 {
        AlignPositionBetween(ver, i);
      }
      AlignmentsCovered(Size(ver), Positions(ver), NumAlign(ver), NumAlign(ver), 0);
    }
  }

  /** Boxes that cover all function patterns. */
  function Cover(ver: nat): seq<Box>
    requires ver >= 1
  {
    Fixed(Size(ver)) + AllAlignBoxes(ver) + VersionBoxes(Size(ver), ver)
  }

  lemma FixedCovered(ver: nat, dots: seq<Dot>)
    requires ver >= 1 && AllFixed(Size(ver), dots)
    ensures AllInBoxes(dots, Cover(ver))
  {
    var fixed, align, version := Fixed(Size(ver)), AllAlignBoxes(ver), VersionBoxes(Size(ver), ver);
    AllFixedInBoxes(Size(ver), dots);
    AllInFirst(dots, fixed, align);
    AllInFirst(dots, fixed + align, version);
  }

  lemma InBoxesAll(boxes: seq<Box>, a: seq<Dot>, b: seq<Dot>, c: seq<Dot>, d: seq<Dot>, e: seq<Dot>, f: seq<Dot>, g: seq<Dot>)
    requires AllInBoxes(a, boxes) && AllInBoxes(b, boxes) && AllInBoxes(c, boxes) && AllInBoxes(d, boxes)
    requires AllInBoxes(e, boxes) && AllInBoxes(f, boxes) && AllInBoxes(g, boxes)
    ensures AllInBoxes(Join(a, b, c, d, e, f, g), boxes)
  {
    ConcatInBoxes(f, g, boxes);
    ConcatInBoxes(e, f + g, boxes);
    ConcatInBoxes(d, e + (f + g), boxes);
    ConcatInBoxes(c, d + (e + (f + g)), boxes);
    ConcatInBoxes(b, c + (d + (e + (f + g))), boxes);
    ConcatInBoxes(a, b + (c + (d + (e + (f + g)))), boxes);
  }

  lemma AlignmentsInCover(ver: nat)
    requires 1 <= ver <= 40
    ensures AllInBoxes(Alignments(ver), Cover(ver))
  {
    AllAlignmentsCovered(ver);
    AllInFirst(Alignments(ver), Fixed(Size(ver)) + AllAlignBoxes(ver), VersionBoxes(Size(ver), ver));
  }

  lemma VersionInCover(ver: nat)
    requires 1 <= ver <= 40
    ensures AllInBoxes(VersionDots(Size(ver), ver), Cover(ver))
  {
    VersionInBoxes(Size(ver), ver);
    AllInSecond(VersionDots(Size(ver), ver), Fixed(Size(ver)) + AllAlignBoxes(ver), VersionBoxes(Size(ver), ver));
  }

  lemma TimingInCover(ver: nat)
    requires ver >= 1
    ensures AllInBoxes(Timing(Size(ver)), Cover(ver))
  {
    TimingFixed(Size(ver), Size(ver));
    FixedCovered(ver, Timing(Size(ver)));
  }

  lemma FinderInCover(ver: nat, x: int, y: int)
    requires ver >= 1
    requires (x == 3 || x == Size(ver) - 4) && (y == 3 || y == Size(ver) - 4) && (x == 3 || y == 3)
    ensures AllInBoxes(Finder(Size(ver), x, y), Cover(ver))
  {
    FinderFixed(Size(ver), x, y);
    FixedCovered(ver, Finder(Size(ver), x, y));
  }

  lemma FormatInCover(ver: nat, bits: seq<bool>)
    requires ver >= 1 && |bits| == 15
    ensures AllInBoxes(FormatDots(Size(ver), bits), Cover(ver))
  {
    FormatFixed(Size(ver), bits);
    FixedCovered(ver, FormatDots(Size(ver), bits));
  }

  lemma FunctionDotsIn(ver: nat, level: Level, boxes: seq<Box>)
    requires AllInBoxes(Timing(Size(ver)), boxes) && AllInBoxes(Finder(Size(ver), 3, 3), boxes)
    requires AllInBoxes(Finder(Size(ver), Size(ver) - 4, 3), boxes) && AllInBoxes(Finder(Size(ver), 3, Size(ver) - 4), boxes)
    requires AllInBoxes(Alignments(ver), boxes) && AllInBoxes(VersionDots(Size(ver), ver), boxes)
    requires AllInBoxes(FormatDots(Size(ver), FormatBits(level, 0)), boxes)
    ensures AllInBoxes(FunctionDots(ver, level), boxes)
  {
    var n := Size(ver);
    InBoxesAll(boxes, Timing(n), Finder(n, 3, 3), Finder(n, n - 4, 3), Finder(n, 3, n - 4), Alignments(ver),
               FormatDots(n, FormatBits(level, 0)), VersionDots(n, ver));
  }

  lemma FunctionDotsCovered(ver: nat, level: Level)
    requires 1 <= ver <= 40
    ensures AllInBoxes(FunctionDots(ver, level), Cover(ver))
  {
    TimingInCover(ver);
    FinderInCover(ver, 3, 3);
    FinderInCover(ver, Size(ver) - 4, 3);
    FinderInCover(ver, 3, Size(ver) - 4);
    AlignmentsInCover(ver);
    FormatInCover(ver, FormatBits(level, 0));
    VersionInCover(ver);
    FunctionDotsIn(ver, level, Cover(ver));
  }

  lemma FixedArea(n: nat)
    requires n >= 21
    ensures Area(Fixed(n)) == 225 + 2 * (n - 17)
  {
    var s := Fixed(n);
    assert s[..4][..3] == s[..3] && s[..3][..2] == s[..2] && s[..2][..1] == s[..1] && s[..1][..0] == [];
    assert Area(s[..1]) == 81;
    assert Area(s[..2]) == 153;
    assert Area(s[..3]) == 225;
    assert Area(s[..4]) == 225 + (n - 17);
  }

  lemma VersionArea(n: nat, ver: nat)
    ensures Area(VersionBoxes(n, ver)) == if ver < 7 then 0 else 36
  {
    AreaOfTwo(Box(n - 11, 0, 3, 6), Box(0, n - 11, 6, 3));
  }

  lemma AlignAreaOf(pos: nat -> int, a: nat)
    requires a >= 2
    ensures Area(AlignBoxes(pos, a, a, 0)) == (25 * a - 10) * a - 55
  {
    AlignAreaIs(pos, a);
    AlignArea(a);
  }

  lemma AllAlignArea(ver: nat)
    ensures Area(AllAlignBoxes(ver)) == if ver < 2 then 0 else (25 * NumAlign(ver) - 10) * NumAlign(ver) - 55
  {
    if ver >= 2 {
      AlignAreaOf(Positions(ver), NumAlign(ver));
    }
  }

  lemma CoverArea(ver: nat)
    requires ver >= 1
    ensures Area(Cover(ver)) == 225 + 8 * ver + Area(AllAlignBoxes(ver)) + if ver < 7 then 0 else 36
  {
    var fixed, align, version := Fixed(Size(ver)), AllAlignBoxes(ver), VersionBoxes(Size(ver), ver);
    AreaConcat(fixed + align, version);
    AreaConcat(fixed, align);
    FixedArea(Size(ver));
    VersionArea(Size(ver), ver);
  }

  lemma SquareOfSize(ver: nat)
    ensures Size(ver) * Size(ver) == (16 * ver + 128) * ver + 8 * ver + 289
  {
    assert Size(ver) * Size(ver) == 16 * (ver * ver) + 136 * ver + 289;
    assert (16 * ver + 128) * ver == 16 * (ver * ver) + 128 * ver;
  }

  lemma Subtract(ver: nat, align: nat)
    requires ver >= 1 && align == if ver < 2 then 0 else (25 * NumAlign(ver) - 10) * NumAlign(ver) - 55
    ensures NumRawDataModules(ver) == (16 * ver + 128) * ver + 64 - align - if ver < 7 then 0 else 36
  {}

  /** The boxes and the data modules make up the whole grid. */
  lemma CoverAndData(ver: nat)
    requires 1 <= ver <= 40
    ensures Area(Cover(ver)) + NumRawDataModules(ver) == Size(ver) * Size(ver)
  {
    CoverArea(ver);
    AllAlignArea(ver);
    AddUpAreas(ver, Area(Cover(ver)), Area(AllAlignBoxes(ver)));
  }

  lemma AddUpAreas(ver: nat, cover: nat, align: nat)
    requires ver >= 1 && align == if ver < 2 then 0 else (25 * NumAlign(ver) - 10) * NumAlign(ver) - 55
    requires cover == 225 + 8 * ver + align + if ver < 7 then 0 else 36
    ensures cover + NumRawDataModules(ver) == Size(ver) * Size(ver)
  {
    Subtract(ver, align);
    SquareOfSize(ver);
  }

  // ---------- the free cells ----------

  function FreeSet(free: Cell -> bool, cells: seq<Cell>): set<Cell> {
    set c | c in cells && free(c)
  }

  lemma {:induction false} FreeIsCard(free: Cell -> bool, cells: seq<Cell>)
    requires Distinct(cells)
    ensures Free(free, cells) == |FreeSet(free, cells)|
    decreases |cells|
  {
    if cells == [] {
      assert FreeSet(free, cells) == {};
    } else {
      var k := |cells| - 1;
      var init, last := cells[..k], cells[k];
      FreeIsCard(free, init);
      assert cells == init + [last];
      assert FreeSet(free, cells) == FreeSet(free, init) + if free(last) then {last} else {};
    }
  }

  lemma {:induction false} TimingCovers(k: nat, y: nat)
    requires y < k
    ensures Covers(Timing(k), Cell(6, y))
    decreases k
  {
    var dots := Timing(k);
    if y == k - 1 {
      assert dots[|dots| - 2].cell == Cell(6, y);
    } else {
      TimingCovers(k - 1, y);
      CoversLeft(Timing(k - 1), dots[|dots| - 2..], Cell(6, y));
      assert dots == Timing(k - 1) + dots[|dots| - 2..];
    }
  }

  lemma CoversFirst(a: seq<Dot>, b: seq<Dot>, c: seq<Dot>, d: seq<Dot>, e: seq<Dot>, f: seq<Dot>, g: seq<Dot>, cell: Cell)
    requires Covers(a, cell)
    ensures Covers(Join(a, b, c, d, e, f, g), cell)
  {
    CoversLeft(a, b + (c + (d + (e + (f + g)))), cell);
  }

  lemma FunctionDotsCoverTiming(ver: nat, level: Level, c: Cell)
    requires Covers(Timing(Size(ver)), c)
    ensures Covers(FunctionDots(ver, level), c)
  {
    var n := Size(ver);
    CoversFirst(Timing(n), Finder(n, 3, 3), Finder(n, n - 4, 3), Finder(n, 3, n - 4), Alignments(ver),
                FormatDots(n, FormatBits(level, 0)), VersionDots(n, ver), c);
  }

  /** A map of function modules that are all in boxes, among them column 6. */
  ghost predicate Boxed(n: nat, fn: Grid, boxes: seq<Box>) {
    && Square(fn, n)
    && (forall c :: Inside(n, c) && Get(fn, n, c) ==> InBoxes(boxes, c))
    && forall c :: Inside(n, c) && c.x == 6 ==> Get(fn, n, c)
  }

  lemma CanvasBoxed(ver: nat, level: Level)
    requires 1 <= ver <= 40
    ensures Boxed(Size(ver), CanvasOf(ver, level).fn, Cover(ver))
  {
    var n, dots := Size(ver), FunctionDots(ver, level);
    FunctionDotsInside(ver, level);
    FunctionDotsCovered(ver, level);
    forall c | Inside(n, c) ensures Get(CanvasOf(ver, level).fn, n, c) <==> Covers(dots, c) {
      MarkAt(Blank(n), n, dots, c);
    }
    forall c | Inside(n, c) && c.x == 6 ensures Covers(dots, c) {
      TimingCovers(n, c.y);
      FunctionDotsCoverTiming(ver, level, c);
    }
  }

  /** The free cells of the walk are at least the cells outside the boxes. */
  lemma FreeAtLeast(n: nat, fn: Grid, boxes: seq<Box>)
    requires n >= 7 && n % 2 == 1 && Boxed(n, fn, boxes)
    ensures Free(FreeIn(n, fn), Walk(n)) + Area(boxes) >= n * n
  {
    var all, free := PenaltyScore.Rows(n, n), FreeIn(n, fn);
    WalkVisitsOnce(n);
    FreeIsCard(free, Walk(n));
    var taken := set c | c in all && !free(c);
    CoveredSize(taken, boxes);
    RowsSize(n, n);
    assert all - FreeSet(free, Walk(n)) <= taken;
    SubsetSize(all - FreeSet(free, Walk(n)), taken);
    SplitSize(all, FreeSet(free, Walk(n)));
  }

  lemma FreeModules(ver: nat, fn: Grid)
    requires 1 <= ver <= 40 && Boxed(Size(ver), fn, Cover(ver))
    ensures Free(FreeIn(Size(ver), fn), Walk(Size(ver))) >= NumRawDataModules(ver)
  {
    FreeAtLeast(Size(ver), fn, Cover(ver));
    CoverAndData(ver);
    Difference(Free(FreeIn(Size(ver), fn), Walk(Size(ver))), Area(Cover(ver)), Size(ver) * Size(ver), NumRawDataModules(ver));
  }

  lemma Difference(free: nat, area: nat, all: int, data: int)
    requires free + area >= all && area + data == all
    ensures free >= data
  {}

  /** Every version has a free module for every bit of its codewords. */
  lemma EnoughFree(ver: nat, level: Level)
    requires 1 <= ver <= 40
    ensures Enough(CanvasOf(ver, level), QR.raw(ver))
  {
    CanvasBoxed(ver, level);
    FreeModules(ver, CanvasOf(ver, level).fn);
    RawBits(ver);
  }
}

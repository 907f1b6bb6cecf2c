/**
 The penalty of a whole grid: its lines both ways, its blocks of one colour and
 its balance of black and white.
 */
module PenaltyScore {
  import opened Grids
  import opened Penalty

  /** The largest value every `long` holds. */
  const LONG_MAX: nat := 0x7FFF_FFFF

  function Sum(f: nat -> nat, k: nat): nat {
    if k == 0 then 0 else Sum(f, k - 1) + f(k - 1)
  }

  function ScoreOf(score: seq<bool> -> nat, line: nat -> seq<bool>): nat -> nat {
    i => score(line(i))
  }

  /** The scores of the first k lines. */
  function LineScores(score: seq<bool> -> nat, line: nat -> seq<bool>, k: nat): nat {
    Sum(ScoreOf(score, line), k)
  }

  /** Names the line a score is wanted of. */
  ghost predicate Scored(line: seq<bool>) { true }

  /** `score` is the declarative score of a line. */
  ghost predicate ScoresLines(score: seq<bool> -> nat) {
    forall line {:trigger Scored(line)} :: score(line) == LineScore(line)
  }

  method ScanOne(ghost score: seq<bool> -> nat, line: seq<bool>) returns (s: nat)
    requires ScoresLines(score) && line != []
    ensures s == score(line)
  {
    s := ScanLine(line);
    assert Scored(line);
  }

  method ScanLines(ghost score: seq<bool> -> nat, line: nat -> seq<bool>, n: nat) returns (total: nat)
    requires ScoresLines(score) && forall i :: 0 <= i < n ==> line(i) != []
    ensures total == LineScores(score, line, n)
  {
    total := 0;
    for i := 0 to n
      invariant total == LineScores(score, line, i)
    {
      var s := ScanOne(score, line(i));
      total := total + s;
    }
  }

  // ---------- counting cells ----------

  function Row(m: nat, y: int): (s: set<Cell>)
    ensures forall c :: c in s <==> 0 <= c.x < m && c.y == y
  {
    set x | 0 <= x < m :: Cell(x, y)
  }

  /** The cells of the first k rows with a property. */
  function CellsWhere(p: Cell -> bool, m: nat, k: nat): set<Cell> {
    set c | c in Rows(m, k) && p(c)
  }

  function Rows(m: nat, k: nat): (s: set<Cell>)
    ensures forall c :: c in s <==> 0 <= c.x < m && 0 <= c.y < k
  {
    set x, y | 0 <= x < m && 0 <= y < k :: Cell(x, y)
  }

  method CountRow(p: Cell -> bool, m: nat, y: nat) returns (count: nat)
    ensures count == |CellsWhere(p, m, y + 1)| - |CellsWhere(p, m, y)|
  {
    count := 0;
    ghost var before, seen := CellsWhere(p, m, y), CellsWhere(p, m, y);
    for x := 0 to m
      invariant forall c :: c in seen <==> c in before || (0 <= c.x < x && c.y == y && p(c))
      invariant |seen| == |before| + count
    {
      if p(Cell(x, y)) {
        count := count + 1;
        seen := seen + {Cell(x, y)};
      }
    }
    assert seen == CellsWhere(p, m, y + 1);
  }

  /** How many cells of the m by m corner have a property. */
  method CountCells(p: Cell -> bool, m: nat) returns (count: nat)
    ensures count == |CellsWhere(p, m, m)|
  {
    count := 0;
    assert CellsWhere(p, m, 0) == {};
    for y := 0 to m
      invariant count == |CellsWhere(p, m, y)|
    {
      var row := CountRow(p, m, y);
      count := count + row;
    }
  }

  lemma {:induction false} RowSize(m: nat, y: int)
    ensures |Row(m, y)| == m
  {
    if m > 0 {
      RowSize(m - 1, y);
      assert Row(m, y) == Row(m - 1, y) + {Cell(m - 1, y)};
    } else {
      assert Row(m, y) == {};
    }
  }

  lemma RowsStep(m: nat, k: nat)
    ensures |Rows(m, k + 1)| == |Rows(m, k)| + m
  {
    RowSize(m, k);
    assert Rows(m, k + 1) == Rows(m, k) + Row(m, k);
  }

  lemma {:induction false} RowsSize(m: nat, k: nat)
    ensures |Rows(m, k)| == m * k
  {
    if k > 0 {
      RowsSize(m, k - 1);
      RowsStep(m, k - 1);
      assert m * k == m * (k - 1) + m;
    } else {
      assert Rows(m, k) == {};
    }
  }

  lemma SubsetSize<T>(a: set<T>, b: set<T>)
    requires a <= b
    ensures |a| <= |b|
  {
    assert b == a + (b - a);
  }

  lemma CountBound(p: Cell -> bool, m: nat)
    ensures |CellsWhere(p, m, m)| <= m * m
  {
    RowsSize(m, m);
    SubsetSize(CellsWhere(p, m, m), Rows(m, m));
  }

  // ---------- balance ----------

  function Abs(a: int): nat {
    if a < 0 then -a else a
  }

  /** `(45 - 5k)% <= black / total <= (55 + 5k)%` */
  predicate Balanced(black: nat, total: nat, k: int) {
    (45 - 5 * k) * total <= 100 * black <= (55 + 5 * k) * total
  }

  function Imbalance(black: nat, total: nat): int
    requires total > 0
  {
    (Abs(20 * black - 10 * total) + total - 1) / total - 1
  }

  lemma CeilingDivision(a: nat, d: nat)
    requires d > 0
    ensures var q := (a + d - 1) / d; a <= q * d && (a > 0 ==> (q - 1) * d < a)
  {
    var q := (a + d - 1) / d;
    assert a + d - 1 == q * d + (a + d - 1) % d;
    assert (q - 1) * d == q * d - d;
  }

  lemma BalancedIff(black: nat, total: nat, k: int)
    ensures Balanced(black, total, k) <==> Abs(20 * black - 10 * total) <= (k + 1) * total
  {
    assert (45 - 5 * k) * total == 50 * total - 5 * ((k + 1) * total);
    assert (55 + 5 * k) * total == 50 * total + 5 * ((k + 1) * total);
  }

  lemma Larger(a: int, b: int, d: nat)
    requires a <= b
    ensures a * d <= b * d
  {
    assert b * d == a * d + (b - a) * d;
  }

  /** For an odd number of modules, the encoder's k is the smallest one from 0 on that is balanced. */
  lemma ImbalanceIsLeast(black: nat, total: nat, k: int)
    requires total % 2 == 1
    ensures Imbalance(black, total) >= 0 && Balanced(black, total, Imbalance(black, total))
    ensures k < Imbalance(black, total) ==> !Balanced(black, total, k)
  {
    var a, i := Abs(20 * black - 10 * total), Imbalance(black, total);
    CeilingDivision(a, total);
    BalancedIff(black, total, i);
    BalancedIff(black, total, k);
    assert a >= 10;
    assert i >= 0 by {
      if i < 0 {
        Larger(i + 1, 0, total);
      }
    }
    if k < i {
      Larger(k + 1, i, total);
    }
  }

  lemma ImbalanceBound(black: nat, total: nat)
    requires total > 0 && black <= total
    ensures Imbalance(black, total) <= 9
  {
    var a, i := Abs(20 * black - 10 * total), Imbalance(black, total);
    CeilingDivision(a, total);
    if i >= 10 {
      Larger(10, i, total);
    }
  }

  // ---------- the score ----------

  function ColumnOf(g: Grid, n: nat, x: nat): (s: seq<bool>)
    requires Square(g, n) && x < n
    ensures |s| == n
  {
    seq(n, y requires 0 <= y < n => Get(g, n, Cell(x, y)))
  }

  /** The module at the corner of three others of the same colour. */
  predicate IsBlock(g: Grid, n: nat, c: Cell)
    requires Square(g, n) && 0 <= c.x < n - 1 && 0 <= c.y < n - 1
  {
    && Get(g, n, c) == Get(g, n, Cell(c.x + 1, c.y))
    && Get(g, n, c) == Get(g, n, Cell(c.x, c.y + 1))
    && Get(g, n, c) == Get(g, n, Cell(c.x + 1, c.y + 1))
  }

  /** What of a grid the score depends on. */
  datatype View =
    View(score: seq<bool> -> nat, row: nat -> seq<bool>, column: nat -> seq<bool>, block: Cell -> bool, black: Cell -> bool)

  function ViewOf(g: Grid, n: nat): View
    requires Square(g, n)
  {
    View((line: seq<bool>) => LineScore(line),
         (i: nat) => if i < n then g[i] else [],
         (i: nat) => if i < n then ColumnOf(g, n, i) else [],
         (c: Cell) => 0 <= c.x < n - 1 && 0 <= c.y < n - 1 && IsBlock(g, n, c),
         (c: Cell) => Inside(n, c) && Get(g, n, c))
  }

  /** What is counted in a grid. */
  datatype Parts = Parts(rows: nat, columns: nat, blocks: nat, black: nat)

  function PartsOf(v: View, n: nat): Parts
    requires n > 0
  {
    Parts(LineScores(v.score, v.row, n), LineScores(v.score, v.column, n), |CellsWhere(v.block, n - 1, n - 1)|,
          |CellsWhere(v.black, n, n)|)
  }

  method ComputeParts(v: View, n: nat) returns (parts: Parts)
    requires n > 0 && ScoresLines(v.score) && forall i :: 0 <= i < n ==> v.row(i) != [] && v.column(i) != []
    ensures parts == PartsOf(v, n)
  {
    var rows := ScanLines(v.score, v.row, n);
    var columns := ScanLines(v.score, v.column, n);
    var blocks := CountCells(v.block, n - 1);
    var black := CountCells(v.black, n);
    parts := Parts(rows, columns, blocks, black);
  }

  function Total(parts: Parts, total: nat): int
    requires total > 0
  {
    parts.rows + parts.columns + parts.blocks * N2 + Imbalance(parts.black, total) * N4
  }

  method AddUp(parts: Parts, total: nat) returns (score: int)
    requires total > 0
    ensures score == Total(parts, total)
  {
    score := parts.rows + parts.columns + parts.blocks * N2;
    var k := (Abs(parts.black * 20 - total * 10) + total - 1) / total - 1;
    score := score + k * N4;
  }

  function Evaluate(v: View, n: nat, total: nat): int
    requires n > 0 && total > 0
  {
    Total(PartsOf(v, n), total)
  }

  method ComputeScore(v: View, n: nat, total: nat) returns (score: int)
    requires n > 0 && total > 0 && ScoresLines(v.score)
    requires forall i :: 0 <= i < n ==> v.row(i) != [] && v.column(i) != []
    ensures score == Evaluate(v, n, total)
  {
    var parts := ComputeParts(v, n);
    score := AddUp(parts, total);
  }

  function Area(n: nat): (a: nat)
    ensures n > 0 ==> a > 0
  {
    n * n
  }

  lemma ViewLines(g: Grid, n: nat)
    requires Square(g, n)
    ensures forall i :: 0 <= i < n ==> |ViewOf(g, n).row(i)| == |ViewOf(g, n).column(i)| == n
    ensures ScoresLines(ViewOf(g, n).score)
  {}

  /** The penalty score of a grid. */
  function PenaltyOf(g: Grid, n: nat): int
    requires n > 0 && Square(g, n)
  {
    Evaluate(ViewOf(g, n), n, Area(n))
  }

  method GetPenaltyScore(g: Grid, n: nat) returns (score: int)
    requires n > 0 && Square(g, n)
    ensures score == PenaltyOf(g, n)
  {
    ViewLines(g, n);
    score := ComputeScore(ViewOf(g, n), n, Area(n));
  }

  // ---------- the score fits a long ----------

  lemma {:induction false} FinderCountBound(runs: seq<nat>)
    ensures FinderCount(runs) <= 2 * |runs|
    decreases |runs|
  {
    if |runs| >= 7 {
      FinderCountBound(runs[..|runs| - 1]);
    }
  }

  lemma ExtendBounds(runs: seq<nat>, black: bool)
    requires runs != []
    ensures |Extend(runs, black)| <= |runs| + 1 && RunScore(Extend(runs, black)) <= RunScore(runs) + 3
  {
    var k, next := |runs| - 1, Extend(runs, black);
    if black == LastIsBlack(runs) {
      assert next[..k] == runs[..k];
    } else {
      assert next[..k + 1] == runs;
    }
  }

  lemma {:induction false} RunsBounds(line: seq<bool>)
    ensures |Runs(line)| <= |line| + 1 && RunScore(Runs(line)) <= 3 * |line|
    decreases |line|
  {
    if line != [] {
      RunsBounds(line[..|line| - 1]);
      ExtendBounds(Runs(line[..|line| - 1]), line[|line| - 1]);
    }
  }

  lemma LineScoreBound(line: seq<bool>)
    ensures LineScore(line) <= 243 * |line| + 80
  {
    RunsBounds(line);
    RunsBounds(Bordered(line));
    FinderCountBound(Runs(Bordered(line)));
  }

  lemma {:induction false} SumBound(f: nat -> nat, k: nat, bound: nat)
    requires forall i :: 0 <= i < k ==> f(i) <= bound
    ensures Sum(f, k) <= k * bound
  {
    if k > 0 {
      SumBound(f, k - 1, bound);
      assert k * bound == (k - 1) * bound + bound;
    }
  }

  lemma LineScoresBound(score: seq<bool> -> nat, line: nat -> seq<bool>, k: nat)
    requires k <= 177 && ScoresLines(score) && forall i :: 0 <= i < k ==> |line(i)| <= 177
    ensures LineScores(score, line, k) <= 177 * 44000
  {
    forall i | 0 <= i < k ensures ScoreOf(score, line)(i) <= 44000 {
      assert Scored(line(i));
      LineScoreBound(line(i));
    }
    SumBound(ScoreOf(score, line), k, 44000);
  }

  lemma TotalBound(parts: Parts, total: nat)
    requires parts.rows <= 177 * 44000 && parts.columns <= 177 * 44000 && parts.blocks <= 177 * 177
    requires parts.black <= total && total > 0
    ensures Total(parts, total) < LONG_MAX
  {
    ImbalanceBound(parts.black, total);
  }

  lemma SquareBound(n: nat)
    requires n <= 177
    ensures n * n <= 177 * 177
  {
    Larger(n, 177, n);
  }

  lemma PartsBound(v: View, n: nat)
    requires 0 < n <= 177 && ScoresLines(v.score) && forall i :: 0 <= i < n ==> |v.row(i)| <= 177 && |v.column(i)| <= 177
    ensures var p := PartsOf(v, n);
      p.rows <= 177 * 44000 && p.columns <= 177 * 44000 && p.blocks <= (n - 1) * (n - 1) && p.black <= n * n
  {
    LineScoresBound(v.score, v.row, n);
    LineScoresBound(v.score, v.column, n);
    CountBound(v.block, n - 1);
    CountBound(v.black, n);
  }

  lemma EvaluateBound(v: View, n: nat)
    requires 0 < n <= 177 && ScoresLines(v.score) && forall i :: 0 <= i < n ==> |v.row(i)| <= 177 && |v.column(i)| <= 177
    ensures Evaluate(v, n, Area(n)) < LONG_MAX
  {
    PartsBound(v, n);
    SquareBound(n - 1);
    TotalBound(PartsOf(v, n), Area(n));
  }

  /** Every score is below the initial minimum of the search for a mask. */
  lemma PenaltyBound(g: Grid, n: nat)
    requires 0 < n <= 177 && Square(g, n)
    ensures PenaltyOf(g, n) < LONG_MAX
  {
    ViewLines(g, n);
    EvaluateBound(ViewOf(g, n), n);
  }

  // ---------- rows and columns count alike ----------

  /** The grid with rows and columns exchanged. */
  function Transposed(g: Grid, n: nat): (t: Grid)
    requires Square(g, n)
    ensures Square(t, n)
  {
    seq(n, x requires 0 <= x < n => ColumnOf(g, n, x))
  }

  function Swap(c: Cell): Cell {
    Cell(c.y, c.x)
  }

  lemma TransposedAt(g: Grid, n: nat, c: Cell)
    requires Square(g, n) && Inside(n, c)
    ensures Get(Transposed(g, n), n, c) == Get(g, n, Swap(c))
  {}

  function SwapAll(s: set<Cell>): (t: set<Cell>)
    ensures forall c :: c in t <==> Swap(c) in s
  {
    var t := set c | c in s :: Swap(c);
    assert forall c :: c in t <==> Swap(c) in s by {
      forall c ensures c in t <==> Swap(c) in s {
        assert Swap(Swap(c)) == c;
      }
    }
    t
  }

  lemma {:induction false} SwapSize(s: set<Cell>)
    ensures |SwapAll(s)| == |s|
    decreases s
  {
    if s == {} {
      assert SwapAll(s) == {};
    } else {
      var c :| c in s;
      var rest := s - {c};
      SwapSize(rest);
      SwapRest(s, c);
    }
  }

  lemma SwapRest(s: set<Cell>, c: Cell)
    requires c in s
    ensures SwapAll(s) == SwapAll(s - {c}) + {Swap(c)} && Swap(c) !in SwapAll(s - {c})
  {
    assert Swap(Swap(c)) == c;
    forall d ensures d in SwapAll(s) <==> d in SwapAll(s - {c}) + {Swap(c)} {
      assert Swap(Swap(d)) == d;
    }
  }

  /** A cell has the first property exactly if its mirror image has the second. */
  ghost predicate MirroredIn(p: Cell -> bool, q: Cell -> bool, m: nat) {
    forall c: Cell :: 0 <= c.x < m && 0 <= c.y < m ==> (p(c) <==> q(Swap(c)))
  }

  /** As many cells have a property as have the mirrored one. */
  lemma CountSwapped(p: Cell -> bool, q: Cell -> bool, m: nat)
    requires MirroredIn(p, q, m)
    ensures |CellsWhere(p, m, m)| == |CellsWhere(q, m, m)|
  {
    SwapSize(CellsWhere(q, m, m));
    assert CellsWhere(p, m, m) == SwapAll(CellsWhere(q, m, m));
  }

  lemma {:induction false} SumSame(f: nat -> nat, h: nat -> nat, k: nat)
    requires forall i :: 0 <= i < k ==> f(i) == h(i)
    ensures Sum(f, k) == Sum(h, k)
  {
    if k > 0 {
      SumSame(f, h, k - 1);
    }
  }

  lemma SameLines(score: seq<bool> -> nat, line: nat -> seq<bool>, other: nat -> seq<bool>, n: nat)
    requires forall i :: 0 <= i < n ==> line(i) == other(i)
    ensures LineScores(score, line, n) == LineScores(score, other, n)
  {
    SumSame(ScoreOf(score, line), ScoreOf(score, other), n);
  }

  /** The second view is of the mirrored grid. */
  ghost predicate Mirrored(v: View, w: View, n: nat) {
    && (forall i :: 0 <= i < n ==> w.row(i) == v.column(i) && w.column(i) == v.row(i))
    && v.score == w.score && n > 0 && MirroredIn(w.block, v.block, n - 1) && MirroredIn(w.black, v.black, n)
  }

  lemma MirroredLines(v: View, w: View, n: nat)
    requires v.score == w.score && forall i :: 0 <= i < n ==> w.row(i) == v.column(i) && w.column(i) == v.row(i)
    ensures LineScores(w.score, w.row, n) == LineScores(v.score, v.column, n)
    ensures LineScores(w.score, w.column, n) == LineScores(v.score, v.row, n)
  {
    SameLines(v.score, w.row, v.column, n);
    SameLines(v.score, w.column, v.row, n);
  }

  lemma MirroredParts(v: View, w: View, n: nat)
    requires n > 0 && Mirrored(v, w, n)
    ensures var p, q := PartsOf(v, n), PartsOf(w, n);
      q.rows == p.columns && q.columns == p.rows && q.blocks == p.blocks && q.black == p.black
  {
    MirroredLines(v, w, n);
    CountSwapped(w.block, v.block, n - 1);
    CountSwapped(w.black, v.black, n);
  }

  lemma RowOfTransposed(g: Grid, n: nat, i: nat)
    requires Square(g, n) && i < n
    ensures Transposed(g, n)[i] == ColumnOf(g, n, i) && ColumnOf(Transposed(g, n), n, i) == g[i]
  {}

  lemma BlockOfTransposed(g: Grid, n: nat, c: Cell)
    requires Square(g, n) && 0 <= c.x < n - 1 && 0 <= c.y < n - 1
    ensures IsBlock(Transposed(g, n), n, c) <==> IsBlock(g, n, Swap(c))
  {
    TransposedAt(g, n, c);
    TransposedAt(g, n, Cell(c.x + 1, c.y));
    TransposedAt(g, n, Cell(c.x, c.y + 1));
    TransposedAt(g, n, Cell(c.x + 1, c.y + 1));
  }

  lemma TransposedMirrors(g: Grid, n: nat)
    requires n > 0 && Square(g, n)
    ensures Mirrored(ViewOf(g, n), ViewOf(Transposed(g, n), n), n)
  {
    var v, w := ViewOf(g, n), ViewOf(Transposed(g, n), n);
    forall i | 0 <= i < n ensures w.row(i) == v.column(i) && w.column(i) == v.row(i) {
      RowOfTransposed(g, n, i);
    }
    forall c: Cell | 0 <= c.x < n - 1 && 0 <= c.y < n - 1 ensures w.block(c) <==> v.block(Swap(c)) {
      BlockOfTransposed(g, n, c);
    }
    forall c: Cell | 0 <= c.x < n && 0 <= c.y < n ensures w.black(c) <==> v.black(Swap(c)) {
      TransposedAt(g, n, c);
    }
  }

  lemma SameTotal(p: Parts, q: Parts, total: nat)
    requires total > 0 && q.rows == p.columns && q.columns == p.rows && q.blocks == p.blocks && q.black == p.black
    ensures Total(p, total) == Total(q, total)
  {}

  /** A grid and its mirror image in the diagonal have the same penalty. */
  lemma PenaltyOfTransposed(g: Grid, n: nat)
    requires n > 0 && Square(g, n)
    ensures PenaltyOf(Transposed(g, n), n) == PenaltyOf(g, n)
  {
    TransposedMirrors(g, n);
    MirroredParts(ViewOf(g, n), ViewOf(Transposed(g, n), n), n);
    SameTotal(PartsOf(ViewOf(g, n), n), PartsOf(ViewOf(Transposed(g, n), n), n), Area(n));
  }
}

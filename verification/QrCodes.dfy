/**
 The QR Code object: function patterns, codewords along the zigzag walk, and the
 choice of a mask.
 */
module QrCodes {
  import opened Results
  import opened Bits
  import opened Grids
  import opened Zigzag
  import opened Versions
  import opened Patterns
  import opened PenaltyScore
  import opened Masks

  function MaskOf(msk: nat): (nat, nat) -> bool {
    (x: nat, y: nat) => Inverts(msk, x, y)
  }

  function FormatOf(n: nat, level: Level, msk: nat): seq<Dot> {
    FormatDots(n, FormatBits(level, msk))
  }

  function FreeIn(n: nat, fn: Grid): Cell -> bool
    requires Square(fn, n)
  {
    c => Inside(n, c) && !Get(fn, n, c)
  }

  lemma {:induction false} MarkSame(fn: Grid, n: nat, dots: seq<Dot>)
    requires OnFunction(dots, n, fn)
    ensures Mark(fn, n, dots) == fn
  {
    forall c | Inside(n, c) ensures Get(Mark(fn, n, dots), n, c) == Get(fn, n, c) {
      MarkAt(fn, n, dots, c);
    }
    SameGrid(Mark(fn, n, dots), fn, n);
  }

  /** The mask with the least cost, and of those the first. */
  ghost predicate IsBest(cost: nat -> int, msk: int) {
    && 0 <= msk < 8
    && forall j :: 0 <= j < 8 ==> cost(msk) <= cost(j) && (j < msk ==> cost(msk) < cost(j))
  }

  /** The penalty of a grid finished with each mask. */
  function Cost(level: Level, n: nat, g: Grid, fn: Grid): nat -> int
    requires n >= 21 && Square(g, n) && Square(fn, n)
  {
    (msk: nat) => FormatInside(n, FormatBits(level, msk)); PenaltyOf(Finish(MaskOf(msk), FormatOf(n, level, msk), n, g, fn), n)
  }

  // ---------- before the codewords ----------

  /** A grid of function modules. */
  datatype Canvas = Canvas(n: nat, base: Grid, fn: Grid)

  function CanvasFrom(n: nat, dots: seq<Dot>): (c: Canvas)
    requires DotsInside(n, dots)
    ensures c.n == n && Square(c.base, n) && Square(c.fn, n)
  {
    Canvas(n, Paint(Blank(n), n, dots), Mark(Blank(n), n, dots))
  }

  lemma FunctionDotsInside(ver: nat, level: Level)
    requires 1 <= ver <= 40
    ensures DotsInside(Size(ver), FunctionDots(ver, level))
  {
    var n := Size(ver);
    var f1, f2, f3, a, f, v :=
      Finder(n, 3, 3), Finder(n, n - 4, 3), Finder(n, 3, n - 4), Alignments(ver), FormatOf(n, level, 0), VersionDots(n, ver);
    TimingInside(n, n);
    AllAlignmentsInside(ver);
    FormatInside(n, FormatBits(level, 0));
    InsideAll(n, Timing(n), f1, f2, f3, a, f, v);
  }

  lemma InsideAll(n: nat, a: seq<Dot>, b: seq<Dot>, c: seq<Dot>, d: seq<Dot>, e: seq<Dot>, f: seq<Dot>, g: seq<Dot>)
    requires DotsInside(n, a) && DotsInside(n, b) && DotsInside(n, c) && DotsInside(n, d) && DotsInside(n, e)
    requires DotsInside(n, f) && DotsInside(n, g)
    ensures DotsInside(n, Join(a, b, c, d, e, f, g))
  {
    InsideConcat(n, f, g);
    InsideConcat(n, e, f + g);
    InsideConcat(n, d, e + (f + g));
    InsideConcat(n, c, d + (e + (f + g)));
    InsideConcat(n, b, c + (d + (e + (f + g))));
    InsideConcat(n, a, b + (c + (d + (e + (f + g)))));
  }

  /** The grid with all function patterns, and the map of them. */
  function CanvasOf(ver: nat, level: Level): (c: Canvas)
    requires 1 <= ver <= 40
    ensures c.n == Size(ver) && Square(c.base, c.n) && Square(c.fn, c.n)
  {
    FunctionDotsInside(ver, level);
    CanvasFrom(Size(ver), FunctionDots(ver, level))
  }

  class QrCode {
    var version: nat
    var size: nat
    var level: Level
    var mask: int
    var modules: Grid
    var isFunction: Grid

    predicate Valid()
      reads this
    {
      21 <= size <= 177 && size % 2 == 1 && Square(modules, size) && Square(isFunction, size)
    }

    constructor (ver: nat, level: Level)
      requires 1 <= ver <= 40
      ensures Valid() && version == ver && size == Size(ver) && this.level == level
      ensures modules == isFunction == Blank(size)
    {
      version, size, this.level, mask := ver, Size(ver), level, -1;
      modules, isFunction := Blank(Size(ver)), Blank(Size(ver));
    }

    method SetFunctionModule(c: Cell, black: bool)
      requires Valid() && Inside(size, c)
      modifies `modules, `isFunction
      ensures Valid()
      ensures modules == Set(old(modules), size, c, black) && isFunction == Set(old(isFunction), size, c, true)
    {
      modules := modules[c.y := modules[c.y][c.x := black]];
      isFunction := isFunction[c.y := isFunction[c.y][c.x := true]];
    }

    method DrawDots(dots: seq<Dot>)
      requires Valid() && DotsInside(size, dots)
      modifies `modules, `isFunction
      ensures Valid()
      ensures modules == Paint(old(modules), size, dots) && isFunction == Mark(old(isFunction), size, dots)
    {
      for i := 0 to |dots|
        invariant Valid()
        invariant modules == Paint(old(modules), size, dots[..i])
        invariant isFunction == Mark(old(isFunction), size, dots[..i])
      {
        assert dots[..i + 1][..i] == dots[..i];
        SetFunctionModule(dots[i].cell, dots[i].black);
      }
      assert dots[..|dots|] == dots;
    }

    method DrawFunctionPatterns()
      requires Valid() && 1 <= version <= 40 && size == Size(version) && modules == isFunction == Blank(size)
      modifies `modules, `isFunction
      ensures Valid() && Canvas(size, modules, isFunction) == CanvasOf(version, level)
    {
      FunctionDotsInside(version, level);
      DrawDots(FunctionDots(version, level));
    }

    method DrawFormatBits(msk: nat)
      requires Valid() && OnFunction(FormatOf(size, level, msk), size, isFunction)
      modifies `modules, `isFunction
      ensures Valid() && isFunction == old(isFunction)
      ensures modules == Paint(old(modules), size, FormatOf(size, level, msk))
    {
      MarkSame(isFunction, size, FormatOf(size, level, msk));
      DrawDots(FormatOf(size, level, msk));
    }

    method ApplyMask(msk: int) returns (r: Result<()>)
      requires Valid()
      modifies `modules
      ensures Valid() && (r.Ok? <==> 0 <= msk <= 7)
      ensures modules == if r.Ok? then Masked(MaskOf(msk), size, old(modules), isFunction) else old(modules)
    {
      if msk < 0 || msk > 7 {
        return Err("Mask value out of range");
      }
      ghost var target := Masked(MaskOf(msk), size, modules, isFunction);
      for y := 0 to size
        invariant Square(modules, size)
        invariant forall j :: 0 <= j < y ==> modules[j] == target[j]
        invariant forall j :: y <= j < size ==> modules[j] == old(modules)[j]
      {
        var row := MaskRow(MaskOf(msk), modules[y], isFunction[y], y);
        modules := modules[y := row];
      }
      return Ok(());
    }

    /** The mask and its format, on a grid that agrees with g outside the format. */
    method FinishWith(msk: nat, ghost g: Grid)
      requires Valid() && msk < 8 && FormatReserved(level, size, isFunction)
      requires AgreeOutside(FormatOf(size, level, msk), size, g, modules)
      modifies `modules, `isFunction
      ensures Valid() && isFunction == old(isFunction)
      ensures modules == Finish(MaskOf(msk), FormatOf(size, level, msk), size, g, isFunction)
    {
      Trial(MaskOf(msk), FormatOf(size, level, msk), size, g, modules, isFunction);
      var applied := ApplyMask(msk);
      DrawFormatBits(msk);
    }

    /** Tries a mask and takes it back. */
    method Try(msk: nat, ghost g: Grid) returns (penalty: int)
      requires Valid() && msk < 8 && FormatReserved(level, size, isFunction)
      requires AgreeOutside(FormatOf(size, level, msk), size, g, modules)
      modifies `modules, `isFunction
      ensures Valid() && isFunction == old(isFunction) && AgreeOutside(FormatOf(size, level, msk), size, g, modules)
      ensures penalty == Cost(level, size, g, isFunction)(msk) < LONG_MAX
    {
      Trial(MaskOf(msk), FormatOf(size, level, msk), size, g, modules, isFunction);
      CostBound(level, size, g, isFunction, msk);
      FinishWith(msk, g);
      penalty := GetPenaltyScore(modules, size);
      var undone := ApplyMask(msk);
    }

    method TryNext(msk: nat, ghost g: Grid, ghost cost: nat -> int) returns (penalty: int)
      requires Valid() && msk < 8 && FormatReserved(level, size, isFunction)
      requires Agrees(level, size, g, modules) && Costs(cost, level, size, g, isFunction)
      modifies `modules, `isFunction
      ensures Valid() && isFunction == old(isFunction) && Agrees(level, size, g, modules)
      ensures penalty == cost(msk) < LONG_MAX
    {
      AgreeFormat(size, level, 0, msk, g, modules);
      penalty := Try(msk, g);
      AgreeFormat(size, level, msk, 0, g, modules);
      assert Nth(msk);
    }

    /** The search for the best mask leaves only a format behind. */
    method ChooseMask(ghost cost: nat -> int) returns (msk: int)
      requires Valid() && FormatReserved(level, size, isFunction)
      requires Costs(cost, level, size, modules, isFunction)
      modifies `modules, `isFunction
      ensures Valid() && isFunction == old(isFunction)
      ensures Agrees(level, size, old(modules), modules)
      ensures IsBest(cost, msk)
    {
      msk := -1;
      var minPenalty := LONG_MAX as int;
      for i := 0 to 8
        invariant Valid() && isFunction == old(isFunction)
        invariant Agrees(level, size, old(modules), modules)
        invariant BestBelow(cost, i, msk, minPenalty)
      {
        var penalty := TryNext(i, old(modules), cost);
        BestNext(cost, i, msk, minPenalty);
        if penalty < minPenalty {
          msk := i;
          minPenalty := penalty;
        }
      }
    }

    /** One cell of the walk: the next bit, if the cell is free and a bit is left. */
    method DrawCell(c: Cell, data: seq<Byte>, used: nat) returns (i: nat)
      requires Valid() && Inside(size, c)
      modifies `modules
      ensures Valid()
      ensures Pen(modules, i) == DrawOn(FreeIn(size, isFunction), Unpack(data), size, Pen(old(modules), used), c)
    {
      i := used;
      if !isFunction[c.y][c.x] && i < |data| * 8 {
        UnpackAt(data, i);
        modules := modules[c.y := modules[c.y][c.x := BitOf(data[i / 8], i % 8)]];
        i := i + 1;
      }
    }

    /** Two columns, up or down. */
    method DrawStrip(right: nat, data: seq<Byte>, used: nat, ghost after: seq<Cell> -> Pen, ghost done: seq<Cell>,
                     ghost next: seq<Cell>)
      returns (i: nat)
      requires Valid() && 1 <= right < size && Pen(modules, used) == after(done)
      requires StripDone(size, right, done, 2 * size, next)
      requires Follows(after, FreeIn(size, isFunction), Unpack(data), size)
      modifies `modules
      ensures Valid() && Pen(modules, i) == after(next)
    {
      i := used;
      ghost var cells, free, bits := done, FreeIn(size, isFunction), Unpack(data);
      for vert := 0 to size
        invariant Valid() && StripDone(size, right, done, 2 * vert, cells) && Pen(modules, i) == after(cells)
      {
        for j := 0 to 2
          invariant Valid() && StripDone(size, right, done, 2 * vert + j, cells) && Pen(modules, i) == after(cells)
        {
          var c := Cell(right - j, if Upward(right) then size - 1 - vert else vert);
          StripNext(size, right, done, vert, j, cells, c);
          FollowNext(after, free, bits, size, cells, c);
          i := DrawCell(c, data, i);
          cells := cells + [c];
        }
      }
      StripsSame(size, right, done, 2 * size, cells, next);
    }

    method DrawCodewords(raw: nat, data: seq<Byte>) returns (r: Result<()>)
      requires Valid()
      modifies `modules
      ensures Valid() && AllInside(size, Walk(size))
      ensures r.Ok? <==> |data| == raw && Free(FreeIn(size, isFunction), Walk(size)) >= 8 * |data|
      ensures r.Ok? ==> modules == Draw(FreeIn(size, isFunction), Unpack(data), size, old(modules), Walk(size)).grid
      ensures |data| != raw ==> modules == old(modules)
    {
      WalkInside(size);
      if |data| != raw {
        return Err("Invalid argument");
      }
      ghost var free, bits := FreeIn(size, isFunction), Unpack(data);
      ghost var after := DrawAlong(free, bits, size, modules);
      DrawAlongFollows(free, bits, size, modules);
      var i := WalkAlong(data, after, RestOf(size), Walk(size));
      DrawUses(free, bits, size, old(modules), Walk(size));
      if i != |data| * 8 {
        return Err("Assertion error");
      }
      return Ok(());
    }

    /** The zigzag scan. */
    method WalkAlong(data: seq<Byte>, ghost after: seq<Cell> -> Pen, ghost rest: int -> seq<Cell>, ghost walk: seq<Cell>)
      returns (i: nat)
      requires Valid() && Pen(modules, 0) == after([]) && IsRest(rest, size, walk)
      requires Follows(after, FreeIn(size, isFunction), Unpack(data), size)
      modifies `modules
      ensures Valid() && Pen(modules, i) == after(walk)
    {
      i := 0;
      var right := size - 1;
      ghost var done := [];
      WalkBegins(rest, size, walk);
      while right >= 1
        invariant Valid() && right < size && OnTrack(right)
        invariant done + rest(right) == walk
        invariant Pen(modules, i) == after(done)
      {
        ghost var next := WalkNext(rest, size, right, done, walk);
        if right == 6 {
          right := 5;
        }
        i := DrawStrip(right, data, i, after, done, next);
        done := next;
        right := right - 2;
      }
      WalkEnds(rest, size, right, done, walk);
    }
  }

  // ---------- masks and formats ----------

  /** The cells of the format are function modules, whatever the mask. */
  ghost predicate FormatReserved(level: Level, n: nat, fn: Grid) {
    forall msk: nat :: OnFunction(FormatOf(n, level, msk), n, fn)
  }

  lemma FormatSameCells(n: nat, level: Level, a: nat, b: nat)
    ensures SameCells(FormatOf(n, level, a), FormatOf(n, level, b))
  {
    var s, t := FormatBits(level, a), FormatBits(level, b);
    forall c ensures Covers(FormatDots(n, s), c) <==> Covers(FormatDots(n, t), c) {
      if Covers(FormatDots(n, s), c) {
        FormatCells(n, s, t, c);
      }
      if Covers(FormatDots(n, t), c) {
        FormatCells(n, t, s, c);
      }
    }
  }

  lemma AgreeFormat(n: nat, level: Level, a: nat, b: nat, g: Grid, h: Grid)
    requires AgreeOutside(FormatOf(n, level, a), n, g, h)
    ensures AgreeOutside(FormatOf(n, level, b), n, g, h)
  {
    FormatSameCells(n, level, a, b);
    AgreeSameCells(FormatOf(n, level, a), FormatOf(n, level, b), n, g, h);
  }

  /** The grids differ at most in the cells of the format. */
  ghost predicate Agrees(level: Level, n: nat, g: Grid, h: Grid) {
    AgreeOutside(FormatOf(n, level, 0), n, g, h)
  }

  /** Names the mask a cost is wanted of. */
  ghost predicate Nth(msk: nat) { true }

  /** `cost` is the penalty of g finished with each mask. */
  ghost predicate Costs(cost: nat -> int, level: Level, n: nat, g: Grid, fn: Grid) {
    && n >= 21 && Square(g, n) && Square(fn, n)
    && forall msk: nat {:trigger Nth(msk)} :: msk < 8 ==> cost(msk) == Cost(level, n, g, fn)(msk)
  }

  /** The best of the masks before k. */
  ghost predicate BestBelow(cost: nat -> int, k: nat, msk: int, least: int) {
    if k == 0 then msk == -1 && least == LONG_MAX
    else
      && 0 <= msk < k && least == cost(msk)
      && forall j :: 0 <= j < k ==> cost(msk) <= cost(j) && (j < msk ==> cost(msk) < cost(j))
  }

  lemma BestNext(cost: nat -> int, k: nat, msk: int, least: int)
    requires BestBelow(cost, k, msk, least) && cost(k) < LONG_MAX
    ensures if cost(k) < least then BestBelow(cost, k + 1, k, cost(k)) else BestBelow(cost, k + 1, msk, least)
  {}

  lemma CostBound(level: Level, n: nat, g: Grid, fn: Grid, msk: nat)
    requires 21 <= n <= 177 && Square(g, n) && Square(fn, n)
    ensures Cost(level, n, g, fn)(msk) < LONG_MAX
  {
    FormatInside(n, FormatBits(level, msk));
    PenaltyBound(Finish(MaskOf(msk), FormatOf(n, level, msk), n, g, fn), n);
  }

  // ---------- the walk step by step ----------

  /** `after` gives what is drawn after a list of cells, one cell at a time. */
  ghost predicate Follows(after: seq<Cell> -> Pen, free: Cell -> bool, bits: seq<bool>, n: nat) {
    forall cells, c {:trigger after(cells + [c])} ::
      Square(after(cells).grid, n) && Inside(n, c) ==> after(cells + [c]) == DrawOn(free, bits, n, after(cells), c)
  }

  lemma FollowNext(after: seq<Cell> -> Pen, free: Cell -> bool, bits: seq<bool>, n: nat, cells: seq<Cell>, c: Cell)
    requires Follows(after, free, bits, n) && Inside(n, c) && Square(after(cells).grid, n)
    ensures after(cells + [c]) == DrawOn(free, bits, n, after(cells), c)
  {}

  /** What is drawn after a list of cells, leaving out any that are outside the grid. */
  function DrawInside(free: Cell -> bool, bits: seq<bool>, n: nat, g: Grid, cells: seq<Cell>): (p: Pen)
    requires Square(g, n)
    ensures Square(p.grid, n)
  {
    if cells == [] then Pen(g, 0)
    else
      var k := |cells| - 1;
      var p := DrawInside(free, bits, n, g, cells[..k]);
      if Inside(n, cells[k]) then DrawOn(free, bits, n, p, cells[k]) else p
  }

  lemma {:induction false} DrawInsideIsDraw(free: Cell -> bool, bits: seq<bool>, n: nat, g: Grid, cells: seq<Cell>)
    requires Square(g, n) && AllInside(n, cells)
    ensures DrawInside(free, bits, n, g, cells) == Draw(free, bits, n, g, cells)
    decreases |cells|
  {
    if cells != [] {
      DrawInsideIsDraw(free, bits, n, g, cells[..|cells| - 1]);
    }
  }

  function DrawAlong(free: Cell -> bool, bits: seq<bool>, n: nat, g: Grid): seq<Cell> -> Pen
    requires Square(g, n)
  {
    cells => DrawInside(free, bits, n, g, cells)
  }

  lemma DrawAlongFollows(free: Cell -> bool, bits: seq<bool>, n: nat, g: Grid)
    requires Square(g, n) && AllInside(n, Walk(n))
    ensures Follows(DrawAlong(free, bits, n, g), free, bits, n)
    ensures DrawAlong(free, bits, n, g)([]) == Pen(g, 0)
    ensures DrawAlong(free, bits, n, g)(Walk(n)) == Draw(free, bits, n, g, Walk(n))
  {
    DrawInsideIsDraw(free, bits, n, g, Walk(n));
    forall cells: seq<Cell>, c | Inside(n, c)
      ensures DrawInside(free, bits, n, g, cells + [c]) == DrawOn(free, bits, n, DrawInside(free, bits, n, g, cells), c)
    {
      assert (cells + [c])[..|cells|] == cells;
    }
  }

  /** The first k cells of a strip are done. */
  ghost predicate StripDone(n: nat, right: int, done: seq<Cell>, k: nat, cells: seq<Cell>) {
    && |cells| == |done| + k
    && (forall i :: 0 <= i < |done| ==> cells[i] == done[i])
    && forall i :: 0 <= i < k ==> cells[|done| + i] == StripCell(n, right, i)
  }

  lemma StripNext(n: nat, right: nat, done: seq<Cell>, vert: nat, j: nat, cells: seq<Cell>, c: Cell)
    requires vert < n && j < 2 && 1 <= right < n && StripDone(n, right, done, 2 * vert + j, cells)
    requires c == Cell(right - j, if Upward(right) then n - 1 - vert else vert)
    ensures Inside(n, c) && StripDone(n, right, done, 2 * vert + j + 1, cells + [c])
  {
    assert StripCell(n, right, 2 * vert + j) == c;
  }

  lemma StripsSame(n: nat, right: int, done: seq<Cell>, k: nat, cells: seq<Cell>, next: seq<Cell>)
    requires StripDone(n, right, done, k, cells) && StripDone(n, right, done, k, next)
    ensures cells == next
  {
    forall i | 0 <= i < |cells| ensures cells[i] == next[i] {
      if i >= |done| {
        var k := i - |done|;
        assert cells[|done| + k] == StripCell(n, right, k);
      }
    }
  }

  /** Names the column the rest of the walk is wanted from. */
  ghost predicate Column(right: int) { true }

  /** `rest` gives the walk from every column on. */
  ghost predicate IsRest(rest: int -> seq<Cell>, n: nat, walk: seq<Cell>) {
    walk == rest(n - 1) && forall right {:trigger Column(right)} :: rest(right) == WalkFrom(n, right)
  }

  function RestOf(n: nat): int -> seq<Cell> {
    right => WalkFrom(n, right)
  }

  lemma WalkBegins(rest: int -> seq<Cell>, n: nat, walk: seq<Cell>)
    requires IsRest(rest, n, walk)
    ensures [] + rest(n - 1) == walk
  {}

  lemma WalkNext(rest: int -> seq<Cell>, n: nat, right: int, done: seq<Cell>, walk: seq<Cell>) returns (next: seq<Cell>)
    requires IsRest(rest, n, walk) && right >= 1 && done + rest(right) == walk
    ensures next + rest(Jump(right) - 2) == walk && StripDone(n, Jump(right), done, 2 * n, next)
  {
    var strip, last := Strip(n, Jump(right)), rest(Jump(right) - 2);
    assert Column(right) && Column(Jump(right) - 2);
    next := done + strip;
    assert done + (strip + last) == next + last;
  }

  lemma WalkEnds(rest: int -> seq<Cell>, n: nat, right: int, done: seq<Cell>, walk: seq<Cell>)
    requires IsRest(rest, n, walk) && right < 1 && done + rest(right) == walk
    ensures done == walk
  {
    assert Column(right);
  }

  method MaskRow(inv: (nat, nat) -> bool, row: seq<bool>, fn: seq<bool>, y: nat) returns (r: seq<bool>)
    requires |row| == |fn|
    ensures r == MaskedRow(inv, |row|, row, fn, y)
  {
    r := row;
    for x := 0 to |row|
      invariant |r| == |row|
      invariant forall i :: 0 <= i < x ==> r[i] == Inverted(inv, i, y, row[i], fn[i])
      invariant forall i :: x <= i < |row| ==> r[i] == row[i]
    {
      r := r[x := r[x] != (inv(x, y) && !fn[x])];
    }
  }
}

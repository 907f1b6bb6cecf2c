/**
 The whole encoder: from data codewords to the finished grid.
 */
module QrSymbols {
  import opened Results
  import opened Fields
  import opened Bits
  import opened Grids
  import opened Zigzag
  import opened Versions
  import opened Patterns
  import opened PenaltyScore
  import opened Masks
  import opened QrCodes
  import Interleave
  import ReedSolomon
  import Gf256

  // ---------- the cells of the format are reserved ----------

  lemma CoversRight(a: seq<Dot>, b: seq<Dot>, c: Cell)
    requires Covers(b, c)
    ensures Covers(a + b, c)
  {
    var i :| 0 <= i < |b| && b[i].cell == c;
    assert (a + b)[|a| + i].cell == c;
  }

  lemma CoversLeft(a: seq<Dot>, b: seq<Dot>, c: Cell)
    requires Covers(a, c)
    ensures Covers(a + b, c)
  {
    var i :| 0 <= i < |a| && a[i].cell == c;
    assert (a + b)[i].cell == c;
  }

  lemma CoversSixth(a: seq<Dot>, b: seq<Dot>, c: seq<Dot>, d: seq<Dot>, e: seq<Dot>, f: seq<Dot>, g: seq<Dot>, cell: Cell)
    requires Covers(f, cell)
    ensures Covers(Join(a, b, c, d, e, f, g), cell)
  {
    CoversLeft(f, g, cell);
    CoversRight(e, f + g, cell);
    CoversRight(d, e + (f + g), cell);
    CoversRight(c, d + (e + (f + g)), cell);
    CoversRight(b, c + (d + (e + (f + g))), cell);
    CoversRight(a, b + (c + (d + (e + (f + g)))), cell);
  }

  lemma FunctionDotsCoverFormat(ver: nat, level: Level, msk: nat, c: Cell)
    requires Covers(FormatOf(Size(ver), level, msk), c)
    ensures Covers(FunctionDots(ver, level), c)
  {
    var n := Size(ver);
    FormatSameCells(n, level, msk, 0);
    CoversSixth(Timing(n), Finder(n, 3, 3), Finder(n, n - 4, 3), Finder(n, 3, n - 4), Alignments(ver),
                FormatOf(n, level, 0), VersionDots(n, ver), c);
  }

  lemma FormatOnCanvas(ver: nat, level: Level, msk: nat)
    requires 1 <= ver <= 40
    ensures OnFunction(FormatOf(Size(ver), level, msk), Size(ver), CanvasOf(ver, level).fn)
  {
    var n, dots := Size(ver), FunctionDots(ver, level);
    FormatInside(n, FormatBits(level, msk));
    FunctionDotsInside(ver, level);
    forall c | Inside(n, c) && Covers(FormatOf(n, level, msk), c) ensures Get(CanvasOf(ver, level).fn, n, c) {
      FunctionDotsCoverFormat(ver, level, msk, c);
      MarkAt(Blank(n), n, dots, c);
    }
  }

  lemma CanvasReserved(ver: nat, level: Level)
    requires 1 <= ver <= 40
    ensures FormatReserved(level, Size(ver), CanvasOf(ver, level).fn)
  {
    forall msk: nat ensures OnFunction(FormatOf(Size(ver), level, msk), Size(ver), CanvasOf(ver, level).fn) {
      FormatOnCanvas(ver, level, msk);
    }
  }

  // ---------- codewords ----------

  /** The block parameters of a version at a level. */
  function LayoutOf(t: Capacity, level: Level, ver: int): Interleave.Layout
    requires SoundCapacity(t) && 1 <= ver <= 40
  {
    assert At(level, ver);
    EnoughForEcc(t.blocks(level, ver), t.ecc(level, ver), t.raw(ver));
    Interleave.LayoutFor(t.blocks(level, ver), t.ecc(level, ver), t.raw(ver))
  }

  lemma QuotientAtLeast(b: nat, q: nat, r: nat, e: nat)
    requires r < b && (e + 1) * b <= b * q + r
    ensures q >= e + 1
  {
    if q < e + 1 {
      Larger(q, e, b);
    }
  }

  lemma EnoughForEcc(blocks: nat, ecc: nat, raw: nat)
    requires blocks >= 1 && (ecc + 1) * blocks <= raw
    ensures raw / blocks >= ecc + 1
  {
    Interleave.DivMod(raw, blocks);
    QuotientAtLeast(blocks, raw / blocks, raw % blocks, ecc);
  }

  function EccOf(d: nat): seq<Byte> -> seq<Byte>
    requires d > 0
  {
    data => ReedSolomon.Ecc(Gf256.GF, Gf256.TWO, d, data)
  }

  lemma LayoutFits(t: Capacity, level: Level, ver: int)
    requires SoundCapacity(t) && 1 <= ver <= 40
    ensures var l := LayoutOf(t, level, ver);
      && l.Valid() && 1 <= l.ecc <= 30
      && l.DataStart(l.blocks) == NumDataCodewords(t, level, ver)
      && l.ColumnStart(l.Width()) == t.raw(ver)
  {
    assert At(level, ver);
    EnoughForEcc(t.blocks(level, ver), t.ecc(level, ver), t.raw(ver));
    Interleave.LayoutAddsUp(t.blocks(level, ver), t.ecc(level, ver), t.raw(ver));
  }

  /** All codewords of a symbol, from its data codewords. */
  function Codewords(t: Capacity, level: Level, ver: int, data: seq<Byte>): (s: seq<Byte>)
    requires SoundCapacity(t) && 1 <= ver <= 40 && |data| == NumDataCodewords(t, level, ver)
    ensures |s| == t.raw(ver)
  {
    LayoutFits(t, level, ver);
    var l := LayoutOf(t, level, ver);
    Interleave.AllCodewords(l, data, EccOf(l.ecc), ZERO)
  }

  method AddCodewords(t: Capacity, level: Level, ver: int, data: seq<Byte>) returns (r: Result<seq<Byte>>)
    requires SoundCapacity(t) && 1 <= ver <= 40
    ensures r.Ok? <==> |data| == NumDataCodewords(t, level, ver)
    ensures r.Ok? ==> r.value == Codewords(t, level, ver, data)
  {
    LayoutFits(t, level, ver);
    Gf256.GfRingLaws();
    var l := LayoutOf(t, level, ver);
    r := Interleave.AddEccAndInterleave(Gf256.GF, Gf256.TWO, l, data, EccOf(l.ecc));
  }

  // ---------- the symbol ----------

  /** The canvas with the codewords drawn along the walk. */
  function Filled(c: Canvas, codewords: seq<Byte>): (g: Grid)
    requires Square(c.base, c.n) && Square(c.fn, c.n) && AllInside(c.n, Walk(c.n))
    ensures Square(g, c.n)
  {
    Draw(FreeIn(c.n, c.fn), Unpack(codewords), c.n, c.base, Walk(c.n)).grid
  }

  ghost predicate Ready(c: Canvas, level: Level) {
    && 21 <= c.n <= 177 && c.n % 2 == 1
    && Square(c.base, c.n) && Square(c.fn, c.n) && AllInside(c.n, Walk(c.n)) && FormatReserved(level, c.n, c.fn)
  }

  lemma CanvasReady(ver: nat, level: Level)
    requires 1 <= ver <= 40
    ensures Ready(CanvasOf(ver, level), level)
  {
    WalkInside(Size(ver));
    CanvasReserved(ver, level);
  }

  /** The free cells suffice for the codewords. */
  predicate Enough(c: Canvas, codewords: nat)
    requires Square(c.fn, c.n)
  {
    Free(FreeIn(c.n, c.fn), Walk(c.n)) >= 8 * codewords
  }

  /** The finished symbol with a mask. */
  function Symbol(c: Canvas, level: Level, codewords: seq<Byte>, msk: nat): (g: Grid)
    requires Ready(c, level)
    ensures Square(g, c.n)
  {
    Finish(MaskOf(msk), FormatOf(c.n, level, msk), c.n, Filled(c, codewords), c.fn)
  }

  /** The penalty of the symbol with each mask. */
  function SymbolCost(c: Canvas, level: Level, codewords: seq<Byte>): nat -> int
    requires Ready(c, level)
  {
    Cost(level, c.n, Filled(c, codewords), c.fn)
  }

  lemma SymbolCostIs(c: Canvas, level: Level, codewords: seq<Byte>, msk: nat)
    requires Ready(c, level)
    ensures SymbolCost(c, level, codewords)(msk) == PenaltyOf(Symbol(c, level, codewords, msk), c.n)
  {}

  /** The mask is the requested one, or the best one if none is requested. */
  ghost predicate Chosen(cost: nat -> int, requested: int, msk: int) {
    if requested == -1 then IsBest(cost, msk) else msk == requested
  }

  /** The end of the construction: the choice of the mask and its final application. */
  method ApplyChosen(qr: QrCode, msk: int, ghost cost: nat -> int)
    requires qr.Valid() && FormatReserved(qr.level, qr.size, qr.isFunction) && -1 <= msk <= 7
    requires Costs(cost, qr.level, qr.size, qr.modules, qr.isFunction)
    modifies qr`modules, qr`isFunction, qr`mask
    ensures 0 <= qr.mask < 8 && Chosen(cost, msk, qr.mask)
    ensures DotsInside(qr.size, FormatOf(qr.size, qr.level, qr.mask))
    ensures qr.modules
         == Finish(MaskOf(qr.mask), FormatOf(qr.size, qr.level, qr.mask), qr.size, old(qr.modules), old(qr.isFunction))
  {
    ghost var g := qr.modules;
    var chosen := msk;
    if msk == -1 {
      chosen := qr.ChooseMask(cost);
    }
    AgreeFormat(qr.size, qr.level, 0, chosen, g, qr.modules);
    qr.mask := chosen;
    qr.FinishWith(chosen, g);
    qr.isFunction := [];
  }

  /** The grid and its mask are those of the symbol with the requested mask, or with the best one. */
  ghost predicate Made(c: Canvas, level: Level, codewords: seq<Byte>, requested: int, msk: int, g: Grid)
    requires Ready(c, level)
  {
    && 0 <= msk < 8
    && Chosen(SymbolCost(c, level, codewords), requested, msk)
    && g == Symbol(c, level, codewords, msk)
  }

  /**
   A grid made with an automatic mask is the one made by asking for that mask; no mask gives a lower penalty, and none
   of a smaller number gives the same.
   */
  lemma AutomaticMask(c: Canvas, level: Level, codewords: seq<Byte>, msk: int, g: Grid, k: nat)
    requires Ready(c, level) && Made(c, level, codewords, -1, msk, g) && k < 8
    ensures Made(c, level, codewords, msk, msk, g)
    ensures PenaltyOf(g, c.n) <= PenaltyOf(Symbol(c, level, codewords, k), c.n)
    ensures k < msk ==> PenaltyOf(g, c.n) < PenaltyOf(Symbol(c, level, codewords, k), c.n)
  {
    SymbolCostIs(c, level, codewords, msk);
    SymbolCostIs(c, level, codewords, k);
  }

  /** The construction once the function patterns are drawn on a canvas. */
  method Fill(qr: QrCode, raw: nat, codewords: seq<Byte>, msk: int, ghost c: Canvas) returns (r: Result<()>)
    requires qr.Valid() && c == Canvas(qr.size, qr.modules, qr.isFunction) && Ready(c, qr.level)
    requires |codewords| == raw && -1 <= msk <= 7
    modifies qr`modules, qr`isFunction, qr`mask
    ensures r.Ok? <==> Enough(c, raw)
    ensures r.Ok? ==> Made(c, qr.level, codewords, msk, qr.mask, qr.modules)
  {
    r := qr.DrawCodewords(raw, codewords);
    if r.Ok? {
      ApplyChosen(qr, msk, SymbolCost(c, qr.level, codewords));
    }
  }

  /** `canvas` gives the function patterns of every version. */
  ghost predicate Canvases(canvas: (Level, int) -> Canvas) {
    forall level, ver {:trigger At(level, ver)} :: 1 <= ver <= 40 ==>
      canvas(level, ver) == CanvasOf(ver, level) && Ready(canvas(level, ver), level)
  }

  /** The start of the construction: a blank grid with all function patterns. */
  method Begin(ver: nat, level: Level, ghost canvas: (Level, int) -> Canvas) returns (qr: QrCode)
    requires 1 <= ver <= 40 && Canvases(canvas)
    ensures fresh(qr) && qr.Valid() && qr.version == ver && qr.size == Size(ver) && qr.level == level
    ensures canvas(level, ver) == Canvas(qr.size, qr.modules, qr.isFunction) && Ready(canvas(level, ver), level)
  {
    qr := new QrCode(ver, level);
    qr.DrawFunctionPatterns();
    assert At(level, ver);
  }

  /** The encoder's constructor: arguments out of range and data of the wrong length are errors. */
  method MakeQrCode(t: Capacity, ghost canvas: (Level, int) -> Canvas, ver: int, level: Level, data: seq<Byte>, msk: int)
    returns (r: Result<QrCode>)
    requires SoundCapacity(t) && Canvases(canvas)
    ensures r.Ok? ==> 1 <= ver <= 40 && |data| == NumDataCodewords(t, level, ver) && Ready(canvas(level, ver), level)
    ensures r.Ok? ==> fresh(r.value) && r.value.version == ver && r.value.level == level && r.value.size == Size(ver)
    ensures r.Ok? ==>
      Made(canvas(level, ver), level, Codewords(t, level, ver, data), msk, r.value.mask, r.value.modules)
    ensures 1 <= ver <= 40 && -1 <= msk <= 7 && |data| == NumDataCodewords(t, level, ver) ==>
      Ready(canvas(level, ver), level) && (r.Ok? <==> Enough(canvas(level, ver), t.raw(ver)))
  {
    if ver < 1 || ver > 40 {
      return Err("Version value out of range");
    }
    if msk < -1 || msk > 7 {
      return Err("Mask value out of range");
    }
    var qr := Begin(ver, level, canvas);
    var all := AddCodewords(t, level, ver, data);
    if all.Err? {
      return Err(all.error);
    }
    var filled := Fill(qr, t.raw(ver), all.value, msk, canvas(level, ver));
    return if filled.Ok? then Ok(qr) else Err(filled.error);
  }
}

/**
 A reader of finished symbols, and the proof that it gets back what was encoded.
 */
module QrReader {
  import opened Results
  import opened Bits
  import opened Grids
  import opened Zigzag
  import opened Segments
  import opened EncodeData
  import opened Versions
  import opened Patterns
  import opened Masks
  import opened QrCodes
  import opened QrSymbols
  import Interleave
  import ReedSolomon
  import Distance
  import Gf256
  import PenaltyScore
  import FreeCells

  // ---------- the format ----------

  /** The format bits of the first copy, the most significant first. */
  function FormatAt(g: Grid, n: nat): (bits: seq<bool>)
    requires n >= 21 && Square(g, n)
    ensures |bits| == 15
  {
    seq(15, i requires 0 <= i < 15 => Get(g, n, FirstCopy(14 - i)))
  }

  lemma FormatAtPainted(g: Grid, n: nat, bits: seq<bool>)
    requires n >= 21 && Square(g, n) && |bits| == 15 && DotsInside(n, FormatDots(n, bits))
    ensures FormatAt(Paint(g, n, FormatDots(n, bits)), n) == bits
  {
    var h := Paint(g, n, FormatDots(n, bits));
    forall i | 0 <= i < 15 ensures FormatAt(h, n)[i] == bits[i] {
      FormatShows(g, n, bits, 14 - i);
    }
  }

  /** The level and the mask of a symbol can be read off it. */
  lemma FormatOfSymbol(c: Canvas, level: Level, codewords: seq<Byte>, msk: nat)
    requires Ready(c, level) && msk < 8
    ensures ReadFormat(FormatAt(Symbol(c, level, codewords, msk), c.n)) == (level, msk)
  {
    FormatInside(c.n, FormatBits(level, msk));
    FormatAtPainted(Masked(MaskOf(msk), c.n, Filled(c, codewords), c.fn), c.n, FormatBits(level, msk));
    ReadFormatBits(level, msk);
  }

  // ---------- the codewords ----------

  lemma {:induction false} ReadAgree(free: Cell -> bool, n: nat, g: Grid, h: Grid, cells: seq<Cell>)
    requires Square(g, n) && Square(h, n) && AllInside(n, cells)
    requires forall c :: Inside(n, c) && free(c) ==> Get(g, n, c) == Get(h, n, c)
    ensures Read(free, n, g, cells) == Read(free, n, h, cells)
    decreases |cells|
  {
    if cells != [] {
      ReadAgree(free, n, g, h, cells[..|cells| - 1]);
    }
  }

  /** The modules of the free cells, once the mask is taken off. */
  function ReadModules(c: Canvas, g: Grid, msk: nat): (bits: seq<bool>)
    requires Square(c.fn, c.n) && Square(g, c.n) && AllInside(c.n, Walk(c.n))
    ensures |bits| == Free(FreeIn(c.n, c.fn), Walk(c.n))
  {
    Read(FreeIn(c.n, c.fn), c.n, Masked(MaskOf(msk), c.n, g, c.fn), Walk(c.n))
  }

  lemma ModulesOfSymbol(c: Canvas, level: Level, codewords: seq<Byte>, msk: nat)
    requires Ready(c, level)
    ensures ReadModules(c, Symbol(c, level, codewords, msk), msk)
         == Read(FreeIn(c.n, c.fn), c.n, Filled(c, codewords), Walk(c.n))
  {
    var dots, g := FormatOf(c.n, level, msk), Filled(c, codewords);
    var h := Masked(MaskOf(msk), c.n, Symbol(c, level, codewords, msk), c.fn);
    assert OnFunction(dots, c.n, c.fn);
    Unfinish(MaskOf(msk), dots, c.n, g, c.fn);
    ReadAgree(FreeIn(c.n, c.fn), c.n, h, g, Walk(c.n));
  }

  lemma FilledReads(c: Canvas, codewords: seq<Byte>)
    requires Square(c.base, c.n) && Square(c.fn, c.n) && AllInside(c.n, Walk(c.n)) && Distinct(Walk(c.n))
    requires Enough(c, |codewords|)
    ensures Read(FreeIn(c.n, c.fn), c.n, Filled(c, codewords), Walk(c.n))[..8 * |codewords|] == Unpack(codewords)
  {
    ReadDrawn(FreeIn(c.n, c.fn), Unpack(codewords), c.n, c.base, Walk(c.n));
  }

  function PackFirst(bits: seq<bool>, raw: nat): (codewords: seq<Byte>)
    requires 8 * raw <= |bits|
    ensures |codewords| == raw
  {
    Pack(bits[..8 * raw])
  }

  /** The codewords of a symbol. */
  function ReadCodewords(c: Canvas, g: Grid, msk: nat, raw: nat): (codewords: seq<Byte>)
    requires Square(c.fn, c.n) && Square(g, c.n) && AllInside(c.n, Walk(c.n)) && Enough(c, raw)
    ensures |codewords| == raw
  {
    PackFirst(ReadModules(c, g, msk), raw)
  }

  lemma CodewordsOfSymbol(c: Canvas, level: Level, codewords: seq<Byte>, msk: nat)
    requires Ready(c, level) && Enough(c, |codewords|)
    ensures ReadCodewords(c, Symbol(c, level, codewords, msk), msk, |codewords|) == codewords
  {
    ModulesOfSymbol(c, level, codewords, msk);
    WalkDistinct(c.n);
    FilledReads(c, codewords);
    PackUnpack(codewords);
  }

  // ---------- the data ----------

  /** The data codewords among all codewords. */
  function ReadDataCodewords(t: Capacity, level: Level, ver: int, codewords: seq<Byte>): seq<Byte>
    requires SoundCapacity(t) && 1 <= ver <= 40 && |codewords| == t.raw(ver)
  {
    LayoutFits(t, level, ver);
    var l := LayoutOf(t, level, ver);
    Interleave.ReadData(l, codewords, l.blocks)
  }

  lemma DataOfCodewords(t: Capacity, level: Level, ver: int, data: seq<Byte>)
    requires SoundCapacity(t) && 1 <= ver <= 40 && |data| == NumDataCodewords(t, level, ver)
    ensures ReadDataCodewords(t, level, ver, Codewords(t, level, ver, data)) == data
  {
    LayoutFits(t, level, ver);
    var l := LayoutOf(t, level, ver);
    Interleave.ReadAllCodewords(l, data, EccOf(l.ecc), ZERO);
  }

  // ---------- the blocks ----------

  lemma QuotientAtMost(b: nat, q: nat, r: nat, m: nat)
    requires b * q + r < m * b
    ensures q < m
  {
    if q >= m {
      PenaltyScore.Larger(m, q, b);
    }
  }

  /** No block is longer than the field allows. */
  lemma BlocksFit(t: Capacity, level: Level, ver: int)
    requires SoundCapacity(t) && 1 <= ver <= 40
    ensures LayoutOf(t, level, ver).skip + 1 + LayoutOf(t, level, ver).ecc <= 254
  {
    assert At(level, ver);
    Interleave.DivMod(t.raw(ver), t.blocks(level, ver));
    QuotientAtMost(t.blocks(level, ver), t.raw(ver) / t.blocks(level, ver), t.raw(ver) % t.blocks(level, ver), 254);
  }

  /** Block j of a symbol's codewords: its data followed by its error correction codewords. */
  function BlockIn(l: Interleave.Layout, codewords: seq<Byte>, j: nat): seq<Byte>
    requires l.Valid() && |codewords| == l.ColumnStart(l.Width()) && j < l.blocks
  {
    Interleave.ReadBlockData(l, codewords, j) + Interleave.ReadBlockEcc(l, codewords, j)
  }

  lemma BlockOfData(l: Interleave.Layout, data: seq<Byte>, codewords: seq<Byte>, j: nat)
    requires l.Valid() && j < l.blocks && |data| == l.DataStart(l.blocks)
    requires codewords == Interleave.AllCodewords(l, data, EccOf(l.ecc), ZERO)
    ensures BlockIn(l, codewords, j)
         == Interleave.DataOf(l, data, j) + ReedSolomon.Ecc(Gf256.GF, Gf256.TWO, l.ecc, Interleave.DataOf(l, data, j))
  {
    Interleave.ReadAllCodewords(l, data, EccOf(l.ecc), ZERO);
  }

  /**
   Every block read from the codewords of a symbol vanishes at the roots, and two symbols whose data differ in a block
   differ there in more places than the block has error correction codewords.
   */
  lemma BlocksAreCodewords(t: Capacity, level: Level, ver: int, data: seq<Byte>, other: seq<Byte>, j: nat)
    requires SoundCapacity(t) && 1 <= ver <= 40
    requires |data| == |other| == NumDataCodewords(t, level, ver) && j < LayoutOf(t, level, ver).blocks
    ensures LayoutOf(t, level, ver).Valid()
    ensures LayoutOf(t, level, ver).ColumnStart(LayoutOf(t, level, ver).Width()) == t.raw(ver)
    ensures LayoutOf(t, level, ver).DataStart(LayoutOf(t, level, ver).blocks) == |data|
    ensures var l := LayoutOf(t, level, ver);
      var block, otherBlock := BlockIn(l, Codewords(t, level, ver, data), j), BlockIn(l, Codewords(t, level, ver, other), j);
      && Distance.Vanishes(Gf256.GF, Gf256.TWO, l.ecc, block)
      && (Interleave.DataOf(l, data, j) != Interleave.DataOf(l, other, j) ==> |Distance.Differing(block, otherBlock)| > l.ecc)
  {
    var l := LayoutOf(t, level, ver);
    LayoutFits(t, level, ver);
    BlocksFit(t, level, ver);
    BlockOfData(l, data, Codewords(t, level, ver, data), j);
    BlockOfData(l, other, Codewords(t, level, ver, other), j);
    Gf256.GfIsField();
    ReedSolomon.BlockVanishes(Gf256.GF, Gf256.TWO, l.ecc, Interleave.DataOf(l, data, j));
    if Interleave.DataOf(l, data, j) != Interleave.DataOf(l, other, j) {
      ReedSolomon.QrBlocks(l.ecc, Interleave.DataOf(l, data, j), Interleave.DataOf(l, other, j));
    }
  }

  /** What is needed of the tables and the function patterns to read every version. */
  ghost predicate Readable(t: Capacity, canvas: (Level, int) -> Canvas) {
    && SoundCapacity(t) && Canvases(canvas)
    && forall level, ver {:trigger At(level, ver)} :: 1 <= ver <= 40 ==>
         Square(canvas(level, ver).fn, canvas(level, ver).n) && Enough(canvas(level, ver), t.raw(ver))
  }

  /** The contents of a symbol of known version, level and mask. */
  function ReadContents(t: Capacity, c: Canvas, level: Level, ver: int, msk: nat, g: Grid): Option<seq<Content>>
    requires SoundCapacity(t) && 1 <= ver <= 40
    requires Square(c.fn, c.n) && Square(g, c.n) && AllInside(c.n, Walk(c.n)) && Enough(c, t.raw(ver))
  {
    DecodeData(ver, ReadDataCodewords(t, level, ver, ReadCodewords(c, g, msk, t.raw(ver))))
  }

  lemma ContentsOfSymbol(t: Capacity, c: Canvas, level: Level, ver: int, data: seq<Byte>, codewords: seq<Byte>, msk: nat)
    requires SoundCapacity(t) && 1 <= ver <= 40 && |data| == NumDataCodewords(t, level, ver)
    requires Ready(c, level) && Enough(c, t.raw(ver)) && codewords == Codewords(t, level, ver, data)
    ensures ReadContents(t, c, level, ver, msk, Symbol(c, level, codewords, msk)) == DecodeData(ver, data)
  {
    CodewordsOfSymbol(c, level, codewords, msk);
    DataOfCodewords(t, level, ver, data);
  }

  lemma CanvasFacts(t: Capacity, canvas: (Level, int) -> Canvas, level: Level, ver: int)
    requires Readable(t, canvas) && 1 <= ver <= 40
    ensures canvas(level, ver).n == Size(ver) && Ready(canvas(level, ver), level)
    ensures Square(canvas(level, ver).fn, Size(ver)) && Enough(canvas(level, ver), t.raw(ver))
  {
    assert At(level, ver);
  }

  /** The version from the size, the level and the mask from the format, the rest by `read`. */
  function ReadHeader<T>(read: (Level, int, nat, Grid) -> Option<T>, g: Grid): Option<T> {
    var n := |g|;
    if !Square(g, n) || n < 21 || n > 177 || (n - 17) % 4 != 0 then None
    else
      var format := ReadFormat(FormatAt(g, n));
      read(format.0, (n - 17) / 4, format.1, g)
  }

  lemma HeaderIs<T>(read: (Level, int, nat, Grid) -> Option<T>, level: Level, ver: int, msk: nat, g: Grid)
    requires 1 <= ver <= 40 && Square(g, Size(ver)) && ReadFormat(FormatAt(g, Size(ver))) == (level, msk)
    ensures ReadHeader(read, g) == read(level, ver, msk, g)
  {}

  function Reader(t: Capacity, canvas: (Level, int) -> Canvas): (Level, int, nat, Grid) -> Option<seq<Content>>
    requires Readable(t, canvas)
  {
    (level: Level, ver: int, msk: nat, g: Grid) =>
      if 1 <= ver <= 40 && Square(g, Size(ver)) then
        CanvasFacts(t, canvas, level, ver);
        ReadContents(t, canvas(level, ver), level, ver, msk, g)
      else None
  }

  /** The contents of a symbol, with everything undone. */
  function ReadSymbol(t: Capacity, canvas: (Level, int) -> Canvas, g: Grid): Option<seq<Content>>
    requires Readable(t, canvas)
  {
    ReadHeader(Reader(t, canvas), g)
  }

  lemma ReaderOfSymbol(t: Capacity, canvas: (Level, int) -> Canvas, level: Level, ver: int, data: seq<Byte>, msk: nat, g: Grid)
    requires Readable(t, canvas) && 1 <= ver <= 40 && |data| == NumDataCodewords(t, level, ver)
    requires canvas(level, ver).n == Size(ver) && Ready(canvas(level, ver), level)
    requires g == Symbol(canvas(level, ver), level, Codewords(t, level, ver, data), msk)
    ensures Reader(t, canvas)(level, ver, msk, g) == DecodeData(ver, data)
  {
    CanvasFacts(t, canvas, level, ver);
    ContentsOfSymbol(t, canvas(level, ver), level, ver, data, Codewords(t, level, ver, data), msk);
  }

  /** A finished symbol reads as what its data codewords decode to. */
  lemma ReadSymbolOf(t: Capacity, canvas: (Level, int) -> Canvas, level: Level, ver: int, data: seq<Byte>, msk: nat, g: Grid)
    requires Readable(t, canvas) && 1 <= ver <= 40 && |data| == NumDataCodewords(t, level, ver) && msk < 8
    requires Ready(canvas(level, ver), level)
    requires g == Symbol(canvas(level, ver), level, Codewords(t, level, ver, data), msk)
    ensures ReadSymbol(t, canvas, g) == DecodeData(ver, data)
  {
    CanvasFacts(t, canvas, level, ver);
    FormatOfSymbol(canvas(level, ver), level, Codewords(t, level, ver, data), msk);
    HeaderIs(Reader(t, canvas), level, ver, msk, g);
    ReaderOfSymbol(t, canvas, level, ver, data, msk, g);
  }
}

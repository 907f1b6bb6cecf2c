/**
 Blocks: data split into blocks of two lengths, error correction codewords
 appended to each, and the blocks interleaved column by column.
 */
module Interleave {
  import opened Results
  import opened Fields
  import opened Polynomials
  import ReedSolomon

  /**
   Block parameters: the number of blocks, of error correction codewords in
   each, of data codewords in a short block (which is also the column of its
   padding), and of short blocks. The other blocks have one more data codeword.
   */
  datatype Layout = Layout(blocks: nat, ecc: nat, skip: nat, short: nat) {
    predicate Valid() {
      ecc >= 1 && 1 <= short <= blocks
    }

    /** The length of every block once the short ones are padded. */
    function Width(): nat {
      skip + 1 + ecc
    }

    function DataLen(j: nat): nat {
      if j < short then skip else skip + 1
    }

    /** Where the data of block j begins. */
    function DataStart(j: nat): nat
      decreases j
    {
      if j == 0 then 0 else DataStart(j - 1) + DataLen(j - 1)
    }

    function ColumnLen(i: nat): nat
      requires Valid()
    {
      if i == skip then blocks - short else blocks
    }

    /** Where column i begins in the interleaved sequence. */
    function ColumnStart(i: nat): nat
      requires Valid()
      decreases i
    {
      if i == 0 then 0 else ColumnStart(i - 1) + ColumnLen(i - 1)
    }

    /** The block with the first codeword of column i. */
    function First(i: nat): nat {
      if i == skip then short else 0
    }

    /** Where the codeword of block j in column i is in the interleaved sequence. */
    function Position(i: nat, j: nat): nat
      requires Valid() && j >= First(i)
    {
      ColumnStart(i) + j - First(i)
    }
  }

  /** The parameters the encoder derives from its tables. */
  function LayoutFor(blocks: nat, ecc: nat, raw: nat): Layout
    requires blocks >= 1 && raw / blocks >= ecc
  {
    Layout(blocks, ecc, raw / blocks - ecc, blocks - raw % blocks)
  }

  lemma {:induction false} DataStartIs(l: Layout, j: nat)
    ensures l.DataStart(j) == j * l.skip + if j < l.short then 0 else j - l.short
  {
    if j > 0 {
      DataStartIs(l, j - 1);
      assert j * l.skip == (j - 1) * l.skip + l.skip;
    }
  }

  lemma {:induction false} ColumnStartIs(l: Layout, i: nat)
    requires l.Valid()
    ensures l.ColumnStart(i) == i * l.blocks - if i <= l.skip then 0 else l.short
  {
    if i > 0 {
      ColumnStartIs(l, i - 1);
      assert i * l.blocks == (i - 1) * l.blocks + l.blocks;
    }
  }

  lemma Expanded(b: nat, e: nat, q: nat)
    ensures b * (q - e) == b * q - e * b && (q + 1) * b == b * q + b && (q + 1 + e) * b == b * q + b + e * b
  {}

  lemma LayoutSums(b: nat, e: nat, q: nat, r: nat, l: Layout)
    requires q >= e >= 1 && r < b && l == Layout(b, e, q - e, b - r)
    ensures l.DataStart(b) == b * q + r - e * b
    ensures l.ColumnStart(l.Width()) == b * q + r
  {
    DataStartIs(l, b);
    ColumnStartIs(l, q + 1);
    Expanded(b, e, q);
  }

  lemma DivMod(n: nat, d: nat)
    requires d > 0
    ensures n == d * (n / d) + n % d && n % d < d
  {}

  /** The splits consume the data exactly, and the columns take exactly the raw codewords. */
  lemma LayoutAddsUp(blocks: nat, ecc: nat, raw: nat)
    requires blocks >= 1 && ecc >= 1 && raw / blocks >= ecc
    ensures var l := LayoutFor(blocks, ecc, raw);
      && l.Valid()
      && l.DataStart(blocks) == raw - ecc * blocks
      && l.ColumnStart(l.Width()) == raw
  {
    DivMod(raw, blocks);
    LayoutSums(blocks, ecc, raw / blocks, raw % blocks, LayoutFor(blocks, ecc, raw));
  }

  lemma {:induction false} DataStartGrows(l: Layout, j: nat, k: nat)
    requires j <= k
    ensures l.DataStart(j) <= l.DataStart(k)
    decreases k
  {
    if j < k {
      DataStartGrows(l, j, k - 1);
    }
  }

  // ---------- blocks ----------

  function DataOf<F>(l: Layout, data: seq<F>, j: nat): (s: seq<F>)
    requires j < l.blocks && |data| == l.DataStart(l.blocks)
    ensures |s| == l.DataLen(j)
  {
    DataStartGrows(l, j + 1, l.blocks);
    data[l.DataStart(j)..l.DataStart(j) + l.DataLen(j)]
  }

  /** Block j: its data, a padding codeword if it is short, its error correction codewords. */
  function BlockOf<F>(l: Layout, data: seq<F>, ecc: seq<F> -> seq<F>, zero: F, j: nat): seq<F>
    requires j < l.blocks && |data| == l.DataStart(l.blocks)
  {
    var d := DataOf(l, data, j);
    (if j < l.short then d + [zero] else d) + ecc(d)
  }

  ghost predicate Rectangular<F>(l: Layout, rows: seq<seq<F>>) {
    |rows| == l.blocks && forall j :: 0 <= j < l.blocks ==> |rows[j]| == l.Width()
  }

  // ---------- interleaving ----------

  /** The codewords of column i, without padding. */
  function Column<F>(l: Layout, rows: seq<seq<F>>, i: nat): (s: seq<F>)
    requires l.Valid() && Rectangular(l, rows) && i < l.Width()
    ensures |s| == l.ColumnLen(i)
    ensures forall k :: 0 <= k < l.ColumnLen(i) ==> s[k] == rows[l.First(i) + k][i]
  {
    seq(l.ColumnLen(i), k requires 0 <= k < l.ColumnLen(i) => rows[l.First(i) + k][i])
  }

  function Columns<F>(l: Layout, rows: seq<seq<F>>, n: nat): (s: seq<F>)
    requires l.Valid() && Rectangular(l, rows) && n <= l.Width()
    ensures |s| == l.ColumnStart(n)
    decreases n
  {
    if n == 0 then [] else Columns(l, rows, n - 1) + Column(l, rows, n - 1)
  }

  lemma {:induction false} ColumnsAt<F>(l: Layout, rows: seq<seq<F>>, n: nat, i: nat, j: nat)
    requires l.Valid() && Rectangular(l, rows) && i < n <= l.Width() && l.First(i) <= j < l.blocks
    ensures l.Position(i, j) < l.ColumnStart(n)
    ensures Columns(l, rows, n)[l.Position(i, j)] == rows[j][i]
    decreases n
  {
    if i == n - 1 {
      assert Column(l, rows, i)[j - l.First(i)] == rows[j][i];
    } else {
      ColumnsAt(l, rows, n - 1, i, j);
    }
  }

  /** Column i appended to the result, skipping the padding of the short blocks. */
  method AppendColumn<F>(l: Layout, blocks: seq<seq<F>>, i: nat, result: seq<F>) returns (r: seq<F>)
    requires l.Valid() && Rectangular(l, blocks) && i < l.Width()
    ensures r == result + Column(l, blocks, i)
  {
    r := result;
    ghost var column := Column(l, blocks, i);
    for j := 0 to |blocks|
      invariant r == result + column[..if j < l.First(i) then 0 else j - l.First(i)]
    {
      if i != l.skip || j >= l.short {
        ghost var k := j - l.First(i);
        assert column[..k + 1] == column[..k] + [blocks[j][i]];
        r := r + [blocks[j][i]];
      }
    }
    assert column[..|column|] == column;
  }

  method InterleaveBlocks<F>(l: Layout, blocks: seq<seq<F>>) returns (result: seq<F>)
    requires l.Valid() && Rectangular(l, blocks)
    ensures result == Columns(l, blocks, l.Width())
  {
    result := [];
    for i := 0 to |blocks[0]|
      invariant result == Columns(l, blocks, i)
    {
      result := AppendColumn(l, blocks, i, result);
    }
  }

  /** `ecc` computes the error correction codewords of degree d, and `divisor` is the divisor for them. */
  ghost predicate Codes<F(!new)>(f: Field<F>, g: F, d: nat, divisor: seq<F>, ecc: seq<F> -> seq<F>) {
    && d > 0
    && divisor == Generator(f, g, d)[1..]
    && forall data :: ecc(data) == ReedSolomon.Ecc(f, g, d, data)
  }

  method ComputeEcc<F(!new)>(f: Field<F>, ghost g: F, ghost d: nat, data: seq<F>, divisor: seq<F>, ghost ecc: seq<F> -> seq<F>)
    returns (e: seq<F>)
    requires RingLaws(f) && Codes(f, g, d, divisor, ecc)
    ensures e == ecc(data)
  {
    var remainder := ReedSolomon.ComputeRemainder(f, data, divisor);
    e := remainder.value;
  }

  /** Block i, whose data begins at k: data, padding if it is short, error correction codewords. */
  method MakeBlock<F(!new)>(f: Field<F>, ghost g: F, l: Layout, data: seq<F>, i: nat, k: nat, divisor: seq<F>, ghost ecc: seq<F> -> seq<F>)
    returns (block: seq<F>)
    requires RingLaws(f) && Codes(f, g, l.ecc, divisor, ecc)
    requires i < l.blocks && |data| == l.DataStart(l.blocks) && k == l.DataStart(i)
    ensures block == BlockOf(l, data, ecc, f.zero, i)
  {
    NextBlock(l, data, i);
    block := data[k..k + l.skip + if i < l.short then 0 else 1];
    var e := ComputeEcc(f, g, l.ecc, block, divisor, ecc);
    if i < l.short {
      block := block + [f.zero];
    }
    block := block + e;
  }

  ghost predicate Built<F>(l: Layout, data: seq<F>, ecc: seq<F> -> seq<F>, zero: F, blocks: seq<seq<F>>)
    requires |data| == l.DataStart(l.blocks) && |blocks| <= l.blocks
  {
    forall j :: 0 <= j < |blocks| ==> blocks[j] == BlockOf(l, data, ecc, zero, j)
  }

  lemma NextBlock<F>(l: Layout, data: seq<F>, j: nat)
    requires j < l.blocks && |data| == l.DataStart(l.blocks)
    ensures l.DataStart(j) + l.DataLen(j) == l.DataStart(j + 1) <= |data|
  {
    DataStartGrows(l, j + 1, l.blocks);
  }

  /** The data split into blocks, each with its error correction codewords. */
  method BuildBlocks<F(!new)>(f: Field<F>, ghost g: F, l: Layout, data: seq<F>, divisor: seq<F>, ghost ecc: seq<F> -> seq<F>)
    returns (blocks: seq<seq<F>>)
    requires RingLaws(f) && Codes(f, g, l.ecc, divisor, ecc) && |data| == l.DataStart(l.blocks)
    ensures |blocks| == l.blocks && Built(l, data, ecc, f.zero, blocks)
  {
    blocks := [];
    var k := 0;
    for i := 0 to l.blocks
      invariant k == l.DataStart(i)
      invariant |blocks| == i && Built(l, data, ecc, f.zero, blocks)
    {
      var block := MakeBlock(f, g, l, data, i, k, divisor, ecc);
      k := k + l.skip + if i < l.short then 0 else 1;
      blocks := blocks + [block];
    }
  }

  // ---------- reading back ----------

  /** The data of the first n blocks, read from the interleaved sequence. */
  function ReadData<F>(l: Layout, s: seq<F>, n: nat): seq<F>
    requires l.Valid() && |s| == l.ColumnStart(l.Width()) && n <= l.blocks
  {
    if n == 0 then [] else ReadData(l, s, n - 1) + ReadBlockData(l, s, n - 1)
  }

  lemma {:induction false} ColumnStartGrows(l: Layout, i: nat, k: nat)
    requires l.Valid() && i <= k
    ensures l.ColumnStart(i) <= l.ColumnStart(k)
    decreases k
  {
    if i < k {
      ColumnStartGrows(l, i, k - 1);
    }
  }

  lemma PositionInRange(l: Layout, i: nat, j: nat)
    requires l.Valid() && i < l.Width() && l.First(i) <= j < l.blocks
    ensures l.Position(i, j) < l.ColumnStart(l.Width())
  {
    ColumnStartGrows(l, i + 1, l.Width());
  }

  /** The codeword of block j in column i. */
  function CodewordAt<F>(l: Layout, s: seq<F>, i: nat, j: nat): F
    requires l.Valid() && |s| == l.ColumnStart(l.Width()) && i < l.Width() && l.First(i) <= j < l.blocks
  {
    PositionInRange(l, i, j);
    s[l.Position(i, j)]
  }

  function ReadBlockData<F>(l: Layout, s: seq<F>, j: nat): seq<F>
    requires l.Valid() && |s| == l.ColumnStart(l.Width()) && j < l.blocks
  {
    seq(l.DataLen(j), i requires 0 <= i < l.DataLen(j) => CodewordAt(l, s, i, j))
  }

  function ReadBlockEcc<F>(l: Layout, s: seq<F>, j: nat): seq<F>
    requires l.Valid() && |s| == l.ColumnStart(l.Width()) && j < l.blocks
  {
    seq(l.ecc, k requires 0 <= k < l.ecc => CodewordAt(l, s, l.skip + 1 + k, j))
  }

  /** De-interleaving recovers the data and the error correction codewords of every block. */
  lemma ReadBlock<F>(l: Layout, data: seq<F>, ecc: seq<F> -> seq<F>, zero: F, rows: seq<seq<F>>, j: nat)
    requires l.Valid() && j < l.blocks && |data| == l.DataStart(l.blocks)
    requires Rectangular(l, rows) && |ecc(DataOf(l, data, j))| == l.ecc
    requires rows[j] == BlockOf(l, data, ecc, zero, j)
    ensures ReadBlockData(l, Columns(l, rows, l.Width()), j) == DataOf(l, data, j)
    ensures ReadBlockEcc(l, Columns(l, rows, l.Width()), j) == ecc(DataOf(l, data, j))
  {
    var s, d := Columns(l, rows, l.Width()), DataOf(l, data, j);
    forall i | 0 <= i < l.DataLen(j) ensures CodewordAt(l, s, i, j) == d[i] {
      ColumnsAt(l, rows, l.Width(), i, j);
    }
    forall k | 0 <= k < l.ecc ensures CodewordAt(l, s, l.skip + 1 + k, j) == ecc(d)[k] {
      ColumnsAt(l, rows, l.Width(), l.skip + 1 + k, j);
    }
  }

  lemma {:induction false} ReadAllData<F>(l: Layout, data: seq<F>, s: seq<F>, n: nat)
    requires l.Valid() && n <= l.blocks && |data| == l.DataStart(l.blocks) && |s| == l.ColumnStart(l.Width())
    requires forall j :: 0 <= j < n ==> ReadBlockData(l, s, j) == DataOf(l, data, j)
    requires l.DataStart(n) <= |data|
    ensures ReadData(l, s, n) == data[..l.DataStart(n)]
    decreases n
  {
    if n > 0 {
      DataStartGrows(l, n - 1, n);
      ReadAllData(l, data, s, n - 1);
      assert ReadBlockData(l, s, n - 1) == DataOf(l, data, n - 1);
    }
  }

  /** The blocks all have one width. */
  lemma BuiltRectangular<F(!new)>(l: Layout, data: seq<F>, ecc: seq<F> -> seq<F>, zero: F, blocks: seq<seq<F>>)
    requires |data| == l.DataStart(l.blocks) && |blocks| == l.blocks && Built(l, data, ecc, zero, blocks)
    requires forall d :: |ecc(d)| == l.ecc
    ensures Rectangular(l, blocks)
  {}

  /** The interleaved codewords of data, with the error correction codewords `ecc` computes. */
  function AllCodewords<F(!new)>(l: Layout, data: seq<F>, ecc: seq<F> -> seq<F>, zero: F): (s: seq<F>)
    requires l.Valid() && |data| == l.DataStart(l.blocks) && forall d :: |ecc(d)| == l.ecc
    ensures |s| == l.ColumnStart(l.Width())
  {
    var rows := seq(l.blocks, j requires 0 <= j < l.blocks => BlockOf(l, data, ecc, zero, j));
    BuiltRectangular(l, data, ecc, zero, rows);
    Columns(l, rows, l.Width())
  }

  /** De-interleaving undoes interleaving: all the data, and every block's own codewords. */
  lemma ReadAllCodewords<F(!new)>(l: Layout, data: seq<F>, ecc: seq<F> -> seq<F>, zero: F)
    requires l.Valid() && |data| == l.DataStart(l.blocks) && forall d :: |ecc(d)| == l.ecc
    ensures var s := AllCodewords(l, data, ecc, zero);
      && ReadData(l, s, l.blocks) == data
      && forall j :: 0 <= j < l.blocks ==>
           && ReadBlockData(l, s, j) == DataOf(l, data, j)
           && ReadBlockEcc(l, s, j) == ecc(DataOf(l, data, j))
  {
    var s := AllCodewords(l, data, ecc, zero);
    var rows := seq(l.blocks, j requires 0 <= j < l.blocks => BlockOf(l, data, ecc, zero, j));
    BuiltRectangular(l, data, ecc, zero, rows);
    forall j | 0 <= j < l.blocks
      ensures ReadBlockData(l, s, j) == DataOf(l, data, j) && ReadBlockEcc(l, s, j) == ecc(DataOf(l, data, j))
    {
      ReadBlock(l, data, ecc, zero, rows, j);
    }
    ReadAllData(l, data, s, l.blocks);
  }

  // ---------- where everything is ----------

  /** Codeword p of s is codeword q of t. */
  ghost predicate Same<F>(s: seq<F>, p: int, t: seq<F>, q: int) {
    0 <= p < |s| && 0 <= q < |t| && s[p] == t[q]
  }

  lemma SameInWhole<F>(s: seq<F>, p: int, t: seq<F>, start: nat, end: nat, i: nat, q: int)
    requires start <= end <= |t| && Same(s, p, t[start..end], i) && q == start + i
    ensures Same(s, p, t, q)
  {}

  lemma RowsAt<F(!new)>(l: Layout, data: seq<F>, ecc: seq<F> -> seq<F>, zero: F, i: nat, j: nat)
    requires l.Valid() && |data| == l.DataStart(l.blocks) && forall d :: |ecc(d)| == l.ecc
    requires i < l.Width() && l.First(i) <= j < l.blocks
    ensures i < l.DataLen(j) ==> Same(AllCodewords(l, data, ecc, zero), l.Position(i, j), DataOf(l, data, j), i)
    ensures i > l.skip ==> Same(AllCodewords(l, data, ecc, zero), l.Position(i, j), ecc(DataOf(l, data, j)), i - l.skip - 1)
  {
    var rows := seq(l.blocks, j requires 0 <= j < l.blocks => BlockOf(l, data, ecc, zero, j));
    BuiltRectangular(l, data, ecc, zero, rows);
    ColumnsAt(l, rows, l.Width(), i, j);
  }

  lemma DataAt<F(!new)>(l: Layout, data: seq<F>, ecc: seq<F> -> seq<F>, zero: F, i: nat, j: nat, p: int, q: int)
    requires l.Valid() && |data| == l.DataStart(l.blocks) && forall d :: |ecc(d)| == l.ecc
    requires j < l.blocks && i < l.DataLen(j) && p == l.Position(i, j) && q == l.DataStart(j) + i
    ensures Same(AllCodewords(l, data, ecc, zero), p, data, q)
  {
    RowsAt(l, data, ecc, zero, i, j);
    NextBlock(l, data, j);
    SameInWhole(AllCodewords(l, data, ecc, zero), p, data, l.DataStart(j), l.DataStart(j + 1), i, q);
  }

  /** The data of the blocks is taken by turns: codeword i of block j is at i * blocks + j. */
  lemma DataByTurns<F(!new)>(l: Layout, data: seq<F>, ecc: seq<F> -> seq<F>, zero: F, i: nat, j: nat)
    requires l.Valid() && |data| == l.DataStart(l.blocks) && forall d :: |ecc(d)| == l.ecc
    requires i < l.skip && j < l.blocks
    ensures Same(AllCodewords(l, data, ecc, zero), i * l.blocks + j,
                 data, j * l.skip + (if j < l.short then 0 else j - l.short) + i)
  {
    ColumnStartIs(l, i);
    DataStartIs(l, j);
    DataAt(l, data, ecc, zero, i, j, i * l.blocks + j, j * l.skip + (if j < l.short then 0 else j - l.short) + i);
  }

  /** Then the last codewords of the longer blocks. */
  lemma LongerBlocksEnd<F(!new)>(l: Layout, data: seq<F>, ecc: seq<F> -> seq<F>, zero: F, j: nat)
    requires l.Valid() && |data| == l.DataStart(l.blocks) && forall d :: |ecc(d)| == l.ecc
    requires l.short <= j < l.blocks
    ensures Same(AllCodewords(l, data, ecc, zero), l.skip * l.blocks + j - l.short, data, j * l.skip + j - l.short + l.skip)
  {
    ColumnStartIs(l, l.skip);
    DataStartIs(l, j);
    DataAt(l, data, ecc, zero, l.skip, j, l.skip * l.blocks + j - l.short, j * l.skip + j - l.short + l.skip);
  }

  lemma EccColumn(l: Layout, k: nat)
    requires l.Valid()
    ensures l.ColumnStart(l.skip + 1 + k) == l.DataStart(l.blocks) + k * l.blocks
  {
    ColumnStartIs(l, l.skip + 1 + k);
    DataStartIs(l, l.blocks);
    Expanded(l.blocks, k, l.skip);
  }

  lemma DataOfIs<F>(l: Layout, data: seq<F>, j: nat)
    requires j < l.blocks && |data| == l.DataStart(l.blocks)
    ensures var start, len := j * l.skip + (if j < l.short then 0 else j - l.short), l.skip + (if j < l.short then 0 else 1);
      start + len <= |data| && DataOf(l, data, j) == data[start..start + len]
  {
    DataStartIs(l, j);
    NextBlock(l, data, j);
  }

  /** Then the error correction codewords of each block's data, by turns. */
  lemma EccByTurns<F(!new)>(l: Layout, data: seq<F>, ecc: seq<F> -> seq<F>, zero: F, k: nat, j: nat)
    requires l.Valid() && |data| == l.DataStart(l.blocks) && forall d :: |ecc(d)| == l.ecc
    requires k < l.ecc && j < l.blocks
    ensures var start, len := j * l.skip + (if j < l.short then 0 else j - l.short), l.skip + (if j < l.short then 0 else 1);
      && start + len <= |data|
      && Same(AllCodewords(l, data, ecc, zero), |data| + k * l.blocks + j, ecc(data[start..start + len]), k)
  {
    RowsAt(l, data, ecc, zero, l.skip + 1 + k, j);
    EccColumn(l, k);
    DataOfIs(l, data, j);
  }

  /** The encoder's method, for block parameters that fit the data. */
  method AddEccAndInterleave<F(!new)>(f: Field<F>, g: F, l: Layout, data: seq<F>, ghost ecc: seq<F> -> seq<F>)
    returns (r: Result<seq<F>>)
    requires RingLaws(f) && l.Valid() && l.ecc <= 255
    requires forall d :: ecc(d) == ReedSolomon.Ecc(f, g, l.ecc, d) && |ecc(d)| == l.ecc
    ensures r.Ok? <==> |data| == l.DataStart(l.blocks)
    ensures r.Ok? ==> r.value == AllCodewords(l, data, ecc, f.zero)
  {
    if |data| != l.DataStart(l.blocks) {
      return Err("Invalid argument");
    }
    var divisor := ReedSolomon.ComputeDivisor(f, g, l.ecc);
    assert Codes(f, g, l.ecc, divisor.value, ecc);
    var blocks := BuildBlocks(f, g, l, data, divisor.value, ecc);
    BuiltRectangular(l, data, ecc, f.zero, blocks);
    var result := InterleaveBlocks(l, blocks);
    assert blocks == seq(l.blocks, j requires 0 <= j < l.blocks => BlockOf(l, data, ecc, f.zero, j));
    return Ok(result);
  }
}

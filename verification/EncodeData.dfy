/**
 From segments to data codewords: the choice of version and error correction
 level, the bit stream with its terminator and padding, and the proof that the
 codewords read back as what the segments were made from.
 */
module EncodeData {
  import opened Results
  import opened Bits
  import opened Segments
  import opened SegmentStream
  import opened Versions
  import Gf256

  /** All segments in a row. */
  function Stream(ver: nat, segs: seq<Segment>): seq<bool>
    requires 1 <= ver <= 40
  {
    if segs == [] then [] else Stream(ver, segs[..|segs| - 1]) + SegmentBits(ver, segs[|segs| - 1])
  }

  predicate CountsFit(ver: nat, segs: seq<Segment>)
    requires 1 <= ver <= 40
  {
    forall i :: 0 <= i < |segs| ==> CountFits(ver, segs[i])
  }

  lemma StreamSnoc(ver: nat, segs: seq<Segment>, k: nat)
    requires 1 <= ver <= 40 && k < |segs|
    ensures Stream(ver, segs[..k + 1]) == Stream(ver, segs[..k]) + SegmentBits(ver, segs[k])
  {
    assert segs[..k + 1][..k] == segs[..k];
  }

  /** The stream has a length that fits an int, and every count its field. */
  predicate Encodable(ver: nat, segs: seq<Segment>)
    requires 1 <= ver <= 40
  {
    CountsFit(ver, segs) && |Stream(ver, segs)| <= INT_MAX
  }

  /** One segment added to a length: -1 when its count or the sum does not fit. */
  method AddSegment(total: int, numChars: nat, ccbits: nat, size: nat) returns (r: int)
    requires 0 <= total <= INT_MAX
    ensures r == if numChars < Pow2(ccbits) && total + 4 + ccbits + size <= INT_MAX then total + 4 + ccbits + size else -1
  {
    r := total;
    if numChars >= Pow2(ccbits) {
      return -1;
    }
    if 4 + ccbits > INT_MAX - r {
      return -1;
    }
    r := r + 4 + ccbits;
    if size > INT_MAX - r {
      return -1;
    }
    r := r + size;
  }

  /** The length of all segments with character counts of the given widths. */
  function LengthBy(width: Segment -> nat, segs: seq<Segment>): nat {
    if segs == [] then 0
    else
      var seg := segs[|segs| - 1];
      LengthBy(width, segs[..|segs| - 1]) + 4 + width(seg) + |seg.data|
  }

  predicate FitsBy(width: Segment -> nat, seg: Segment) {
    seg.numChars < Pow2(width(seg))
  }

  lemma {:induction false} LengthGrows(width: Segment -> nat, segs: seq<Segment>, k: nat)
    requires k <= |segs|
    ensures LengthBy(width, segs[..k]) <= LengthBy(width, segs)
    decreases |segs| - k
  {
    if k < |segs| {
      assert segs[..k + 1][..k] == segs[..k];
      LengthGrows(width, segs, k + 1);
    } else {
      assert segs[..k] == segs;
    }
  }

  method TotalBitsBy(width: Segment -> nat, segs: seq<Segment>) returns (r: int)
    ensures r == if (forall i :: 0 <= i < |segs| ==> FitsBy(width, segs[i])) && LengthBy(width, segs) <= INT_MAX
                 then LengthBy(width, segs) else -1
  {
    r := 0;
    for i := 0 to |segs|
      invariant 0 <= r <= INT_MAX
      invariant forall j :: 0 <= j < i ==> FitsBy(width, segs[j])
      invariant r == LengthBy(width, segs[..i])
    {
      assert segs[..i + 1][..i] == segs[..i];
      LengthGrows(width, segs, i + 1);
      r := AddSegment(r, segs[i].numChars, width(segs[i]), |segs[i].data|);
      if r == -1 {
        return;
      }
    }
    assert segs[..|segs|] == segs;
  }

  lemma {:induction false} StreamLength(ver: nat, segs: seq<Segment>, width: Segment -> nat)
    requires 1 <= ver <= 40 && forall seg :: width(seg) == seg.mode.CharCountBits(ver)
    ensures |Stream(ver, segs)| == LengthBy(width, segs)
  {
    if segs != [] {
      StreamLength(ver, segs[..|segs| - 1], width);
    }
  }

  /** The length of the stream, or -1 when it cannot be encoded. */
  function TotalBits(segs: seq<Segment>, ver: int): int {
    if 1 <= ver <= 40 && Encodable(ver, segs) then |Stream(ver, segs)| else -1
  }

  method GetTotalBits(segs: seq<Segment>, ver: nat) returns (r: int)
    requires 1 <= ver <= 40
    ensures r == TotalBits(segs, ver)
  {
    var width := (seg: Segment) => seg.mode.CharCountBits(ver);
    StreamLength(ver, segs, width);
    r := TotalBitsBy(width, segs);
    assert forall i :: 0 <= i < |segs| ==> (FitsBy(width, segs[i]) <==> CountFits(ver, segs[i]));
  }

  /** The segments fit the data capacity of a version at a level. */
  predicate Fits(t: Capacity, segs: seq<Segment>, level: Level, ver: int) {
    0 <= TotalBits(segs, ver) <= NumDataCodewords(t, level, ver) * 8
  }

  // ---------- terminator and padding ----------

  const PAD: Byte := Byte(true, true, true, false, true, true, false, false)        // 0xEC
  const OTHER_PAD: Byte := Byte(false, false, false, true, false, false, false, true)   // 0x11

  function Zeros(n: nat): (s: seq<bool>)
    ensures |s| == n && forall i :: 0 <= i < n ==> !s[i]
  {
    seq(n, i => false)
  }

  function PadAt(i: nat): Byte {
    if i % 2 == 0 then PAD else OTHER_PAD
  }

  /** n pad bytes, 0xEC and 0x11 in turn. */
  function PadBytes(n: nat): (b: seq<Byte>)
    ensures |b| == n
  {
    seq(n, i requires 0 <= i => PadAt(i))
  }

  function TerminatorLength(n: nat, capacity: nat): nat
    requires n <= capacity
  {
    if capacity - n < 4 then capacity - n else 4
  }

  function FillLength(n: nat): nat {
    (8 - n % 8) % 8
  }

  /** What follows n bits of segments, up to a capacity of whole bytes. */
  function Padding(n: nat, capacity: nat): (s: seq<bool>)
    requires n <= capacity && capacity % 8 == 0
    ensures |s| == capacity - n && Ended(s)
  {
    var z := TerminatorLength(n, capacity);
    var fill := FillLength(n + z);
    WholeBytes(n + z, capacity);
    Zeros(z) + (Zeros(fill) + Unpack(PadBytes((capacity - (n + z + fill)) / 8)))
  }

  lemma {:induction false} ZeroBigEndian(n: nat)
    ensures BigEndian(0, n) == Zeros(n)
  {
    if n > 0 {
      ZeroBigEndian(n - 1);
    }
  }

  lemma PadBytesSnoc(n: nat)
    ensures Unpack(PadBytes(n + 1)) == Unpack(PadBytes(n)) + BitsOf(PadAt(n))
  {
    assert PadBytes(n + 1) == PadBytes(n) + [PadAt(n)];
    UnpackSnoc(PadBytes(n), PadAt(n));
  }

  lemma PadAlternates(n: nat)
    ensures Gf256.Xor(PadAt(n), Gf256.Xor(PAD, OTHER_PAD)) == PadAt(n + 1)
  {
    assert Gf256.Xor(PAD, Gf256.Xor(PAD, OTHER_PAD)) == OTHER_PAD;
    assert Gf256.Xor(OTHER_PAD, Gf256.Xor(PAD, OTHER_PAD)) == PAD;
  }

  /** Appends n zero bits, for n up to 31. */
  method AppendZeros(bb: BitBuffer, n: nat)
    requires n <= 31
    modifies bb
    ensures bb.bits == old(bb.bits) + Zeros(n)
  {
    ZeroBigEndian(n);
    var appended := bb.AppendBits(0, n);
  }

  /** Pads whole bytes up to the capacity. */
  method FillBytes(bb: BitBuffer, capacity: nat, ghost count: nat)
    requires |bb.bits| + 8 * count == capacity
    modifies bb
    ensures bb.bits == old(bb.bits) + Unpack(PadBytes(count))
  {
    ghost var n := 0;
    var padByte := PAD;
    while |bb.bits| < capacity
      invariant |old(bb.bits)| + 8 * n == |bb.bits| <= capacity
      invariant bb.bits == old(bb.bits) + Unpack(PadBytes(n))
      invariant padByte == PadAt(n)
      decreases capacity - |bb.bits|
    {
      PadBytesSnoc(n);
      AppendByte(bb, padByte);
      PadAlternates(n);
      padByte := Gf256.Xor(padByte, Gf256.Xor(PAD, OTHER_PAD));
      n := n + 1;
    }
  }

  lemma WholeBytes(n: nat, capacity: nat)
    requires n <= capacity && capacity % 8 == 0
    ensures n + FillLength(n) <= capacity && (n + FillLength(n)) % 8 == 0 && FillLength(n) < 8
  {}

  /** Fills the last byte and pads whole bytes up to the capacity. */
  method FillUp(bb: BitBuffer, capacity: nat)
    requires |bb.bits| <= capacity && capacity % 8 == 0
    modifies bb
    ensures var n := |old(bb.bits)|;
      && n + FillLength(n) <= capacity
      && bb.bits == old(bb.bits) + (Zeros(FillLength(n)) + Unpack(PadBytes((capacity - (n + FillLength(n))) / 8)))
  {
    WholeBytes(|bb.bits|, capacity);
    AppendZeros(bb, (8 - |bb.bits| % 8) % 8);
    FillBytes(bb, capacity, (capacity - |bb.bits|) / 8);
  }

  /** Adds the terminator, fills the last byte and pads up to the capacity. */
  method Pad(bb: BitBuffer, capacity: nat)
    requires |bb.bits| <= capacity && capacity % 8 == 0
    modifies bb
    ensures bb.bits == old(bb.bits) + Padding(|old(bb.bits)|, capacity)
  {
    AppendZeros(bb, if capacity - |bb.bits| < 4 then capacity - |bb.bits| else 4);
    FillUp(bb, capacity);
  }

  lemma PadValues()
    ensures Value(PAD) == 0xEC && Value(OTHER_PAD) == 0x11
  {
    ValueIsWeight(PAD);
    ValueIsWeight(OTHER_PAD);
  }

  /** The number of bytes that n bits take. */
  function BytesFor(n: nat): nat {
    (n + 7) / 8
  }

  /** The bits of s from `from` to `to` are zero. */
  ghost predicate ZeroFrom(s: seq<bool>, from: nat, to: nat) {
    forall k :: from <= k < to && k < |s| ==> !s[k]
  }

  /** The bytes from `from` are 0xEC and 0x11 in turn. */
  ghost predicate PadsFrom(bytes: seq<Byte>, from: nat) {
    forall i :: from <= i < |bytes| ==> Value(bytes[i]) == if (i - from) % 2 == 0 then 0xEC else 0x11
  }

  lemma PadsAfter(s: seq<bool>, bytes: seq<Byte>, a: seq<bool>, p: nat, m: nat)
    requires s == Unpack(bytes) && s == a + Unpack(PadBytes(m)) && |a| == 8 * p
    ensures PadsFrom(bytes, p)
  {
    UnpackFrom(bytes, p);
    UnpackInjective(bytes[p..], PadBytes(m));
    PadValues();
    forall i | p <= i < |bytes| ensures Value(bytes[i]) == if (i - p) % 2 == 0 then 0xEC else 0x11 {
      assert bytes[i] == bytes[p..][i - p] == PadAt(i - p);
    }
  }

  lemma ZerosBetween(bits: seq<bool>, z: nat, fill: nat, rest: seq<bool>)
    ensures bits + (Zeros(z) + (Zeros(fill) + rest)) == bits + (Zeros(z) + Zeros(fill)) + rest
    ensures ZeroFrom(bits + (Zeros(z) + (Zeros(fill) + rest)), |bits|, |bits| + z + fill)
  {}

  lemma StartsAt(n: nat, capacity: nat)
    requires n <= capacity && capacity % 8 == 0
    ensures var end := n + TerminatorLength(n, capacity) + FillLength(n + TerminatorLength(n, capacity));
      end == 8 * BytesFor(n + 4) || end == capacity < 8 * BytesFor(n + 4)
  {}

  /**
   Padding starts at the first byte boundary after a whole terminator; when
   there is no room for a whole terminator there is no padding.
   */
  lemma PaddingStart(n: nat, capacity: nat) returns (z: nat, fill: nat, count: nat)
    requires n <= capacity && capacity % 8 == 0
    ensures Padding(n, capacity) == Zeros(z) + (Zeros(fill) + Unpack(PadBytes(count)))
    ensures n + z + fill == 8 * BytesFor(n + 4) || n + z + fill == capacity < 8 * BytesFor(n + 4)
  {
    z := TerminatorLength(n, capacity);
    fill := FillLength(n + z);
    WholeBytes(n + z, capacity);
    StartsAt(n, capacity);
    count := (capacity - (n + z + fill)) / 8;
  }

  lemma PaddingParts(bits: seq<bool>, codewords: seq<Byte>, z: nat, fill: nat, count: nat)
    requires Unpack(codewords) == bits + (Zeros(z) + (Zeros(fill) + Unpack(PadBytes(count))))
    requires var end, start := |bits| + z + fill, BytesFor(|bits| + 4); end == 8 * start || end == 8 * |codewords| < 8 * start
    ensures ZeroFrom(Unpack(codewords), |bits|, 8 * BytesFor(|bits| + 4))
    ensures PadsFrom(codewords, BytesFor(|bits| + 4))
  {
    ZerosBetween(bits, z, fill, Unpack(PadBytes(count)));
    if |bits| + z + fill == 8 * BytesFor(|bits| + 4) {
      PadsAfter(Unpack(codewords), codewords, bits + (Zeros(z) + Zeros(fill)), BytesFor(|bits| + 4), count);
    }
  }

  /** The codewords hold the bits, terminated and padded. */
  ghost predicate Padded(bits: seq<bool>, codewords: seq<Byte>) {
    && |bits| <= 8 * |codewords|
    && Unpack(codewords) == bits + Padding(|bits|, 8 * |codewords|)
  }

  /**
   Four zero bits and zeros up to the byte follow n bits, as far as there is
   room, and then 0xEC and 0x11 in turn.
   */
  ghost predicate TerminatedAfter(n: nat, codewords: seq<Byte>) {
    && ZeroFrom(Unpack(codewords), n, 8 * BytesFor(n + 4))
    && PadsFrom(codewords, BytesFor(n + 4))
  }

  lemma PaddingOf(bits: seq<bool>, codewords: seq<Byte>)
    requires Padded(bits, codewords)
    ensures TerminatedAfter(|bits|, codewords)
  {
    var z, fill, count := PaddingStart(|bits|, 8 * |codewords|);
    PaddingParts(bits, codewords, z, fill, count);
  }

  // ---------- version and level ----------

  predicate Room(total: int -> int, capacity: int -> int, v: int) {
    total(v) != -1 && total(v) <= capacity(v)
  }

  /**
   The smallest version in range whose stream, of length `total`, fits its
   capacity; both are given by version.
   */
  method ChooseVersion(total: int -> int, capacity: int -> int, minVersion: int, maxVersion: int) returns (r: Result<int>)
    requires minVersion <= maxVersion
    ensures r.Ok? <==> exists v :: minVersion <= v <= maxVersion && Room(total, capacity, v)
    ensures r.Ok? ==> minVersion <= r.value <= maxVersion && Room(total, capacity, r.value)
    ensures r.Ok? ==> forall v :: minVersion <= v < r.value ==> !Room(total, capacity, v)
    ensures r.Err? ==> r.error == if total(maxVersion) == -1 then "Segment too long" else "Data too long"
  {
    var version := minVersion;
    while true
      invariant minVersion <= version <= maxVersion
      invariant forall v :: minVersion <= v < version ==> !Room(total, capacity, v)
      decreases maxVersion - version
    {
      if total(version) != -1 && total(version) <= capacity(version) {
        assert Room(total, capacity, version);
        return Ok(version);
      }
      if version >= maxVersion {
        return Err(if total(version) == -1 then "Segment too long" else "Data too long");
      }
      version := version + 1;
    }
  }

  /** A level holds `used` bits at a version. */
  predicate Holds(t: Capacity, used: nat, ver: int, level: Level) {
    used <= NumDataCodewords(t, level, ver) * 8
  }

  /** The highest level that holds the data, which is not below the requested one. */
  method BoostLevel(t: Capacity, used: nat, ver: int, requested: Level, boost: bool) returns (level: Level)
    requires Holds(t, used, ver, requested)
    ensures Holds(t, used, ver, level) && level.Rank() >= requested.Rank()
    ensures !boost ==> level == requested
    ensures boost ==> forall l :: Holds(t, used, ver, l) ==> l.Rank() <= level.Rank()
  {
    level := requested;
    var higher := [Medium, Quartile, High];
    for i := 0 to 3
      invariant Holds(t, used, ver, level)
      invariant !boost ==> level == requested
      invariant boost ==> level.Rank() <= i || level == requested
      invariant boost ==> forall l :: Holds(t, used, ver, l) && l.Rank() <= i ==> l.Rank() <= level.Rank()
      invariant boost && requested.Rank() <= i ==> requested.Rank() <= level.Rank() <= i
    {
      if boost && used <= NumDataCodewords(t, higher[i], ver) * 8 {
        level := higher[i];
      }
    }
  }

  // ---------- the data codewords ----------

  /** Mode, character count and data of every segment in a row. No append throws. */
  method Concatenate(segs: seq<Segment>, ver: nat) returns (bb: BitBuffer)
    requires 1 <= ver <= 40 && Encodable(ver, segs)
    ensures fresh(bb) && bb.bits == Stream(ver, segs)
  {
    bb := new BitBuffer();
    assert Pow2(4) == 16;
    for i := 0 to |segs|
      invariant bb.bits == Stream(ver, segs[..i])
    {
      StreamSnoc(ver, segs, i);
      AppendSegment(bb, segs[i], ver);
    }
    assert segs[..|segs|] == segs;
  }

  lemma {:induction false} FieldWidth(n: nat)
    requires n <= 16
    ensures Pow2(n) <= 65536
  {
    assert Pow2(8) == 256;
    Pow2Add(8, 8);
    Pow2Add(n, 16 - n);
    assert Pow2(n) * 1 <= Pow2(n) * Pow2(16 - n) by { Monotone(Pow2(n), 1, Pow2(16 - n)); }
  }

  lemma Regroup(a: seq<bool>, b: seq<bool>, c: seq<bool>, d: seq<bool>)
    ensures a + b + c + d == a + (b + c + d)
  {}

  method AppendFields(bb: BitBuffer, mode: nat, count: nat, width: nat, data: seq<bool>)
    requires mode < 16 && width <= 16 && count < Pow2(width)
    modifies bb
    ensures bb.bits == old(bb.bits) + (BigEndian(mode, 4) + BigEndian(count, width) + data)
  {
    assert Pow2(4) == 16;
    FieldWidth(width);
    var modeAppended := bb.AppendBits(mode, 4);
    var countAppended := bb.AppendBits(count, width);
    bb.bits := bb.bits + data;
    Regroup(old(bb.bits), BigEndian(mode, 4), BigEndian(count, width), data);
  }

  method AppendSegment(bb: BitBuffer, seg: Segment, ver: nat)
    requires 1 <= ver <= 40 && CountFits(ver, seg)
    modifies bb
    ensures bb.bits == old(bb.bits) + SegmentBits(ver, seg)
  {
    AppendFields(bb, seg.mode.ModeBits(), seg.numChars, seg.mode.CharCountBits(ver), seg.data);
  }

  datatype Encoded = Encoded(version: int, level: Level, codewords: seq<Byte>)

  /** The codewords hold the stream of the segments, terminated and padded. */
  ghost predicate Carries(ver: int, segs: seq<Segment>, codewords: seq<Byte>) {
    && 1 <= ver <= 40
    && CountsFit(ver, segs)
    && Padded(Stream(ver, segs), codewords)
  }

  lemma PaddingIs(ver: int, segs: seq<Segment>, codewords: seq<Byte>)
    requires Carries(ver, segs, codewords)
    ensures TerminatedAfter(|Stream(ver, segs)|, codewords)
  {
    PaddingOf(Stream(ver, segs), codewords);
  }

  method EncodeSegments(t: Capacity, segs: seq<Segment>, level: Level, minVersion: int, maxVersion: int, mask: int, boost: bool)
    returns (r: Result<Encoded>)
    ensures r.Ok? <==>
      && 1 <= minVersion <= maxVersion <= 40 && -1 <= mask <= 7
      && exists v :: minVersion <= v <= maxVersion && Fits(t, segs, level, v)
    ensures r.Ok? ==> Fits(t, segs, r.value.level, r.value.version)
    ensures r.Ok? ==> |r.value.codewords| == NumDataCodewords(t, r.value.level, r.value.version)
    ensures r.Ok? ==> Carries(r.value.version, segs, r.value.codewords)
    ensures r.Ok? ==> minVersion <= r.value.version <= maxVersion
    ensures r.Ok? ==> forall v :: minVersion <= v < r.value.version ==> !Fits(t, segs, level, v)
    ensures r.Ok? ==> r.value.level.Rank() >= level.Rank() && (!boost ==> r.value.level == level)
    ensures r.Ok? && boost ==> forall l :: Fits(t, segs, l, r.value.version) ==> l.Rank() <= r.value.level.Rank()
  {
    if !(1 <= minVersion <= maxVersion <= 40) || mask < -1 || mask > 7 {
      return Err("Invalid value");
    }
    var total, capacity := v => TotalBits(segs, v), v => NumDataCodewords(t, level, v) * 8;
    assert forall v :: Fits(t, segs, level, v) <==> Room(total, capacity, v);
    var chosen := ChooseVersion(total, capacity, minVersion, maxVersion);
    if chosen.Err? {
      return Err(chosen.error);
    }
    var version := chosen.value;
    var used := GetTotalBits(segs, version);
    var boosted := BoostLevel(t, used, version, level, boost);
    assert forall l :: Fits(t, segs, l, version) <==> Holds(t, used, version, l);
    var codewords := DataCodewords(segs, version, NumDataCodewords(t, boosted, version));
    return Ok(Encoded(version, boosted, codewords));
  }

  /** Pads a buffer up to the capacity and packs it. */
  method PadAndPack(bb: BitBuffer, capacity: nat) returns (codewords: seq<Byte>)
    requires |bb.bits| <= capacity && capacity % 8 == 0
    modifies bb
    ensures |codewords| == capacity / 8
    ensures Unpack(codewords) == old(bb.bits) + Padding(|old(bb.bits)|, capacity)
  {
    Pad(bb, capacity);
    UnpackPack(bb.bits);
    codewords := PackBytes(bb.bits);
  }

  method DataCodewords(segs: seq<Segment>, ver: int, n: nat) returns (codewords: seq<Byte>)
    requires 1 <= ver <= 40 && Encodable(ver, segs) && |Stream(ver, segs)| <= 8 * n
    ensures |codewords| == n && Carries(ver, segs, codewords)
  {
    var bb := Concatenate(segs, ver);
    codewords := PadAndPack(bb, 8 * n);
  }

  // ---------- nothing is lost ----------

  /** Reads the contents back from data codewords. */
  function DecodeData(ver: nat, codewords: seq<Byte>): Option<seq<Content>>
    requires 1 <= ver <= 40
  {
    ReadAll(s => ReadSegment(ver, s), Unpack(codewords))
  }

  lemma {:induction false} PutAllSnoc<T>(put: T -> seq<bool>, xs: seq<T>, x: T)
    ensures PutAll(put, xs + [x]) == PutAll(put, xs) + put(x)
    decreases |xs|
  {
    if xs == [] {
      assert xs + [x] == [x];
      assert [x][1..] == [];
    } else {
      assert (xs + [x])[1..] == xs[1..] + [x];
      PutAllSnoc(put, xs[1..], x);
    }
  }

  lemma PutAllLast<T>(put: T -> seq<bool>, xs: seq<T>)
    requires xs != []
    ensures PutAll(put, xs) == PutAll(put, xs[..|xs| - 1]) + put(xs[|xs| - 1])
  {
    PutAllSnoc(put, xs[..|xs| - 1], xs[|xs| - 1]);
    assert xs == xs[..|xs| - 1] + [xs[|xs| - 1]];
  }

  lemma {:induction false} StreamIsPutAll<T>(ver: nat, segs: seq<Segment>, put: T -> seq<bool>, xs: seq<T>)
    requires 1 <= ver <= 40 && |segs| == |xs|
    requires forall i :: 0 <= i < |xs| ==> put(xs[i]) == SegmentBits(ver, segs[i])
    ensures Stream(ver, segs) == PutAll(put, xs)
    decreases |xs|
  {
    if xs != [] {
      var n := |xs| - 1;
      StreamIsPutAll(ver, segs[..n], put, xs[..n]);
      PutAllLast(put, xs);
    }
  }

  lemma StreamOfContents(ver: nat, cs: seq<Content>)
    requires 1 <= ver <= 40 && AllValid(cs)
    ensures Stream(ver, SegmentsOf(cs)) == PutAll(c => ContentBits(ver, c), cs)
  {
    StreamIsPutAll(ver, SegmentsOf(cs), c => ContentBits(ver, c), cs);
  }

  lemma DecodeCodewords(ver: nat, cs: seq<Content>, codewords: seq<Byte>, tail: seq<bool>)
    requires 1 <= ver <= 40 && AllValid(cs) && CountsFit(ver, SegmentsOf(cs)) && Ended(tail)
    requires Unpack(codewords) == Stream(ver, SegmentsOf(cs)) + tail
    ensures DecodeData(ver, codewords) == Some(cs)
  {
    StreamOfContents(ver, cs);
    forall i | 0 <= i < |cs| ensures CountFits(ver, SegmentOf(cs[i])) {
      assert CountFits(ver, SegmentsOf(cs)[i]);
    }
    ReadStream(ver, cs, tail);
  }

  lemma TailOf(bits: seq<bool>, codewords: seq<Byte>) returns (tail: seq<bool>)
    requires Padded(bits, codewords)
    ensures Unpack(codewords) == bits + tail && Ended(tail)
  {
    tail := Padding(|bits|, 8 * |codewords|);
  }

  /** Whatever the factories made, the padded codewords read back as exactly that. */
  lemma DecodeEncoded(ver: int, cs: seq<Content>, codewords: seq<Byte>)
    requires AllValid(cs) && Carries(ver, SegmentsOf(cs), codewords)
    ensures DecodeData(ver, codewords) == Some(cs)
  {
    var tail := TailOf(Stream(ver, SegmentsOf(cs)), codewords);
    DecodeCodewords(ver, cs, codewords, tail);
  }
}

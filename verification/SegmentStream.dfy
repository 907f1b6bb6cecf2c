/**
 The data bit stream: every segment with its mode and character count, a
 terminator, and a reader that recovers what the segments were made from.
 */
module SegmentStream {
  import opened Results
  import opened Bits
  import opened Segments

  // ---------- a stream of items up to a terminator ----------

  /** The stream ends with four zero bits, or when fewer than four bits are left. */
  predicate Ended(s: seq<bool>) {
    |s| < 4 || (!s[0] && !s[1] && !s[2] && !s[3])
  }

  function ReadAll<T>(read: seq<bool> -> Parsed<T>, s: seq<bool>): Option<seq<T>>
    decreases |s|
  {
    if Ended(s) then Some([])
    else match read(s)
      case None => None
      case Some((x, rest)) =>
        if |rest| >= |s| then None
        else match ReadAll(read, rest)
          case None => None
          case Some(xs) => Some([x] + xs)
  }

  function PutAll<T>(put: T -> seq<bool>, xs: seq<T>): seq<bool> {
    if xs == [] then [] else put(xs[0]) + PutAll(put, xs[1..])
  }

  /** `read` undoes `put` on x, whatever follows, and x does not look like a terminator. */
  ghost predicate Undoes<T>(read: seq<bool> -> Parsed<T>, put: T -> seq<bool>, x: T) {
    && |put(x)| >= 4 && !Ended(put(x))
    && forall tail {:trigger put(x) + tail} :: read(put(x) + tail) == Some((x, tail))
  }

  lemma {:induction false} ReadPutAll<T>(read: seq<bool> -> Parsed<T>, put: T -> seq<bool>, xs: seq<T>, tail: seq<bool>)
    requires forall i :: 0 <= i < |xs| ==> Undoes(read, put, xs[i])
    requires Ended(tail)
    ensures ReadAll(read, PutAll(put, xs) + tail) == Some(xs)
    decreases |xs|
  {
    if xs == [] {
      assert PutAll(put, xs) + tail == tail;
    } else {
      var rest := PutAll(put, xs[1..]) + tail;
      var s := put(xs[0]) + rest;
      assert PutAll(put, xs) + tail == s;
      assert Undoes(read, put, xs[0]);
      assert read(s) == Some((xs[0], rest)) && !Ended(s);
      ReadPutAll(read, put, xs[1..], tail);
      assert xs == [xs[0]] + xs[1..];
    }
  }

  // ---------- segments in the stream ----------

  function SegmentBits(ver: nat, seg: Segment): seq<bool>
    requires 1 <= ver <= 40
  {
    BigEndian(seg.mode.ModeBits(), 4) + BigEndian(seg.numChars, seg.mode.CharCountBits(ver)) + seg.data
  }

  function ModeOf(m: nat): Option<Mode> {
    if m == 1 then Some(Numeric)
    else if m == 2 then Some(Alphanumeric)
    else if m == 4 then Some(ByteMode)
    else if m == 7 then Some(Eci)
    else None
  }

  function ReadBytes(n: nat, s: seq<bool>): Parsed<Content> {
    if |s| < 8 * n then None else Some((Bytes(Pack(s[..8 * n])), s[8 * n..]))
  }

  function ReadEci(s: seq<bool>): Parsed<Content> {
    if |s| >= 8 && !s[0] then Some((Designator(ToNat(s[..8])), s[8..]))
    else if |s| >= 16 && s[0] && !s[1] then Some((Designator(ToNat(s[2..16])), s[16..]))
    else if |s| >= 24 && s[0] && s[1] && !s[2] then Some((Designator(ToNat(s[3..24])), s[24..]))
    else None
  }

  /** Reads the n characters of a segment. */
  function ReadContent(mode: Mode, n: nat, s: seq<bool>): Parsed<Content> {
    match mode
    case Numeric =>
      (match ReadSymbols(DIGITS, n, s)
       case None => None
       case Some((v, rest)) => Some((DigitText(Spell(DECIMAL, v)), rest)))
    case Alphanumeric =>
      (match ReadSymbols(ALPHANUMERICS, n, s)
       case None => None
       case Some((v, rest)) => Some((PlainText(Spell(CHARACTERS, v)), rest)))
    case ByteMode => ReadBytes(n, s)
    case Eci => ReadEci(s)
    case Kanji => None
  }

  /** Reads a segment: mode, character count, then the characters as `read` reads them. */
  function ReadSegmentBy(read: (Mode, nat, seq<bool>) -> Parsed<Content>, ver: nat, s: seq<bool>): Parsed<Content>
    requires 1 <= ver <= 40
  {
    if |s| < 4 then None
    else match ModeOf(ToNat(s[..4]))
      case None => None
      case Some(mode) =>
        var cc := mode.CharCountBits(ver);
        if |s| < 4 + cc then None else read(mode, ToNat(s[4..4 + cc]), s[4 + cc..])
  }

  function ReadSegment(ver: nat, s: seq<bool>): Parsed<Content>
    requires 1 <= ver <= 40
  {
    ReadSegmentBy(ReadContent, ver, s)
  }

  // ---------- reading back what was made ----------

  lemma ReadDigitText(t: string, tail: seq<bool>)
    requires Valid(DigitText(t))
    ensures ReadContent(Numeric, |t|, SegmentOf(DigitText(t)).data + tail) == Some((DigitText(t), tail))
  {
    DigitsInvertible();
    AlphabetsFaithful();
    SpellIndices(DECIMAL, 10, t);
    ReadSymbolBits(DIGITS, Indices(DECIMAL, t), tail);
  }

  lemma ReadPlainText(t: string, tail: seq<bool>)
    requires Valid(PlainText(t))
    ensures ReadContent(Alphanumeric, |t|, SegmentOf(PlainText(t)).data + tail) == Some((PlainText(t), tail))
  {
    AlphanumericsInvertible();
    AlphabetsFaithful();
    SpellIndices(CHARACTERS, 45, t);
    ReadSymbolBits(ALPHANUMERICS, Indices(CHARACTERS, t), tail);
  }

  lemma ReadByteString(b: seq<Byte>, tail: seq<bool>)
    ensures ReadBytes(|b|, Unpack(b) + tail) == Some((Bytes(b), tail))
  {
    var s := Unpack(b) + tail;
    assert s[..8 * |b|] == Unpack(b) && s[8 * |b|..] == tail;
    PackUnpack(b);
  }

  lemma ReadShortEci(b: seq<bool>, tail: seq<bool>)
    requires |b| == 8 && !b[0]
    ensures ReadEci(b + tail) == Some((Designator(ToNat(b)), tail))
  {
    var s := b + tail;
    assert s[..8] == b && s[8..] == tail;
  }

  lemma ReadMiddleEci(p: seq<bool>, b: seq<bool>, tail: seq<bool>)
    requires p == [true, false] && |b| == 14
    ensures ReadEci(p + b + tail) == Some((Designator(ToNat(b)), tail))
  {
    var s := p + b + tail;
    assert s[0] && !s[1] && s[2..16] == b && s[16..] == tail;
  }

  lemma ReadLongEci(p: seq<bool>, b: seq<bool>, tail: seq<bool>)
    requires p == [true, true, false] && |b| == 21
    ensures ReadEci(p + b + tail) == Some((Designator(ToNat(b)), tail))
  {
    var s := p + b + tail;
    assert s[0] && s[1] && !s[2] && s[3..24] == b && s[24..] == tail;
  }

  lemma ReadDesignator(v: nat, tail: seq<bool>)
    requires v < 1000000
    ensures ReadEci(EciBits(v) + tail) == Some((Designator(v), tail))
  {
    EciWidths();
    if v < 128 {
      BigEndianAt(v, 8, 7);
      ToNatBigEndian(v, 8);
      ReadShortEci(BigEndian(v, 8), tail);
    } else if v < 16384 {
      ToNatBigEndian(v, 14);
      ReadMiddleEci(BigEndian(2, 2), BigEndian(v, 14), tail);
    } else {
      ToNatBigEndian(v, 21);
      ReadLongEci(BigEndian(6, 3), BigEndian(v, 21), tail);
    }
  }

  lemma ReadAnyContent(c: Content, tail: seq<bool>)
    requires Valid(c)
    ensures var seg := SegmentOf(c); ReadContent(seg.mode, seg.numChars, seg.data + tail) == Some((c, tail))
  {
    match c
    case Bytes(b) => ReadByteString(b, tail);
    case DigitText(t) => ReadDigitText(t, tail);
    case PlainText(t) => ReadPlainText(t, tail);
    case Designator(v) => ReadDesignator(v, tail);
  }

  /** The character count fits its field. */
  predicate CountFits(ver: nat, seg: Segment)
    requires 1 <= ver <= 40
  {
    seg.numChars < Pow2(seg.mode.CharCountBits(ver))
  }

  lemma ModeNumber(mode: Mode)
    ensures ToNat(BigEndian(mode.ModeBits(), 4)) == mode.ModeBits()
    ensures mode != Kanji ==> ModeOf(mode.ModeBits()) == Some(mode)
  {
    assert Pow2(4) == 16;
    ToNatBigEndian(mode.ModeBits(), 4);
  }

  lemma Header(m: seq<bool>, n: seq<bool>, data: seq<bool>, tail: seq<bool>, s: seq<bool>)
    requires s == (m + n + data) + tail
    ensures s[..|m|] == m && s[|m|..|m| + |n|] == n && s[|m| + |n|..] == data + tail
  {}

  lemma ReadHeader(read: (Mode, nat, seq<bool>) -> Parsed<Content>, ver: nat, seg: Segment, tail: seq<bool>)
    requires 1 <= ver <= 40 && CountFits(ver, seg) && seg.mode != Kanji
    ensures ReadSegmentBy(read, ver, SegmentBits(ver, seg) + tail) == read(seg.mode, seg.numChars, seg.data + tail)
  {
    var cc := seg.mode.CharCountBits(ver);
    ModeNumber(seg.mode);
    ToNatBigEndian(seg.numChars, cc);
    Header(BigEndian(seg.mode.ModeBits(), 4), BigEndian(seg.numChars, cc), seg.data, tail, SegmentBits(ver, seg) + tail);
  }

  lemma {:induction false} ZeroBits(s: seq<bool>)
    requires forall i :: 0 <= i < |s| ==> !s[i]
    ensures ToNat(s) == 0
    decreases |s|
  {
    if s != [] {
      ZeroBits(s[..|s| - 1]);
    }
  }

  lemma ModeNotTerminator(ver: nat, seg: Segment)
    requires 1 <= ver <= 40
    ensures |SegmentBits(ver, seg)| >= 4 && !Ended(SegmentBits(ver, seg))
  {
    var m, s := BigEndian(seg.mode.ModeBits(), 4), SegmentBits(ver, seg);
    assert s[0] == m[0] && s[1] == m[1] && s[2] == m[2] && s[3] == m[3];
    if Ended(s) {
      ZeroBits(m);
      ModeNumber(seg.mode);
    }
  }

  /** The bits of a content's segment, and nothing for contents no factory makes. */
  ghost function ContentBits(ver: nat, c: Content): seq<bool>
    requires 1 <= ver <= 40
  {
    if Valid(c) then SegmentBits(ver, SegmentOf(c)) else []
  }

  /** The stream of all segments, terminated in any way, reads back as the contents. */
  lemma ReadStream(ver: nat, cs: seq<Content>, tail: seq<bool>)
    requires 1 <= ver <= 40 && AllValid(cs) && Ended(tail)
    requires forall i :: 0 <= i < |cs| ==> CountFits(ver, SegmentOf(cs[i]))
    ensures ReadAll(s => ReadSegment(ver, s), PutAll(c => ContentBits(ver, c), cs) + tail) == Some(cs)
  {
    var read := s => ReadSegment(ver, s);
    var put := c => ContentBits(ver, c);
    forall i | 0 <= i < |cs| ensures Undoes(read, put, cs[i]) {
      var seg := SegmentOf(cs[i]);
      ModeNotTerminator(ver, seg);
      forall rest ensures read(put(cs[i]) + rest) == Some((cs[i], rest)) {
        ReadHeader(ReadContent, ver, seg, rest);
        ReadAnyContent(cs[i], rest);
      }
    }
    ReadPutAll(read, put, cs, tail);
  }
}

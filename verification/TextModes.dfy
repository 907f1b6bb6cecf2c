/**
 The mode chosen for a text: no single segment that stands for the text is
 shorter at any version, and none fits where the chosen one does not.
 */
module TextModes {
  import opened Bits
  import opened Segments
  import opened SegmentStream
  import opened EncodeData
  import opened Versions

  // ---------- the length of a segment ----------

  /** The bits of n symbols in groups of g, the last one perhaps shorter, with one more bit than `step` times its size each. */
  function GroupBits(n: nat, g: nat, step: nat): nat
    requires g > 0
  {
    if n == 0 then 0 else if n < g then step * n + 1 else (step * g + 1) + GroupBits(n - g, g, step)
  }

  lemma {:induction false} SymbolBitsLength(c: Coding, v: seq<nat>)
    requires c.group > 0 && forall w :: |c.put(w)| == c.step * |w| + 1
    ensures |SymbolBits(c, v)| == GroupBits(|v|, c.group, c.step)
    decreases |v|
  {
    if v != [] {
      SymbolBitsLength(c, v[GroupSize(c, |v|)..]);
    }
  }

  lemma {:induction false} GroupsOfThree(n: nat)
    ensures GroupBits(n, 3, 3) == 3 * n + (n + 2) / 3
  {
    if n >= 3 {
      GroupsOfThree(n - 3);
    }
  }

  lemma {:induction false} GroupsOfTwo(n: nat)
    ensures GroupBits(n, 2, 5) == 5 * n + (n + 1) / 2
  {
    if n >= 2 {
      GroupsOfTwo(n - 2);
    }
  }

  /** The data bits of n characters. */
  function DataLength(mode: Mode, n: nat): nat {
    match mode
    case Numeric => 3 * n + (n + 2) / 3
    case Alphanumeric => 5 * n + (n + 1) / 2
    case _ => 8 * n
  }

  lemma DigitsLength(t: string)
    requires Spelled(DECIMAL, t)
    ensures |SymbolBits(DIGITS, Indices(DECIMAL, t))| == DataLength(Numeric, |t|)
  {
    SymbolBitsLength(DIGITS, Indices(DECIMAL, t));
    GroupsOfThree(|t|);
  }

  lemma PlainLength(t: string)
    requires Spelled(CHARACTERS, t)
    ensures |SymbolBits(ALPHANUMERICS, Indices(CHARACTERS, t))| == DataLength(Alphanumeric, |t|)
  {
    SymbolBitsLength(ALPHANUMERICS, Indices(CHARACTERS, t));
    GroupsOfTwo(|t|);
  }

  /** A content that stands for a text on its own. */
  ghost predicate StandsFor(c: Content, t: string) {
    Valid(c) && TextOf([c]) == t
  }

  lemma TextOfOne(c: Content)
    ensures TextOf([c]) ==
      match c
      case Bytes(b) => TextOfBytes(b)
      case DigitText(u) => u
      case PlainText(u) => u
      case Designator(_) => ""
  {
    assert [c][1..] == [];
  }

  /** What is known of the segment of a text: its mode can hold the text, and its length follows. */
  ghost predicate SegmentFor(seg: Segment, t: string) {
    && seg.numChars == |t| && |seg.data| == DataLength(seg.mode, |t|)
    && match seg.mode
       case Numeric => Spelled(DECIMAL, t)
       case Alphanumeric => Spelled(CHARACTERS, t)
       case ByteMode => true
       case _ => false
  }

  lemma SegmentForText(c: Content, t: string)
    requires t != "" && StandsFor(c, t)
    ensures SegmentFor(SegmentOf(c), t)
  {
    TextOfOne(c);
    match c
    case Bytes(b) =>
    case DigitText(u) => DigitsLength(u);
    case PlainText(u) => PlainLength(u);
    case Designator(_) =>
  }

  /** The content chosen for a text stands for it, and is numeric or alphanumeric if it can be. */
  lemma ChosenFor(t: CString)
    requires t != "" && (|t| <= INT_MAX || Spelled(DECIMAL, t) || Spelled(CHARACTERS, t))
    ensures |ContentsOf(t)| == 1 && StandsFor(ContentsOf(t)[0], t)
    ensures var mode := SegmentOf(ContentsOf(t)[0]).mode;
      && (Spelled(DECIMAL, t) ==> mode == Numeric)
      && (Spelled(CHARACTERS, t) ==> mode == Numeric || mode == Alphanumeric)
  {
    TextOfContents(t);
    assert ContentsOf(t) == [ContentsOf(t)[0]];
  }

  // ---------- no segment is shorter ----------

  function SegmentLength(mode: Mode, n: nat, ver: nat): nat
    requires 1 <= ver <= 40
  {
    4 + mode.CharCountBits(ver) + DataLength(mode, n)
  }

  lemma NumericIsShortest(n: nat, ver: nat)
    requires n >= 1 && 1 <= ver <= 40
    ensures SegmentLength(Numeric, n, ver) <= SegmentLength(Alphanumeric, n, ver) <= SegmentLength(ByteMode, n, ver)
  {}

  lemma LengthOf(ver: nat, seg: Segment, t: string)
    requires 1 <= ver <= 40 && SegmentFor(seg, t)
    ensures |SegmentBits(ver, seg)| == SegmentLength(seg.mode, |t|, ver)
  {}

  lemma ChosenIsShortest(ver: nat, chosen: Segment, other: Segment, t: string)
    requires t != "" && 1 <= ver <= 40 && SegmentFor(chosen, t) && SegmentFor(other, t)
    requires Spelled(DECIMAL, t) ==> chosen.mode == Numeric
    requires Spelled(CHARACTERS, t) ==> chosen.mode == Numeric || chosen.mode == Alphanumeric
    ensures |SegmentBits(ver, chosen)| <= |SegmentBits(ver, other)|
  {
    LengthOf(ver, chosen, t);
    LengthOf(ver, other, t);
    NumericIsShortest(|t|, ver);
  }

  lemma CanBeChosen(c: Content, t: string)
    requires t != "" && StandsFor(c, t)
    ensures |t| <= INT_MAX || Spelled(DECIMAL, t) || Spelled(CHARACTERS, t)
  {
    TextOfOne(c);
  }

  /** A text gets one content, and no other content that stands for it has a shorter segment at any version. */
  lemma ShortestMode(t: CString, ver: nat, c: Content)
    requires t != "" && 1 <= ver <= 40 && StandsFor(c, t)
    ensures |ContentsOf(t)| == 1 && StandsFor(ContentsOf(t)[0], t)
    ensures |SegmentBits(ver, SegmentOf(ContentsOf(t)[0]))| <= |SegmentBits(ver, SegmentOf(c))|
  {
    CanBeChosen(c, t);
    ChosenFor(t);
    SegmentForText(c, t);
    SegmentForText(ContentsOf(t)[0], t);
    ChosenIsShortest(ver, SegmentOf(ContentsOf(t)[0]), SegmentOf(c), t);
  }

  // ---------- no other segment fits where the chosen one does not ----------

  lemma OneSegment(ver: nat, seg: Segment)
    requires 1 <= ver <= 40
    ensures Stream(ver, [seg]) == SegmentBits(ver, seg)
    ensures CountsFit(ver, [seg]) <==> CountFits(ver, seg)
  {
    assert [seg][..0] == [];
    assert [] + SegmentBits(ver, seg) == SegmentBits(ver, seg);
    assert CountsFit(ver, [seg]) ==> CountFits(ver, [seg][0]);
  }

  lemma FitsOne(t: Capacity, seg: Segment, level: Level, ver: int)
    ensures Fits(t, [seg], level, ver) <==>
      && 1 <= ver <= 40 && CountFits(ver, seg) && |SegmentBits(ver, seg)| <= INT_MAX
      && |SegmentBits(ver, seg)| <= NumDataCodewords(t, level, ver) * 8
  {
    if 1 <= ver <= 40 {
      OneSegment(ver, seg);
    }
  }

  lemma FieldSizes()
    ensures Pow2(8) == 256 && Pow2(9) == 512 && Pow2(10) == 1024 && Pow2(11) == 2048 && Pow2(12) == 4096
    ensures Pow2(13) == 8192 && Pow2(14) == 16384
  {
    assert Pow2(8) == 256;
    Pow2Add(8, 3);
    Pow2Add(8, 6);
  }

  /** Where one mode's count fits and its data too, so does the count of a shorter mode. */
  lemma CountsFitToo(n: nat, ver: nat, mode: Mode, other: Mode, bits: nat)
    requires 1 <= ver <= 40 && n < Pow2(other.CharCountBits(ver)) && DataLength(other, n) <= bits
    requires bits <= (if ver <= 26 then 16383 else 29648)
    requires mode == other || mode == Numeric || (mode == Alphanumeric && other == ByteMode)
    requires other == Numeric || other == Alphanumeric || other == ByteMode
    ensures n < Pow2(mode.CharCountBits(ver))
  {
    FieldSizes();
  }

  lemma ModulesBelow(ver: nat)
    requires ver <= 26
    ensures (16 * ver + 128) * ver <= 14144
  {
    Monotone(16 * ver + 128, ver, 26);
    assert (16 * ver + 128) * 26 <= 14144;
  }

  lemma Smaller(raw: nat, ecc: nat, blocks: nat)
    ensures raw - ecc * blocks <= raw
  {}

  /** The data capacity of the encoder's tables is small enough for the count fields of shorter modes. */
  lemma CapacityBound(level: Level, ver: int)
    requires 1 <= ver <= 40
    ensures NumDataCodewords(QR, level, ver) * 8 <= (if ver <= 26 then 16383 else 29648)
  {
    RawBits(ver);
    RawModulesInRange(ver);
    Smaller(QR.raw(ver), QR.ecc(level, ver), QR.blocks(level, ver));
    if ver <= 26 {
      ModulesBelow(ver);
      AtMost(ver);
    }
  }

  lemma AtMost(ver: nat)
    requires 1 <= ver <= 40
    ensures NumRawDataModules(ver) <= (16 * ver + 128) * ver + 64
  {
    if ver >= 2 {
      var a := ver / 7 + 2;
      Monotone(a, 40, 25 * a - 10);
    }
  }

  lemma ChosenFits(seg: Segment, other: Segment, t: string, level: Level, ver: int)
    requires t != "" && SegmentFor(seg, t) && SegmentFor(other, t) && Fits(QR, [other], level, ver)
    requires Spelled(DECIMAL, t) ==> seg.mode == Numeric
    requires Spelled(CHARACTERS, t) ==> seg.mode == Numeric || seg.mode == Alphanumeric
    ensures Fits(QR, [seg], level, ver)
  {
    FitsOne(QR, seg, level, ver);
    FitsOne(QR, other, level, ver);
    CapacityBound(level, ver);
    ChosenIsShortest(ver, seg, other, t);
    CountsFitToo(|t|, ver, seg.mode, other.mode, |SegmentBits(ver, other)|);
  }

  /** Where any content that stands for a text fits, the chosen one does. */
  lemma ChosenFitsToo(t: CString, c: Content, level: Level, ver: int)
    requires t != "" && StandsFor(c, t) && Fits(QR, [SegmentOf(c)], level, ver)
    ensures AllValid(ContentsOf(t)) && Fits(QR, SegmentsOf(ContentsOf(t)), level, ver)
  {
    CanBeChosen(c, t);
    ChosenFor(t);
    var chosen := ContentsOf(t)[0];
    SegmentForText(c, t);
    SegmentForText(chosen, t);
    ChosenFits(SegmentOf(chosen), SegmentOf(c), t, level, ver);
    assert SegmentsOf(ContentsOf(t)) == [SegmentOf(chosen)];
  }
}

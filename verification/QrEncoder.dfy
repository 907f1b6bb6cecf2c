/**
 The encoder from segments or text to a finished symbol, which reads back as
 exactly what went in.
 */
module QrEncoder {
  import opened Results
  import opened Bits
  import opened Grids
  import opened Segments
  import opened EncodeData
  import opened TextModes
  import opened Versions
  import opened QrCodes
  import opened QrSymbols
  import opened QrReader
  import FreeCells

  /** The grid reads as the contents its segments were made from. */
  ghost predicate ReadsAs(t: Capacity, canvas: (Level, int) -> Canvas, g: Grid, cs: seq<Content>)
    requires Readable(t, canvas)
  {
    ReadSymbol(t, canvas, g) == Some(cs)
  }

  /** A symbol of codewords that carry segments reads as what the segments were made from. */
  lemma SymbolReads(t: Capacity, canvas: (Level, int) -> Canvas, level: Level, ver: int, data: seq<Byte>, msk: nat, g: Grid,
                    cs: seq<Content>)
    requires Readable(t, canvas) && 1 <= ver <= 40 && |data| == NumDataCodewords(t, level, ver) && msk < 8
    requires Ready(canvas(level, ver), level)
    requires g == Symbol(canvas(level, ver), level, Codewords(t, level, ver, data), msk)
    requires AllValid(cs) && Carries(ver, SegmentsOf(cs), data)
    ensures ReadsAs(t, canvas, g, cs)
  {
    ReadSymbolOf(t, canvas, level, ver, data, msk, g);
    DecodeEncoded(ver, cs, data);
  }

  /** The symbol of encoded data: its grid is readable. */
  method Draw(t: Capacity, ghost canvas: (Level, int) -> Canvas, e: Encoded, ghost segs: seq<Segment>, mask: int)
    returns (r: Result<QrCode>)
    requires Readable(t, canvas) && Carries(e.version, segs, e.codewords) && -1 <= mask <= 7
    requires |e.codewords| == NumDataCodewords(t, e.level, e.version)
    ensures r.Ok? && fresh(r.value) && r.value.version == e.version && r.value.level == e.level
    ensures mask != -1 ==> r.value.mask == mask
    ensures forall cs :: AllValid(cs) && segs == SegmentsOf(cs) ==> ReadsAs(t, canvas, r.value.modules, cs)
  {
    CanvasFacts(t, canvas, e.level, e.version);
    r := MakeQrCode(t, canvas, e.version, e.level, e.codewords, mask);
    forall cs | AllValid(cs) && segs == SegmentsOf(cs) ensures ReadsAs(t, canvas, r.value.modules, cs) {
      SymbolReads(t, canvas, e.level, e.version, e.codewords, r.value.mask, r.value.modules, cs);
    }
  }

  /** What the encoder is asked for. */
  datatype Request = Request(level: Level, minVersion: int, maxVersion: int, mask: int, boost: bool)

  /** The request is valid and some version in its range has room for the segments. */
  ghost predicate Possible(t: Capacity, segs: seq<Segment>, q: Request) {
    && 1 <= q.minVersion <= q.maxVersion <= 40 && -1 <= q.mask <= 7
    && exists v :: q.minVersion <= v <= q.maxVersion && Fits(t, segs, q.level, v)
  }

  /** The version is the smallest with room, and the level the highest that still fits if it may be raised. */
  ghost predicate Economical(t: Capacity, segs: seq<Segment>, q: Request, version: int, level: Level) {
    && q.minVersion <= version <= q.maxVersion && Fits(t, segs, level, version)
    && (forall v :: q.minVersion <= v < version ==> !Fits(t, segs, q.level, v))
    && level.Rank() >= q.level.Rank()
    && (if q.boost then forall l :: Fits(t, segs, l, version) ==> l.Rank() <= level.Rank() else level == q.level)
  }

  /** The whole of the encoder: it succeeds exactly if it can, and the symbol reads as what it was made from. */
  method Encode(t: Capacity, ghost canvas: (Level, int) -> Canvas, segs: seq<Segment>, q: Request)
    returns (r: Result<QrCode>)
    requires Readable(t, canvas)
    ensures r.Ok? <==> Possible(t, segs, q)
    ensures r.Ok? ==> fresh(r.value) && Economical(t, segs, q, r.value.version, r.value.level)
    ensures r.Ok? && q.mask != -1 ==> r.value.mask == q.mask
    ensures r.Ok? ==> forall cs :: AllValid(cs) && segs == SegmentsOf(cs) ==> ReadsAs(t, canvas, r.value.modules, cs)
  {
    var encoded := EncodeSegments(t, segs, q.level, q.minVersion, q.maxVersion, q.mask, q.boost);
    if encoded.Err? {
      return Err(encoded.error);
    }
    r := Draw(t, canvas, encoded.value, segs, q.mask);
  }

  // ---------- the encoder's own tables ----------

  const QR_CANVAS: (Level, int) -> Canvas :=
    (level: Level, ver: int) => if 1 <= ver <= 40 then CanvasOf(ver, level) else Canvas(0, [], [])

  lemma QrCanvases()
    ensures Canvases(QR_CANVAS)
  {
    forall level: Level, ver: int | 1 <= ver <= 40 ensures Ready(QR_CANVAS(level, ver), level) {
      CanvasReady(ver, level);
    }
  }

  lemma QrEnough(level: Level, ver: int)
    requires 1 <= ver <= 40
    ensures Square(QR_CANVAS(level, ver).fn, QR_CANVAS(level, ver).n) && Enough(QR_CANVAS(level, ver), QR.raw(ver))
  {
    FreeCells.EnoughFree(ver, level);
  }

  /** The tables and patterns of the encoder can be read at every version and level. */
  lemma QrReadable()
    ensures Readable(QR, QR_CANVAS)
  {
    QrSound();
    QrCanvases();
    forall level: Level, ver: int | 1 <= ver <= 40
      ensures Square(QR_CANVAS(level, ver).fn, QR_CANVAS(level, ver).n) && Enough(QR_CANVAS(level, ver), QR.raw(ver))
    {
      QrEnough(level, ver);
    }
  }

  /** The text a grid reads as. */
  ghost predicate ReadsAsText(t: Capacity, canvas: (Level, int) -> Canvas, g: Grid, text: string)
    requires Readable(t, canvas)
  {
    var read := ReadSymbol(t, canvas, g);
    read.Some? && TextOf(read.value) == text
  }

  /** `room` tells the versions that have room for the contents chosen for a text. */
  ghost predicate TellsRoom(room: int -> bool, t: Capacity, text: CString, level: Level) {
    && AllValid(ContentsOf(text))
    && forall v {:trigger room(v)} :: 1 <= v <= 40 ==> (room(v) <==> Fits(t, SegmentsOf(ContentsOf(text)), level, v))
  }

  method EncodeTextBy(t: Capacity, ghost canvas: (Level, int) -> Canvas, text: CString, level: Level, ghost room: int -> bool)
    returns (r: Result<QrCode>)
    requires Readable(t, canvas) && |text| <= INT_MAX && TellsRoom(room, t, text, level)
    ensures r.Ok? ==> ReadsAsText(t, canvas, r.value.modules, text)
    ensures r.Ok? <==> exists v :: 1 <= v <= 40 && room(v)
    ensures r.Ok? ==> 1 <= r.value.version <= 40 && forall v :: 1 <= v < r.value.version ==> !room(v)
  {
    var segs := MakeSegments(text);
    TextOfContents(text);
    r := Encode(t, canvas, segs, Request(level, 1, 40, -1, true));
    assert forall v :: 1 <= v <= 40 ==> (room(v) <==> Fits(t, segs, level, v));
  }

  /** Some single content that stands for the text fits a version. */
  ghost predicate CanHold(t: Capacity, text: string, level: Level, ver: int) {
    exists c :: StandsFor(c, text) && Fits(t, [SegmentOf(c)], level, ver)
  }

  lemma ChosenSegments(text: CString)
    requires text != "" && |text| <= INT_MAX
    ensures |ContentsOf(text)| == 1 && StandsFor(ContentsOf(text)[0], text) && AllValid(ContentsOf(text))
    ensures SegmentsOf(ContentsOf(text)) == [SegmentOf(ContentsOf(text)[0])]
  {
    ChosenFor(text);
  }

  /** The contents chosen for a text fit exactly where some content that stands for it does. */
  lemma ChosenFitsIff(text: CString, level: Level, ver: int)
    requires text != "" && |text| <= INT_MAX
    ensures AllValid(ContentsOf(text))
    ensures Fits(QR, SegmentsOf(ContentsOf(text)), level, ver) <==> CanHold(QR, text, level, ver)
  {
    ChosenSegments(text);
    if CanHold(QR, text, level, ver) {
      var c :| StandsFor(c, text) && Fits(QR, [SegmentOf(c)], level, ver);
      ChosenFitsToo(text, c, level, ver);
    }
  }

  lemma EmptyFits(t: Capacity, level: Level, ver: int)
    requires SoundCapacity(t) && 1 <= ver <= 40
    ensures Fits(t, [], level, ver)
  {
    DataCodewordsPositive(t, level, ver);
  }

  /** A version has room for a text: the text is empty, or some single content that stands for it fits. */
  ghost predicate HasRoom(text: string, level: Level, ver: int) {
    text == "" || CanHold(QR, text, level, ver)
  }

  ghost function RoomFor(text: string, level: Level): int -> bool {
    ver => HasRoom(text, level, ver)
  }

  lemma RoomIsTold(text: CString, level: Level)
    requires |text| <= INT_MAX
    ensures TellsRoom(RoomFor(text, level), QR, text, level)
  {
    QrSound();
    forall v | 1 <= v <= 40
      ensures AllValid(ContentsOf(text)) && (HasRoom(text, level, v) <==> Fits(QR, SegmentsOf(ContentsOf(text)), level, v))
    {
      if text == "" {
        EmptyFits(QR, level, v);
        assert SegmentsOf(ContentsOf(text)) == [];
      } else {
        ChosenFitsIff(text, level, v);
      }
    }
    assert 1 <= 1 <= 40;
  }

  /**
   Text that is encoded reads back as the text. It is encoded exactly if some version has room for it, whatever the mode
   of its segment, and no smaller version than the one used has.
   */
  method EncodeText(text: CString, level: Level) returns (r: Result<QrCode>)
    requires |text| <= INT_MAX
    ensures Readable(QR, QR_CANVAS)
    ensures r.Ok? ==> ReadsAsText(QR, QR_CANVAS, r.value.modules, text)
    ensures r.Ok? <==> exists v :: 1 <= v <= 40 && HasRoom(text, level, v)
    ensures r.Ok? ==> 1 <= r.value.version <= 40 && forall v :: 1 <= v < r.value.version ==> !HasRoom(text, level, v)
  {
    QrReadable();
    RoomIsTold(text, level);
    ghost var room := RoomFor(text, level);
    r := EncodeTextBy(QR, QR_CANVAS, text, level, room);
    assert forall v :: room(v) <==> HasRoom(text, level, v);
  }
}

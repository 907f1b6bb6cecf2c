/**
 Versions and error correction levels: the block tables the encoder has from
 ISO/IEC 18004:2015, the capacity they give, and what holds of every entry.
 */
module Versions {

  datatype Level = Low | Medium | Quartile | High {
    /** The position of the level, from low to high. */
    function Rank(): nat {
      match this
      case Low => 0
      case Medium => 1
      case Quartile => 2
      case High => 3
    }
  }

  /** Error correction codewords per block and number of blocks, version by version from 1. */
  datatype Rows = End | Row(ecc: nat, blocks: nat, rest: Rows)

  // Each function is a level from a version on.

  function Low35(): Rows {
    Row(30, 19, Row(30, 20, Row(30, 21, Row(30, 22, Row(30, 24, Row(30, 25, End))))))
  }

  function Low29(): Rows {
    Row(30, 14, Row(30, 15, Row(30, 16, Row(30, 17, Row(30, 18, Row(30, 19, Low35()))))))
  }

  function Low22(): Rows {
    Row(28, 9, Row(30, 9, Row(30, 10, Row(26, 12, Row(28, 12, Row(30, 12, Row(30, 13, Low29())))))))
  }

  function Low15(): Rows {
    Row(22, 6, Row(24, 6, Row(28, 6, Row(30, 6, Row(28, 7, Row(28, 8, Row(28, 8, Low22())))))))
  }

  function Low8(): Rows {
    Row(24, 2, Row(30, 2, Row(18, 4, Row(20, 4, Row(24, 4, Row(26, 4, Row(30, 4, Low15())))))))
  }

  function Low1(): Rows {
    Row(7, 1, Row(10, 1, Row(15, 1, Row(20, 1, Row(26, 1, Row(18, 2, Row(20, 2, Low8())))))))
  }

  function Medium35(): Rows {
    Row(28, 38, Row(28, 40, Row(28, 43, Row(28, 45, Row(28, 47, Row(28, 49, End))))))
  }

  function Medium29(): Rows {
    Row(28, 28, Row(28, 29, Row(28, 31, Row(28, 33, Row(28, 35, Row(28, 37, Medium35()))))))
  }

  function Medium22(): Rows {
    Row(28, 17, Row(28, 18, Row(28, 20, Row(28, 21, Row(28, 23, Row(28, 25, Row(28, 26, Medium29())))))))
  }

  function Medium15(): Rows {
    Row(24, 10, Row(28, 10, Row(28, 11, Row(26, 13, Row(26, 14, Row(26, 16, Row(26, 17, Medium22())))))))
  }

  function Medium8(): Rows {
    Row(22, 4, Row(22, 5, Row(26, 5, Row(30, 5, Row(22, 8, Row(22, 9, Row(24, 9, Medium15())))))))
  }

  function Medium1(): Rows {
    Row(10, 1, Row(16, 1, Row(26, 1, Row(18, 2, Row(24, 2, Row(16, 4, Row(18, 4, Medium8())))))))
  }

  function Quartile35(): Rows {
    Row(30, 53, Row(30, 56, Row(30, 59, Row(30, 62, Row(30, 65, Row(30, 68, End))))))
  }

  function Quartile29(): Rows {
    Row(30, 38, Row(30, 40, Row(30, 43, Row(30, 45, Row(30, 48, Row(30, 51, Quartile35()))))))
  }

  function Quartile22(): Rows {
    Row(30, 23, Row(30, 25, Row(30, 27, Row(30, 29, Row(28, 34, Row(30, 34, Row(30, 35, Quartile29())))))))
  }

  function Quartile15(): Rows {
    Row(30, 12, Row(24, 17, Row(28, 16, Row(28, 18, Row(26, 21, Row(30, 20, Row(28, 23, Quartile22())))))))
  }

  function Quartile8(): Rows {
    Row(22, 6, Row(20, 8, Row(24, 8, Row(28, 8, Row(26, 10, Row(24, 12, Row(20, 16, Quartile15())))))))
  }

  function Quartile1(): Rows {
    Row(13, 1, Row(22, 1, Row(18, 2, Row(26, 2, Row(18, 4, Row(24, 4, Row(18, 6, Quartile8())))))))
  }

  function High35(): Rows {
    Row(30, 63, Row(30, 66, Row(30, 70, Row(30, 74, Row(30, 77, Row(30, 81, End))))))
  }

  function High29(): Rows {
    Row(30, 45, Row(30, 48, Row(30, 51, Row(30, 54, Row(30, 57, Row(30, 60, High35()))))))
  }

  function High22(): Rows {
    Row(24, 34, Row(30, 30, Row(30, 32, Row(30, 35, Row(30, 37, Row(30, 40, Row(30, 42, High29())))))))
  }

  function High15(): Rows {
    Row(24, 18, Row(30, 16, Row(28, 19, Row(28, 21, Row(26, 25, Row(28, 25, Row(30, 25, High22())))))))
  }

  function High8(): Rows {
    Row(26, 6, Row(24, 8, Row(28, 8, Row(24, 11, Row(28, 11, Row(22, 16, Row(24, 16, High15())))))))
  }

  function High1(): Rows {
    Row(17, 1, Row(28, 1, Row(22, 2, Row(16, 4, Row(22, 4, Row(28, 4, Row(26, 5, High8())))))))
  }

  /** The data modules of a version: all modules but the function modules. */
  function NumRawDataModules(ver: int): int {
    var all := (16 * ver + 128) * ver + 64;
    if ver >= 2 then
      var numAlign := ver / 7 + 2;
      all - ((25 * numAlign - 10) * numAlign - 55) - (if ver >= 7 then 36 else 0)
    else all
  }

  /** What the encoder relies on: blocks exist, each holds data, and fits the field. */
  predicate Sound(ecc: nat, blocks: nat, ver: nat) {
    && 208 <= NumRawDataModules(ver) <= 29648
    && 1 <= blocks
    && 1 <= ecc <= 30
    && (ecc + 1) * blocks <= NumRawDataModules(ver) / 8 < 254 * blocks
  }

  /** The rows reach version 40 and are all sound. */
  predicate SoundRows(rows: Rows, ver: nat)
    decreases rows
  {
    match rows
    case End => ver == 41
    case Row(ecc, blocks, rest) => Sound(ecc, blocks, ver) && SoundRows(rest, ver + 1)
  }

  lemma Low35Sound()
    ensures SoundRows(Low35(), 35)
  {}

  lemma Low29Sound()
    ensures SoundRows(Low29(), 29)
  {
    Low35Sound();
  }

  lemma Low22Sound()
    ensures SoundRows(Low22(), 22)
  {
    Low29Sound();
  }

  lemma Low15Sound()
    ensures SoundRows(Low15(), 15)
  {
    Low22Sound();
  }

  lemma Low8Sound()
    ensures SoundRows(Low8(), 8)
  {
    Low15Sound();
  }

  lemma Low1Sound()
    ensures SoundRows(Low1(), 1)
  {
    Low8Sound();
  }

  lemma Medium35Sound()
    ensures SoundRows(Medium35(), 35)
  {}

  lemma Medium29Sound()
    ensures SoundRows(Medium29(), 29)
  {
    Medium35Sound();
  }

  lemma Medium22Sound()
    ensures SoundRows(Medium22(), 22)
  {
    Medium29Sound();
  }

  lemma Medium15Sound()
    ensures SoundRows(Medium15(), 15)
  {
    Medium22Sound();
  }

  lemma Medium8Sound()
    ensures SoundRows(Medium8(), 8)
  {
    Medium15Sound();
  }

  lemma Medium1Sound()
    ensures SoundRows(Medium1(), 1)
  {
    Medium8Sound();
  }

  lemma Quartile35Sound()
    ensures SoundRows(Quartile35(), 35)
  {}

  lemma Quartile29Sound()
    ensures SoundRows(Quartile29(), 29)
  {
    Quartile35Sound();
  }

  lemma Quartile22Sound()
    ensures SoundRows(Quartile22(), 22)
  {
    Quartile29Sound();
  }

  lemma Quartile15Sound()
    ensures SoundRows(Quartile15(), 15)
  {
    Quartile22Sound();
  }

  lemma Quartile8Sound()
    ensures SoundRows(Quartile8(), 8)
  {
    Quartile15Sound();
  }

  lemma Quartile1Sound()
    ensures SoundRows(Quartile1(), 1)
  {
    Quartile8Sound();
  }

  lemma High35Sound()
    ensures SoundRows(High35(), 35)
  {}

  lemma High29Sound()
    ensures SoundRows(High29(), 29)
  {
    High35Sound();
  }

  lemma High22Sound()
    ensures SoundRows(High22(), 22)
  {
    High29Sound();
  }

  lemma High15Sound()
    ensures SoundRows(High15(), 15)
  {
    High22Sound();
  }

  lemma High8Sound()
    ensures SoundRows(High8(), 8)
  {
    High15Sound();
  }

  lemma High1Sound()
    ensures SoundRows(High1(), 1)
  {
    High8Sound();
  }

  /** The entry k rows down. */
  function Entry(rows: Rows, k: nat): (nat, nat)
    decreases rows, k
  {
    match rows
    case End => (0, 0)
    case Row(ecc, blocks, rest) => if k == 0 then (ecc, blocks) else Entry(rest, k - 1)
  }

  lemma {:induction false} SoundEntry(rows: Rows, ver: nat, k: nat)
    requires SoundRows(rows, ver) && ver + k <= 40
    ensures Sound(Entry(rows, k).0, Entry(rows, k).1, ver + k)
    decreases k
  {
    if k > 0 {
      SoundEntry(rows.rest, ver + 1, k - 1);
    }
  }

  function TableOf(level: Level): Rows {
    match level
    case Low => Low1()
    case Medium => Medium1()
    case Quartile => Quartile1()
    case High => High1()
  }

  // ---------- capacity ----------

  /** The tables by level and version, with the number of codewords of a version. */
  datatype Capacity = Capacity(ecc: (Level, int) -> nat, blocks: (Level, int) -> nat, raw: int -> nat)

  const QR: Capacity :=
    Capacity((level, ver) => Entry(TableOf(level), if ver >= 1 then ver - 1 else 0).0,
             (level, ver) => Entry(TableOf(level), if ver >= 1 then ver - 1 else 0).1,
             ver => if NumRawDataModules(ver) >= 0 then NumRawDataModules(ver) / 8 else 0)

  /** Names the entry a fact is wanted about. */
  ghost predicate At(level: Level, ver: int) { true }

  ghost predicate SoundAt(t: Capacity, level: Level, ver: int) {
    && 1 <= t.blocks(level, ver)
    && 1 <= t.ecc(level, ver) <= 30
    && (t.ecc(level, ver) + 1) * t.blocks(level, ver) <= t.raw(ver) < 254 * t.blocks(level, ver)
  }

  ghost predicate SoundCapacity(t: Capacity) {
    forall level, ver {:trigger At(level, ver)} :: 1 <= ver <= 40 ==> SoundAt(t, level, ver)
  }

  lemma TableSound(level: Level)
    ensures SoundRows(TableOf(level), 1)
  {
    match level
    case Low => Low1Sound();
    case Medium => Medium1Sound();
    case Quartile => Quartile1Sound();
    case High => High1Sound();
  }

  lemma EntrySound(level: Level, ver: nat)
    requires 1 <= ver <= 40
    ensures Sound(Entry(TableOf(level), ver - 1).0, Entry(TableOf(level), ver - 1).1, ver)
  {
    TableSound(level);
    SoundEntry(TableOf(level), 1, ver - 1);
  }

  /** Every entry of the encoder's tables is sound. */
  lemma QrSound()
    ensures SoundCapacity(QR)
  {
    forall level: Level, ver: int | 1 <= ver <= 40 ensures SoundAt(QR, level, ver) {
      EntrySound(level, ver);
    }
  }

  /** The assertion on the number of data modules never fails. */
  lemma RawModulesInRange(ver: nat)
    requires 1 <= ver <= 40
    ensures 208 <= NumRawDataModules(ver) <= 29648
  {
    EntrySound(Low, ver);
  }

  /** The data codewords of a version at a level. */
  function NumDataCodewords(t: Capacity, level: Level, ver: int): int {
    t.raw(ver) - t.ecc(level, ver) * t.blocks(level, ver)
  }

  lemma RawBits(ver: nat)
    requires 1 <= ver <= 40
    ensures 8 * QR.raw(ver) <= NumRawDataModules(ver)
  {
    RawModulesInRange(ver);
  }

  lemma DataCodewordsPositive(t: Capacity, level: Level, ver: int)
    requires SoundCapacity(t) && 1 <= ver <= 40
    ensures NumDataCodewords(t, level, ver) >= 1
  {
    assert At(level, ver);
    var e, b := t.ecc(level, ver), t.blocks(level, ver);
    assert (e + 1) * b == e * b + b;
  }
}

/**
 QR segments: the factories that turn bytes, digits, alphanumeric text and ECI
 designators into segments, and a reader that turns a bit stream back into what
 the segments were made from.
 */
module Segments {
  import opened Results
  import opened Bits

  const INT_MAX: nat := 0x7FFF_FFFF

  datatype Mode = Numeric | Alphanumeric | ByteMode | Kanji | Eci {
    function ModeBits(): (m: nat)
      ensures 0 < m < 16
    {
      match this
      case Numeric => 0x1
      case Alphanumeric => 0x2
      case ByteMode => 0x4
      case Kanji => 0x8
      case Eci => 0x7
    }

    /** The width of the character count field, by version. */
    function CharCountBits(ver: nat): (n: nat)
      requires 1 <= ver <= 40
      ensures n <= 16
    {
      var i := (ver + 7) / 17;
      match this
      case Numeric => if i == 0 then 10 else if i == 1 then 12 else 14
      case Alphanumeric => if i == 0 then 9 else if i == 1 then 11 else 13
      case ByteMode => if i == 0 then 8 else 16
      case Kanji => if i == 0 then 8 else if i == 1 then 10 else 12
      case Eci => 0
    }
  }

  datatype Segment = Segment(mode: Mode, numChars: nat, data: seq<bool>)

  // ---------- numbers in a base ----------

  function PowN(b: nat, n: nat): nat {
    if n == 0 then 1 else b * PowN(b, n - 1)
  }

  predicate Below(v: seq<nat>, base: nat) {
    forall i :: 0 <= i < |v| ==> v[i] < base
  }

  /** The number with the given digits in the given base. */
  function NumberOf(base: nat, v: seq<nat>): nat
    decreases |v|
  {
    if v == [] then 0 else base * NumberOf(base, v[..|v| - 1]) + v[|v| - 1]
  }

  /** The last n digits of x in the given base. */
  function DigitsOf(base: nat, x: nat, n: nat): (v: seq<nat>)
    requires base > 0
    ensures |v| == n && Below(v, base)
    decreases n
  {
    if n == 0 then [] else DigitsOf(base, x / base, n - 1) + [x % base]
  }

  lemma {:induction false} NumberBound(base: nat, v: seq<nat>)
    requires base > 0 && Below(v, base)
    ensures NumberOf(base, v) < PowN(base, |v|)
    decreases |v|
  {
    if v != [] {
      var n := |v| - 1;
      var x, p := NumberOf(base, v[..n]), PowN(base, n);
      NumberBound(base, v[..n]);
      Monotone(base, x + 1, p);
      assert base * (x + 1) == base * x + base;
    }
  }

  lemma {:induction false} DigitsOfNumber(base: nat, v: seq<nat>)
    requires base > 0 && Below(v, base)
    ensures DigitsOf(base, NumberOf(base, v), |v|) == v
    decreases |v|
  {
    if v != [] {
      var n := |v| - 1;
      DigitsOfNumber(base, v[..n]);
      DivUnique(NumberOf(base, v), base, NumberOf(base, v[..n]), v[n]);
    }
  }

  // ---------- symbols coded in groups ----------

  type Parsed<T> = Option<(T, seq<bool>)>

  /** A group is coded as its number in base `base`, in `step * n + 1` bits for n symbols. */
  function PutGroup(base: nat, step: nat, v: seq<nat>): seq<bool> {
    BigEndian(NumberOf(base, v), step * |v| + 1)
  }

  function GetGroup(base: nat, step: nat, n: nat, s: seq<bool>): Parsed<seq<nat>>
    requires base > 0
  {
    var w := step * n + 1;
    if |s| < w || ToNat(s[..w]) >= PowN(base, n) then None
    else Some((DigitsOf(base, ToNat(s[..w]), n), s[w..]))
  }

  lemma ReadNumber(x: nat, w: nat, tail: seq<bool>)
    requires x < Pow2(w)
    ensures var s := BigEndian(x, w) + tail; ToNat(s[..w]) == x && s[w..] == tail
  {
    var s := BigEndian(x, w) + tail;
    ToNatBigEndian(x, w);
    assert s[..w] == BigEndian(x, w) && s[w..] == tail;
  }

  lemma GetPutGroup(base: nat, step: nat, v: seq<nat>, w: nat, tail: seq<bool>)
    requires base > 0 && Below(v, base) && w == step * |v| + 1 && PowN(base, |v|) <= Pow2(w)
    ensures GetGroup(base, step, |v|, PutGroup(base, step, v) + tail) == Some((v, tail))
  {
    NumberBound(base, v);
    ReadNumber(NumberOf(base, v), w, tail);
    DigitsOfNumber(base, v);
  }

  /** Symbols below `base`, coded `group` at a time in `step * n + 1` bits. */
  datatype Coding =
    Coding(base: nat, group: nat, step: nat, put: seq<nat> -> seq<bool>, get: (nat, seq<bool>) -> Parsed<seq<nat>>)

  const DIGITS: Coding := Coding(10, 3, 3, v => PutGroup(10, 3, v), (n, s) => GetGroup(10, 3, n, s))
  const ALPHANUMERICS: Coding := Coding(45, 2, 5, v => PutGroup(45, 5, v), (n, s) => GetGroup(45, 5, n, s))

  /** Names the group a law is applied to. */
  ghost predicate Group(v: seq<nat>, tail: seq<bool>) { true }

  /** `put` writes the number of the group in the bits appendBits accepts, and `get` undoes it. */
  ghost predicate InvertibleOn(c: Coding, v: seq<nat>, tail: seq<bool>) {
    && c.put(v) == BigEndian(NumberOf(c.base, v), c.step * |v| + 1)
    && c.step * |v| + 1 <= 31
    && NumberOf(c.base, v) < Pow2(c.step * |v| + 1)
    && NumberOf(c.base, v) < 0x1_0000_0000
    && c.get(|v|, c.put(v) + tail) == Some((v, tail))
  }

  ghost predicate Invertible(c: Coding) {
    && c.group > 0
    && forall v, tail {:trigger Group(v, tail)} ::
         0 < |v| <= c.group && Below(v, c.base) ==> InvertibleOn(c, v, tail)
  }

  lemma GroupInvertible(base: nat, step: nat, v: seq<nat>, w: nat, tail: seq<bool>)
    requires base > 0 && Below(v, base) && w == step * |v| + 1 && PowN(base, |v|) <= Pow2(w)
    ensures NumberOf(base, v) < PowN(base, |v|)
    ensures GetGroup(base, step, |v|, PutGroup(base, step, v) + tail) == Some((v, tail))
  {
    NumberBound(base, v);
    GetPutGroup(base, step, v, w, tail);
  }

  lemma DigitsInvertible()
    ensures Invertible(DIGITS)
  {
    assert PowN(10, 1) == 10 && PowN(10, 2) == 100 && PowN(10, 3) == 1000;
    assert Pow2(4) == 16 && Pow2(7) == 128 && Pow2(10) == 1024;
    forall v, tail | 0 < |v| <= 3 && Below(v, 10) ensures InvertibleOn(DIGITS, v, tail) {
      assert |v| == 1 || |v| == 2 || |v| == 3;
      GroupInvertible(10, 3, v, 3 * |v| + 1, tail);
    }
  }

  lemma AlphanumericsInvertible()
    ensures Invertible(ALPHANUMERICS)
  {
    assert PowN(45, 1) == 45 && PowN(45, 2) == 2025;
    assert Pow2(6) == 64 && Pow2(11) == 2048;
    forall v, tail | 0 < |v| <= 2 && Below(v, 45) ensures InvertibleOn(ALPHANUMERICS, v, tail) {
      assert |v| == 1 || |v| == 2;
      GroupInvertible(45, 5, v, 5 * |v| + 1, tail);
    }
  }

  /** The size of the next group among n symbols. */
  function GroupSize(c: Coding, n: nat): nat {
    if n < c.group then n else c.group
  }

  function SymbolBits(c: Coding, v: seq<nat>): seq<bool>
    requires c.group > 0
    decreases |v|
  {
    if v == [] then []
    else
      var n := GroupSize(c, |v|);
      c.put(v[..n]) + SymbolBits(c, v[n..])
  }

  /** Reads n symbols and returns them with the rest of the stream. */
  function ReadSymbols(c: Coding, n: nat, s: seq<bool>): Parsed<seq<nat>>
    requires c.group > 0
    decreases n
  {
    if n == 0 then Some(([], s))
    else
      var k := GroupSize(c, n);
      match c.get(k, s)
      case None => None
      case Some((head, middle)) =>
        match ReadSymbols(c, n - k, middle)
        case None => None
        case Some((v, rest)) => Some((head + v, rest))
  }

  lemma {:induction false} ReadSymbolBits(c: Coding, v: seq<nat>, rest: seq<bool>)
    requires Invertible(c) && Below(v, c.base)
    ensures ReadSymbols(c, |v|, SymbolBits(c, v) + rest) == Some((v, rest))
    decreases |v|
  {
    if v == [] {
      assert SymbolBits(c, v) + rest == rest;
    } else {
      var k := GroupSize(c, |v|);
      var head, tail := v[..k], v[k..];
      assert SymbolBits(c, v) + rest == c.put(head) + (SymbolBits(c, tail) + rest);
      assert Group(head, SymbolBits(c, tail) + rest);
      ReadSymbolBits(c, tail, rest);
      assert v == head + tail;
    }
  }

  /** n symbols are whole groups of g. */
  ghost predicate Whole(n: int, g: nat)
    requires g > 0
    decreases n
  {
    n == 0 || (n >= g && Whole(n - g, g))
  }

  /** Whole groups can be coded before the rest. */
  lemma {:induction false} SymbolBitsAppend(c: Coding, v: seq<nat>, t: seq<nat>)
    requires c.group > 0 && Whole(|v|, c.group)
    ensures SymbolBits(c, v + t) == SymbolBits(c, v) + SymbolBits(c, t)
    decreases |v|
  {
    if v == [] {
      assert v + t == t;
    } else {
      var g := c.group;
      assert (v + t)[..g] == v[..g] && (v + t)[g..] == v[g..] + t;
      SymbolBitsAppend(c, v[g..], t);
    }
  }

  // ---------- characters ----------

  /** A C string: its characters before the terminating zero. */
  type CString = s: string | forall i :: 0 <= i < |s| ==> 0 < s[i] as int < 256

  const CHARSET: string := "0123456789ABCDEFGHIJKLMNOPQRSTUVWXYZ $%*+-./:"

  predicate IsDigit(c: char) {
    '0' <= c <= '9'
  }

  /** The index of the first c in t at or after `from`, as strchr finds it. */
  function Find(t: string, c: char, from: nat): (r: Option<nat>)
    requires from <= |t|
    ensures r.Some? ==> r.value < |t| && t[r.value] == c
    ensures r.None? ==> c !in t[from..]
    decreases |t| - from
  {
    if from == |t| then None
    else if t[from] == c then Some(from)
    else Find(t, c, from + 1)
  }

  /** An alphabet numbers some characters; `symbol` undoes the numbering. */
  datatype Alphabet = Alphabet(index: char -> Option<nat>, symbol: nat -> char)

  const DECIMAL: Alphabet :=
    Alphabet(c => if IsDigit(c) then Some(c as int - '0' as int) else None,
             (n: nat) => if n < 10 then '0' + n as char else '0')
  const CHARACTERS: Alphabet :=
    Alphabet(c => Find(CHARSET, c, 0),
             (n: nat) => if n < |CHARSET| then CHARSET[n] else ' ')

  predicate Spelled(a: Alphabet, t: string) {
    forall i :: 0 <= i < |t| ==> a.index(t[i]).Some?
  }

  function Indices(a: Alphabet, t: string): (v: seq<nat>)
    requires Spelled(a, t)
    ensures |v| == |t| && forall i :: 0 <= i < |t| ==> v[i] == a.index(t[i]).value
  {
    seq(|t|, i requires 0 <= i < |t| => a.index(t[i]).value)
  }

  function Spell(a: Alphabet, v: seq<nat>): (t: string)
    ensures |t| == |v| && forall i :: 0 <= i < |v| ==> t[i] == a.symbol(v[i])
  {
    seq(|v|, i requires 0 <= i < |v| => a.symbol(v[i]))
  }

  ghost predicate Faithful(a: Alphabet, base: nat) {
    forall c: char :: a.index(c).Some? ==> a.index(c).value < base && a.symbol(a.index(c).value) == c
  }

  lemma AlphabetsFaithful()
    ensures Faithful(DECIMAL, 10) && Faithful(CHARACTERS, 45)
  {
    assert |CHARSET| == 45;
  }

  lemma SpellIndices(a: Alphabet, base: nat, t: string)
    requires Faithful(a, base) && Spelled(a, t)
    ensures Below(Indices(a, t), base) && Spell(a, Indices(a, t)) == t
  {}

  // ---------- contents and their segments ----------

  /** What a segment is made from. */
  datatype Content =
    | Bytes(bytes: seq<Byte>)
    | DigitText(text: string)
    | PlainText(text: string)
    | Designator(value: nat)

  /** The contents the factories accept. */
  ghost predicate Valid(c: Content) {
    match c
    case Bytes(b) => |b| <= INT_MAX
    case DigitText(t) => Spelled(DECIMAL, t)
    case PlainText(t) => Spelled(CHARACTERS, t)
    case Designator(v) => v < 1000000
  }

  function EciBits(v: nat): seq<bool> {
    if v < 128 then BigEndian(v, 8)
    else if v < 16384 then BigEndian(2, 2) + BigEndian(v, 14)
    else BigEndian(6, 3) + BigEndian(v, 21)
  }

  ghost function SegmentOf(c: Content): Segment
    requires Valid(c)
  {
    match c
    case Bytes(b) => Segment(ByteMode, |b|, Unpack(b))
    case DigitText(t) => Segment(Numeric, |t|, SymbolBits(DIGITS, Indices(DECIMAL, t)))
    case PlainText(t) => Segment(Alphanumeric, |t|, SymbolBits(ALPHANUMERICS, Indices(CHARACTERS, t)))
    case Designator(v) => Segment(Eci, 0, EciBits(v))
  }

  // ---------- the factories ----------

  lemma {:induction false} UnpackSnoc(b: seq<Byte>, x: Byte)
    ensures Unpack(b + [x]) == Unpack(b) + BitsOf(x)
    decreases |b|
  {
    if b == [] {
      assert b + [x] == [x];
      assert [x][1..] == [];
    } else {
      assert (b + [x])[1..] == b[1..] + [x];
      UnpackSnoc(b[1..], x);
    }
  }

  /** `appendBits(b, 8)`, which never throws. */
  method AppendByte(bb: BitBuffer, b: Byte)
    modifies bb
    ensures bb.bits == old(bb.bits) + BitsOf(b)
  {
    BitsOfValue(b);
    assert Pow2(8) == 256;
    var appended := bb.AppendBits(Value(b), 8);
  }

  method MakeBytes(data: seq<Byte>) returns (r: Result<Segment>)
    ensures r.Ok? <==> |data| <= INT_MAX
    ensures r.Ok? ==> r.value == SegmentOf(Bytes(data))
  {
    if |data| > INT_MAX {
      return Err("Data too long");
    }
    var bb := new BitBuffer();
    for i := 0 to |data|
      invariant bb.bits == Unpack(data[..i])
    {
      UnpackSnoc(data[..i], data[i]);
      assert data[..i + 1] == data[..i] + [data[i]];
      AppendByte(bb, data[i]);
    }
    assert data[..|data|] == data;
    return Ok(Segment(ByteMode, |data|, bb.bits));
  }

  lemma {:induction false} NumberSnoc(base: nat, v: seq<nat>, d: nat)
    ensures NumberOf(base, v + [d]) == base * NumberOf(base, v) + d
  {
    assert (v + [d])[..|v|] == v;
  }

  /** One group alone. */
  lemma SymbolBitsOne(c: Coding, v: seq<nat>)
    requires c.group > 0 && 0 < |v| <= c.group
    ensures SymbolBits(c, v) == c.put(v)
  {
    assert v[..|v|] == v && v[|v|..] == [];
    assert SymbolBits(c, v[|v|..]) == [];
  }

  /** A full group closes: the symbols up to it are whole groups. */
  lemma CloseGroup(c: Coding, v: seq<nat>, k: nat)
    requires c.group > 0 && k <= |v| && Whole(k, c.group) && 0 < |v| - k <= c.group
    ensures SymbolBits(c, v) == SymbolBits(c, v[..k]) + c.put(v[k..])
  {
    SymbolBitsAppend(c, v[..k], v[k..]);
    assert v[..k] + v[k..] == v;
    SymbolBitsOne(c, v[k..]);
  }

  /** The state of an accumulating loop after the symbols v: whole groups are coded, the rest is pending. */
  ghost predicate Pending(c: Coding, v: seq<nat>, data: nat, count: nat, bits: seq<bool>) {
    && c.group > 0
    && count < c.group && count <= |v| && Whole(|v| - count, c.group)
    && data == NumberOf(c.base, v[|v| - count..])
    && bits == SymbolBits(c, v[..|v| - count])
  }

  lemma PendingSymbol(c: Coding, v: seq<nat>, data: nat, count: nat, bits: seq<bool>, d: nat)
    requires Pending(c, v, data, count, bits)
    ensures NumberOf(c.base, (v + [d])[|v| - count..]) == c.base * data + d
    ensures count + 1 < c.group ==> Pending(c, v + [d], c.base * data + d, count + 1, bits)
  {
    var w, k := v + [d], |v| - count;
    NumberSnoc(c.base, v[k..], d);
    assert w[k..] == v[k..] + [d] && w[..k] == v[..k];
  }

  lemma PendingFull(c: Coding, v: seq<nat>, k: nat)
    requires c.group > 0 && k + c.group == |v| && Whole(k, c.group)
    ensures Pending(c, v, 0, 0, SymbolBits(c, v[..k]) + c.put(v[k..]))
  {
    CloseGroup(c, v, k);
    assert v[..|v|] == v && v[|v|..] == [];
  }

  lemma PendingEnd(c: Coding, v: seq<nat>, data: nat, count: nat, bits: seq<bool>)
    requires Pending(c, v, data, count, bits)
    ensures SymbolBits(c, v) == if count == 0 then bits else bits + c.put(v[|v| - count..])
  {
    if count == 0 {
      assert v[..|v|] == v;
    } else {
      CloseGroup(c, v, |v| - count);
    }
  }

  lemma IndicesSnoc(a: Alphabet, t: string, k: nat)
    requires k < |t| && Spelled(a, t[..k]) && a.index(t[k]).Some?
    ensures Spelled(a, t[..k + 1]) && Indices(a, t[..k + 1]) == Indices(a, t[..k]) + [a.index(t[k]).value]
  {}

  /** One turn of the loop: the symbol is accumulated, and a full group appended. */
  method Accumulate(c: Coding, bb: BitBuffer, data: nat, count: nat, d: nat, ghost v: seq<nat>)
    returns (accumData: nat, accumCount: nat)
    requires Invertible(c) && Below(v, c.base) && d < c.base && Pending(c, v, data, count, bb.bits)
    modifies bb
    ensures Pending(c, v + [d], accumData, accumCount, bb.bits)
  {
    PendingSymbol(c, v, data, count, bb.bits, d);
    accumData := data * c.base + d;
    accumCount := count + 1;
    if accumCount == c.group {
      ghost var w := v + [d];
      assert w[..|v| - count] == v[..|v| - count];
      PendingFull(c, w, |v| - count);
      AppendGroup(c, bb, accumData, accumCount, w[|v| - count..]);
      accumData := 0;
      accumCount := 0;
    }
  }

  /** The group that remains after the loop is appended. */
  method Flush(c: Coding, bb: BitBuffer, accumData: nat, accumCount: nat, ghost v: seq<nat>)
    requires Invertible(c) && Below(v, c.base) && Pending(c, v, accumData, accumCount, bb.bits)
    modifies bb
    ensures bb.bits == SymbolBits(c, v)
  {
    PendingEnd(c, v, accumData, accumCount, bb.bits);
    if accumCount > 0 {
      AppendGroup(c, bb, accumData, accumCount, v[|v| - accumCount..]);
    }
  }

  lemma PrefixBelow(a: Alphabet, base: nat, t: string)
    requires Faithful(a, base) && Spelled(a, t)
    ensures Below(Indices(a, t), base)
  {}

  /**
   The loop shared by the two text factories: symbol numbers are accumulated in
   the base, and each full group, and the group that remains at the end, is
   appended. No append throws.
   */
  method EncodeGroups(a: Alphabet, c: Coding, text: CString) returns (r: Option<seq<bool>>)
    requires Invertible(c) && Faithful(a, c.base)
    ensures r.Some? <==> Spelled(a, text)
    ensures r.Some? ==> r.value == SymbolBits(c, Indices(a, text))
  {
    var bb := new BitBuffer();
    var accumData: nat, accumCount: nat := 0, 0;
    for i := 0 to |text|
      invariant Spelled(a, text[..i])
      invariant Pending(c, Indices(a, text[..i]), accumData, accumCount, bb.bits)
    {
      var found := a.index(text[i]);
      if found.None? {
        return None;
      }
      IndicesSnoc(a, text, i);
      PrefixBelow(a, c.base, text[..i]);
      accumData, accumCount := Accumulate(c, bb, accumData, accumCount, found.value, Indices(a, text[..i]));
    }
    assert text[..|text|] == text;
    PrefixBelow(a, c.base, text);
    Flush(c, bb, accumData, accumCount, Indices(a, text));
    return Some(bb.bits);
  }

  method AppendGroup(c: Coding, bb: BitBuffer, data: nat, count: nat, ghost group: seq<nat>)
    requires Invertible(c)
    requires count == |group| && 0 < count <= c.group && Below(group, c.base) && data == NumberOf(c.base, group)
    modifies bb
    ensures bb.bits == old(bb.bits) + c.put(group)
  {
    assert Group(group, []);
    var appended := bb.AppendBits(data, c.step * count + 1);
  }

  method MakeNumeric(digits: CString) returns (r: Result<Segment>)
    requires |digits| <= INT_MAX
    ensures r.Ok? <==> Spelled(DECIMAL, digits)
    ensures r.Ok? ==> r.value == SegmentOf(DigitText(digits))
  {
    DigitsInvertible();
    AlphabetsFaithful();
    var bits := EncodeGroups(DECIMAL, DIGITS, digits);
    return if bits.None? then Err("String contains non-numeric characters")
      else Ok(Segment(Numeric, |digits|, bits.value));
  }

  method MakeAlphanumeric(text: CString) returns (r: Result<Segment>)
    requires |text| <= INT_MAX
    ensures r.Ok? <==> Spelled(CHARACTERS, text)
    ensures r.Ok? ==> r.value == SegmentOf(PlainText(text))
  {
    AlphanumericsInvertible();
    AlphabetsFaithful();
    var bits := EncodeGroups(CHARACTERS, ALPHANUMERICS, text);
    return if bits.None? then Err("String contains unencodable characters in alphanumeric mode")
      else Ok(Segment(Alphanumeric, |text|, bits.value));
  }

  method MakeEci(assignVal: int) returns (r: Result<Segment>)
    ensures r.Ok? <==> 0 <= assignVal < 1000000
    ensures r.Ok? ==> r.value == SegmentOf(Designator(assignVal))
  {
    if assignVal < 0 || assignVal >= 1000000 {
      return Err("ECI assignment value out of range");
    }
    var bb := new BitBuffer();
    EciWidths();
    if assignVal < 128 {
      var appended := bb.AppendBits(assignVal, 8);
    } else if assignVal < 16384 {
      var prefix := bb.AppendBits(2, 2);
      var appended := bb.AppendBits(assignVal, 14);
    } else {
      var prefix := bb.AppendBits(6, 3);
      var appended := bb.AppendBits(assignVal, 21);
    }
    return Ok(Segment(Eci, 0, bb.bits));
  }

  lemma EciWidths()
    ensures Pow2(2) == 4 && Pow2(3) == 8 && Pow2(7) == 128 && Pow2(8) == 256
    ensures Pow2(14) == 16384 && Pow2(21) == 2097152
  {
    assert Pow2(10) == 1024;
    Pow2Add(7, 7);
    Pow2Add(14, 7);
  }

  // ---------- text ----------

  method IsNumeric(text: CString) returns (r: bool)
    ensures r <==> Spelled(DECIMAL, text)
  {
    for i := 0 to |text|
      invariant forall j :: 0 <= j < i ==> DECIMAL.index(text[j]).Some?
    {
      if text[i] < '0' || text[i] > '9' {
        assert DECIMAL.index(text[i]).None?;
        return false;
      }
    }
    return true;
  }

  method IsAlphanumeric(text: CString) returns (r: bool)
    ensures r <==> Spelled(CHARACTERS, text)
  {
    for i := 0 to |text|
      invariant forall j :: 0 <= j < i ==> CHARACTERS.index(text[j]).Some?
    {
      if Find(CHARSET, text[i], 0).None? {
        assert CHARACTERS.index(text[i]).None?;
        return false;
      }
    }
    return true;
  }

  /** The byte with the given value. */
  function ByteOf(n: nat): (b: Byte)
    requires n < 256
    ensures Value(b) == n
  {
    BitsOfByteAt(BigEndian(n, 8), 0);
    assert BigEndian(n, 8)[0..8] == BigEndian(n, 8);
    assert Pow2(8) == 256;
    ToNatBigEndian(n, 8);
    ByteAt(BigEndian(n, 8), 0)
  }

  function BytesOf(t: CString): (b: seq<Byte>)
    ensures |b| == |t| && forall i :: 0 <= i < |t| ==> Value(b[i]) == t[i] as int
  {
    seq(|t|, i requires 0 <= i < |t| => ByteOf(t[i] as int))
  }

  function TextOfBytes(b: seq<Byte>): (t: string)
    ensures |t| == |b| && forall i :: 0 <= i < |b| ==> t[i] as int == Value(b[i])
  {
    seq(|b|, i requires 0 <= i < |b| => Value(b[i]) as char)
  }

  /** The contents text is turned into: the most compact single mode that can hold it. */
  function ContentsOf(t: CString): seq<Content> {
    if t == "" then []
    else if Spelled(DECIMAL, t) then [DigitText(t)]
    else if Spelled(CHARACTERS, t) then [PlainText(t)]
    else [Bytes(BytesOf(t))]
  }

  /** The text that contents stand for. */
  function TextOf(cs: seq<Content>): string {
    if cs == [] then ""
    else
      var head := match cs[0]
        case Bytes(b) => TextOfBytes(b)
        case DigitText(t) => t
        case PlainText(t) => t
        case Designator(_) => "";
      head + TextOf(cs[1..])
  }

  lemma TextOfContents(t: CString)
    ensures TextOf(ContentsOf(t)) == t
  {
    if t != "" && !Spelled(DECIMAL, t) && !Spelled(CHARACTERS, t) {
      assert TextOfBytes(BytesOf(t)) == t;
    }
  }

  ghost predicate AllValid(cs: seq<Content>) {
    forall i :: 0 <= i < |cs| ==> Valid(cs[i])
  }

  ghost function SegmentsOf(cs: seq<Content>): (segs: seq<Segment>)
    requires AllValid(cs)
    ensures |segs| == |cs| && forall i :: 0 <= i < |cs| ==> segs[i] == SegmentOf(cs[i])
  {
    seq(|cs|, i requires 0 <= i < |cs| => SegmentOf(cs[i]))
  }

  method MakeSegments(text: CString) returns (segs: seq<Segment>)
    requires |text| <= INT_MAX
    ensures AllValid(ContentsOf(text)) && segs == SegmentsOf(ContentsOf(text))
  {
    if text == "" {
      return [];
    }
    var numeric := IsNumeric(text);
    var alphanumeric := IsAlphanumeric(text);
    var made;
    if numeric {
      made := MakeNumeric(text);
    } else if alphanumeric {
      made := MakeAlphanumeric(text);
    } else {
      made := MakeBytes(BytesOf(text));
    }
    return [made.value];
  }
}

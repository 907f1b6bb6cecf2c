/**
 Big endian bit strings: numbers and bytes as bits, the encoder's bit buffer
 and the packing of bits into codewords.
 */
module Bits {
  import opened Results

  function Pow2(n: nat): (p: nat)
    ensures p > 0
  {
    if n == 0 then 1 else 2 * Pow2(n - 1)
  }

  /** The n low bits of v, most significant first. */
  function BigEndian(v: nat, n: nat): (s: seq<bool>)
    ensures |s| == n
    decreases n, v
  {
    if n == 0 then [] else BigEndian(v / 2, n - 1) + [v % 2 == 1]
  }

  function ToNat(s: seq<bool>): nat
    decreases |s|
  {
    if s == [] then 0 else 2 * ToNat(s[..|s| - 1]) + if s[|s| - 1] then 1 else 0
  }

  lemma {:induction false} ToNatBigEndian(v: nat, n: nat)
    requires v < Pow2(n)
    ensures ToNat(BigEndian(v, n)) == v
    decreases n
  {
    if n > 0 {
      ToNatBigEndian(v / 2, n - 1);
      assert BigEndian(v, n)[..n - 1] == BigEndian(v / 2, n - 1);
    }
  }

  lemma {:induction false} BigEndianToNat(s: seq<bool>)
    ensures BigEndian(ToNat(s), |s|) == s
    decreases |s|
  {
    if s != [] {
      var t := s[..|s| - 1];
      BigEndianToNat(t);
      assert ToNat(s) / 2 == ToNat(t);
    }
  }

  lemma {:induction false} ToNatBound(s: seq<bool>)
    ensures ToNat(s) < Pow2(|s|)
    decreases |s|
  {
    if s != [] {
      ToNatBound(s[..|s| - 1]);
    }
  }

  lemma {:induction false} Pow2Add(m: nat, n: nat)
    ensures Pow2(m + n) == Pow2(m) * Pow2(n)
    decreases n
  {
    if n > 0 {
      Pow2Add(m, n - 1);
      assert Pow2(m + n) == 2 * (Pow2(m) * Pow2(n - 1));
    }
  }

  /** Bit i of v: `(v >> i) & 1`. */
  function ShiftBit(v: nat, i: nat): bool {
    v / Pow2(i) % 2 == 1
  }

  lemma DivDiv(v: nat, p: nat)
    requires p > 0
    ensures v / 2 / p == v / (2 * p)
  {
    var a, r := v / 2, v % 2;
    var q, s := a / p, a % p;
    assert v == 2 * (q * p + s) + r;
    assert v == (2 * p) * q + (2 * s + r) by { assert 2 * (q * p) == (2 * p) * q; }
    DivUnique(v, 2 * p, q, 2 * s + r);
  }

  lemma Monotone(d: nat, a: nat, b: nat)
    requires a <= b
    ensures d * a <= d * b
  {}

  lemma DivUnique(v: nat, d: nat, q: nat, r: nat)
    requires d > 0 && v == d * q + r && r < d
    ensures v / d == q && v % d == r
  {
    var q', r' := v / d, v % d;
    assert v == d * q' + r';
    if q' > q {
      Monotone(d, q + 1, q');
    } else if q' < q {
      Monotone(d, q' + 1, q);
    }
  }

  lemma {:induction false} BigEndianAt(v: nat, n: nat, i: nat)
    requires i < n
    ensures BigEndian(v, n)[n - 1 - i] == ShiftBit(v, i)
    decreases n
  {
    if i > 0 {
      BigEndianAt(v / 2, n - 1, i - 1);
      DivDiv(v, Pow2(i - 1));
    }
  }

  // ---------- the bit buffer ----------

  class BitBuffer {
    var bits: seq<bool>

    constructor ()
      ensures bits == []
    {
      bits := [];
    }

    /** Appends the low `len` bits of a 32-bit value, which must have no others. */
    method AppendBits(val: nat, len: int) returns (r: Result<()>)
      requires val < 0x1_0000_0000
      modifies this
      ensures r.Ok? <==> 0 <= len <= 31 && val < Pow2(len)
      ensures bits == if r.Ok? then old(bits) + BigEndian(val, len) else old(bits)
    {
      if len < 0 || len > 31 {
        return Err("Value out of range");
      }
      ShiftOut(val, Pow2(len));
      if val / Pow2(len) != 0 {
        return Err("Value out of range");
      }
      ghost var all := BigEndian(val, len);
      var i := len;
      while i > 0
        invariant 0 <= i <= len
        invariant bits == old(bits) + all[..len - i]
      {
        i := i - 1;
        BigEndianAt(val, len, i);
        assert all[..len - i] == all[..len - i - 1] + [all[len - 1 - i]];
        bits := bits + [ShiftBit(val, i)];
      }
      assert all[..len] == all;
      return Ok(());
    }
  }

  lemma ShiftOut(v: nat, p: nat)
    requires p > 0
    ensures v / p == 0 <==> v < p
  {
    if v < p {
      DivUnique(v, p, 0, v);
    }
  }

  // ---------- bytes ----------

  /** A uint8_t, by its bits. */
  datatype Byte = Byte(b7: bool, b6: bool, b5: bool, b4: bool, b3: bool, b2: bool, b1: bool, b0: bool)

  const ZERO: Byte := Byte(false, false, false, false, false, false, false, false)

  /** Bit j of a byte, counted from the most significant. */
  function BitOf(b: Byte, j: nat): bool
    requires j < 8
  {
    if j == 0 then b.b7 else if j == 1 then b.b6 else if j == 2 then b.b5 else if j == 3 then b.b4
    else if j == 4 then b.b3 else if j == 5 then b.b2 else if j == 6 then b.b1 else b.b0
  }

  /** The eight bits of a byte, most significant first. */
  function BitsOf(b: Byte): (s: seq<bool>)
    ensures |s| == 8 && forall j :: 0 <= j < 8 ==> s[j] == BitOf(b, j)
  {
    seq(8, j requires 0 <= j < 8 => BitOf(b, j))
  }

  /** The byte whose bits begin at offset o. */
  function ByteAt(s: seq<bool>, o: nat): (b: Byte)
    requires o + 8 <= |s|
    ensures forall j :: 0 <= j < 8 ==> BitOf(b, j) == s[o + j]
  {
    Byte(s[o], s[o + 1], s[o + 2], s[o + 3], s[o + 4], s[o + 5], s[o + 6], s[o + 7])
  }

  lemma RebuildByte(s: seq<bool>, o: nat, b: Byte)
    requires o + 8 <= |s|
    requires s[o] == b.b7 && s[o + 1] == b.b6 && s[o + 2] == b.b5 && s[o + 3] == b.b4
    requires s[o + 4] == b.b3 && s[o + 5] == b.b2 && s[o + 6] == b.b1 && s[o + 7] == b.b0
    ensures ByteAt(s, o) == b
  {}

  lemma ByteOfBits(b: Byte)
    ensures ByteAt(BitsOf(b), 0) == b
  {
    RebuildByte(BitsOf(b), 0, b);
  }

  lemma SameBits(b: Byte, c: Byte)
    requires BitsOf(b) == BitsOf(c)
    ensures b == c
  {
    ByteOfBits(b);
    ByteOfBits(c);
  }

  function Digit(bit: bool): nat {
    if bit then 1 else 0
  }

  /** The number a byte stands for. */
  function Value(b: Byte): (n: nat)
    ensures n < 256
  {
    ToNatBound(BitsOf(b));
    assert Pow2(8) == 256;
    ToNat(BitsOf(b))
  }

  lemma ToNatTake(s: seq<bool>, k: nat)
    requires k < |s|
    ensures ToNat(s[..k + 1]) == 2 * ToNat(s[..k]) + Digit(s[k])
  {
    assert s[..k + 1][..k] == s[..k];
  }

  ghost predicate Doubles(f: nat -> nat, d: nat -> nat, k: nat) {
    f(k + 1) == 2 * f(k) + d(k)
  }

  lemma Doubled(f: nat -> nat, d: nat -> nat)
    requires f(0) == 0 && forall k: nat :: k < 8 ==> Doubles(f, d, k)
    ensures f(8) == 128 * d(0) + 64 * d(1) + 32 * d(2) + 16 * d(3) + 8 * d(4) + 4 * d(5) + 2 * d(6) + d(7)
  {
    assert Doubles(f, d, 0) && Doubles(f, d, 1) && Doubles(f, d, 2) && Doubles(f, d, 3);
    assert Doubles(f, d, 4) && Doubles(f, d, 5) && Doubles(f, d, 6) && Doubles(f, d, 7);
  }

  /** The bits of a byte weigh 128 down to 1. */
  function Weight(b: Byte): nat {
    128 * Digit(b.b7) + 64 * Digit(b.b6) + 32 * Digit(b.b5) + 16 * Digit(b.b4)
    + 8 * Digit(b.b3) + 4 * Digit(b.b2) + 2 * Digit(b.b1) + Digit(b.b0)
  }

  lemma ValueIsWeight(b: Byte)
    ensures Value(b) == Weight(b)
  {
    var s := BitsOf(b);
    var f := (k: nat) => if k <= 8 then ToNat(s[..k]) else 0;
    var d := (k: nat) => if k < 8 then Digit(BitOf(b, k)) else 0;
    forall k: nat | k < 8 ensures Doubles(f, d, k) {
      ToNatTake(s, k);
    }
    Doubled(f, d);
    assert s[..8] == s;
  }

  lemma BitsOfValue(b: Byte)
    ensures BigEndian(Value(b), 8) == BitsOf(b)
  {
    BigEndianToNat(BitsOf(b));
  }

  lemma ValueInjective(b: Byte, c: Byte)
    requires Value(b) == Value(c)
    ensures b == c
  {
    BitsOfValue(b);
    BitsOfValue(c);
    SameBits(b, c);
  }

  // ---------- packing ----------

  function Pack(s: seq<bool>): (bytes: seq<Byte>)
    requires |s| % 8 == 0
    ensures |bytes| == |s| / 8
    decreases |s|
  {
    if s == [] then [] else [ByteAt(s, 0)] + Pack(s[8..])
  }

  function Unpack(bytes: seq<Byte>): (s: seq<bool>)
    ensures |s| == 8 * |bytes|
    decreases |bytes|
  {
    if bytes == [] then [] else BitsOf(bytes[0]) + Unpack(bytes[1..])
  }

  lemma BitsOfByteAt(s: seq<bool>, o: nat)
    requires o + 8 <= |s|
    ensures BitsOf(ByteAt(s, o)) == s[o..o + 8]
  {}

  lemma {:induction false} UnpackPack(s: seq<bool>)
    requires |s| % 8 == 0
    ensures Unpack(Pack(s)) == s
    decreases |s|
  {
    if s != [] {
      BitsOfByteAt(s, 0);
      UnpackPack(s[8..]);
      assert s == s[0..8] + s[8..];
    }
  }

  lemma ByteAtFront(b: Byte, t: seq<bool>)
    ensures ByteAt(BitsOf(b) + t, 0) == b
  {
    BitsOfByteAt(BitsOf(b) + t, 0);
    assert (BitsOf(b) + t)[0..8] == BitsOf(b);
    SameBits(ByteAt(BitsOf(b) + t, 0), b);
  }

  lemma {:induction false} PackUnpack(bytes: seq<Byte>)
    ensures Pack(Unpack(bytes)) == bytes
    decreases |bytes|
  {
    if bytes != [] {
      var t := Unpack(bytes[1..]);
      ByteAtFront(bytes[0], t);
      assert (BitsOf(bytes[0]) + t)[8..] == t;
      PackUnpack(bytes[1..]);
    }
  }

  /** Bit i of packed data is bit 7 - (i & 7) of byte i >> 3. */
  lemma {:induction false} UnpackAt(bytes: seq<Byte>, i: nat)
    requires i < 8 * |bytes|
    ensures Unpack(bytes)[i] == BitOf(bytes[i / 8], i % 8)
    decreases |bytes|
  {
    if i >= 8 {
      UnpackAt(bytes[1..], i - 8);
    }
  }

  lemma {:induction false} UnpackFrom(bytes: seq<Byte>, p: nat)
    requires p <= |bytes|
    ensures Unpack(bytes)[8 * p..] == Unpack(bytes[p..])
    decreases p
  {
    if p > 0 {
      UnpackFrom(bytes[1..], p - 1);
      assert bytes[1..][p - 1..] == bytes[p..];
    }
  }

  lemma UnpackInjective(a: seq<Byte>, b: seq<Byte>)
    requires Unpack(a) == Unpack(b)
    ensures a == b
  {
    PackUnpack(a);
    PackUnpack(b);
  }

  lemma {:induction false} PackAt(s: seq<bool>, k: nat)
    requires |s| % 8 == 0 && k < |s| / 8
    ensures Pack(s)[k] == ByteAt(s, 8 * k)
    decreases k
  {
    if k > 0 {
      PackAt(s[8..], k - 1);
    }
  }

  /** `b | (bit << (7 - j))` */
  function OrBit(b: Byte, j: nat, bit: bool): Byte
    requires j < 8
  {
    if j == 0 then b.(b7 := b.b7 || bit)
    else if j == 1 then b.(b6 := b.b6 || bit)
    else if j == 2 then b.(b5 := b.b5 || bit)
    else if j == 3 then b.(b4 := b.b4 || bit)
    else if j == 4 then b.(b3 := b.b3 || bit)
    else if j == 5 then b.(b2 := b.b2 || bit)
    else if j == 6 then b.(b1 := b.b1 || bit)
    else b.(b0 := b.b0 || bit)
  }

  lemma OrBitAt(b: Byte, j: nat, bit: bool, i: nat)
    requires j < 8 && i < 8
    ensures BitOf(OrBit(b, j, bit), i) == if i == j then BitOf(b, j) || bit else BitOf(b, i)
  {}

  /** The bits set so far in a zeroed array of codewords. */
  ghost predicate Packed(bytes: seq<Byte>, s: seq<bool>, n: nat) {
    && |s| == 8 * |bytes|
    && forall k, j :: 0 <= k < |bytes| && 0 <= j < 8 ==> BitOf(bytes[k], j) == (8 * k + j < n && s[8 * k + j])
  }

  lemma PackedStep(bytes: seq<Byte>, s: seq<bool>, n: nat)
    requires n < |s| && Packed(bytes, s, n)
    ensures Packed(bytes[n / 8 := OrBit(bytes[n / 8], n % 8, s[n])], s, n + 1)
  {
    var next := bytes[n / 8 := OrBit(bytes[n / 8], n % 8, s[n])];
    forall k, j | 0 <= k < |bytes| && 0 <= j < 8
      ensures BitOf(next[k], j) == (8 * k + j < n + 1 && s[8 * k + j])
    {
      assert BitOf(bytes[k], j) == (8 * k + j < n && s[8 * k + j]);
      if k == n / 8 {
        OrBitAt(bytes[k], n % 8, s[n], j);
      }
    }
  }

  lemma PackedAll(bytes: seq<Byte>, s: seq<bool>)
    requires Packed(bytes, s, |s|)
    ensures bytes == Pack(s)
  {
    forall k | 0 <= k < |bytes| ensures bytes[k] == Pack(s)[k] {
      forall j | 0 <= j < 8 ensures BitsOf(bytes[k])[j] == BitsOf(ByteAt(s, 8 * k))[j] {}
      SameBits(bytes[k], ByteAt(s, 8 * k));
      PackAt(s, k);
    }
  }

  /** Packs bits into bytes in big endian, by setting bits of a zeroed array. */
  method PackBytes(s: seq<bool>) returns (r: seq<Byte>)
    requires |s| % 8 == 0
    ensures r == Pack(s)
  {
    var codewords := new Byte[|s| / 8](_ => ZERO);
    for i := 0 to |s|
      invariant Packed(codewords[..], s, i)
    {
      PackedStep(codewords[..], s, i);
      codewords[i / 8] := OrBit(codewords[i / 8], i % 8, s[i]);
    }
    PackedAll(codewords[..], s);
    return codewords[..];
  }
}

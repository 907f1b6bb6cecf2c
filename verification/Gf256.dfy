/**
 The field GF(2^8) modulo x^8 + x^4 + x^3 + x^2 + 1 (0x11D) in which the QR
 encoder computes its error correction codewords.

 A byte is its eight bits, so exclusive ors, shifts and bit tests are
 statements about booleans. `Mul` is the product of
 two polynomials reduced term by term; `Multiply` is the Russian peasant loop
 of the encoder, proved to compute it.
 */
module Gf256 {
  import opened Fields
  import opened Bits

  const ONE: Byte := Byte(false, false, false, false, false, false, false, true)
  const TWO: Byte := Byte(false, false, false, false, false, false, true, false)

  function Xor(x: Byte, y: Byte): Byte {
    Byte(x.b7 != y.b7, x.b6 != y.b6, x.b5 != y.b5, x.b4 != y.b4,
         x.b3 != y.b3, x.b2 != y.b2, x.b1 != y.b1, x.b0 != y.b0)
  }

  /** Multiplication by the indeterminate x: a shift, reduced by 0x11D when a bit falls out. */
  function Xtime(a: Byte): Byte {
    Byte(a.b6, a.b5, a.b4, a.b3 != a.b7, a.b2 != a.b7, a.b1 != a.b7, a.b0, a.b7)
  }

  /** `bit * x`, for a bit that is 0 or 1. */
  function Scale(bit: bool, x: Byte): Byte {
    if bit then x else ZERO
  }

  /** The bits of a byte, least significant first. */
  function LowFirst(y: Byte): (s: seq<bool>)
    ensures |s| == 8
  {
    [y.b0, y.b1, y.b2, y.b3, y.b4, y.b5, y.b6, y.b7]
  }

  /** The sum of `x * X^i` over the set bits i. */
  function MulBits(x: Byte, bits: seq<bool>): Byte
    decreases |bits|
  {
    if bits == [] then ZERO else Xor(Scale(bits[0], x), MulBits(Xtime(x), bits[1..]))
  }

  function Mul(x: Byte, y: Byte): Byte {
    MulBits(x, LowFirst(y))
  }

  // ---------- the additive group ----------

  lemma XorComm(x: Byte, y: Byte)
    ensures Xor(x, y) == Xor(y, x)
  {}

  lemma BitAssoc(a: bool, b: bool, c: bool)
    ensures ((a != b) != c) == (a != (b != c))
  {}

  lemma XorAssoc(x: Byte, y: Byte, z: Byte)
    ensures Xor(Xor(x, y), z) == Xor(x, Xor(y, z))
  {
    BitAssoc(x.b7, y.b7, z.b7);
    BitAssoc(x.b6, y.b6, z.b6);
    BitAssoc(x.b5, y.b5, z.b5);
    BitAssoc(x.b4, y.b4, z.b4);
    BitAssoc(x.b3, y.b3, z.b3);
    BitAssoc(x.b2, y.b2, z.b2);
    BitAssoc(x.b1, y.b1, z.b1);
    BitAssoc(x.b0, y.b0, z.b0);
  }

  lemma XorZero(x: Byte)
    ensures Xor(x, ZERO) == x && Xor(ZERO, x) == x && Xor(x, x) == ZERO
  {}

  /** (a + b) + (c + d) == (a + c) + (b + d) */
  lemma XorSwap(a: Byte, b: Byte, c: Byte, d: Byte)
    ensures Xor(Xor(a, b), Xor(c, d)) == Xor(Xor(a, c), Xor(b, d))
  {
    XorAssoc(a, b, Xor(c, d));
    XorAssoc(b, c, d);
    XorComm(b, c);
    XorAssoc(c, b, d);
    XorAssoc(a, c, Xor(b, d));
  }

  lemma XtimeXor(x: Byte, y: Byte)
    ensures Xtime(Xor(x, y)) == Xor(Xtime(x), Xtime(y))
  {}

  lemma ScaleXor(bit: bool, x: Byte, y: Byte)
    ensures Scale(bit, Xor(x, y)) == Xor(Scale(bit, x), Scale(bit, y))
  {}

  lemma ScaleXtime(bit: bool, x: Byte)
    ensures Scale(bit, Xtime(x)) == Xtime(Scale(bit, x))
  {}

  // ---------- linearity of MulBits ----------

  lemma {:induction false} MulBitsXor(x: Byte, y: Byte, bits: seq<bool>)
    ensures MulBits(Xor(x, y), bits) == Xor(MulBits(x, bits), MulBits(y, bits))
    decreases |bits|
  {
    if bits != [] {
      var t := bits[1..];
      calc {
        MulBits(Xor(x, y), bits);
        Xor(Scale(bits[0], Xor(x, y)), MulBits(Xtime(Xor(x, y)), t));
        { ScaleXor(bits[0], x, y); XtimeXor(x, y); MulBitsXor(Xtime(x), Xtime(y), t); }
        Xor(Xor(Scale(bits[0], x), Scale(bits[0], y)), Xor(MulBits(Xtime(x), t), MulBits(Xtime(y), t)));
        { XorSwap(Scale(bits[0], x), Scale(bits[0], y), MulBits(Xtime(x), t), MulBits(Xtime(y), t)); }
        Xor(MulBits(x, bits), MulBits(y, bits));
      }
    }
  }

  lemma {:induction false} MulBitsXtime(x: Byte, bits: seq<bool>)
    ensures MulBits(Xtime(x), bits) == Xtime(MulBits(x, bits))
    decreases |bits|
  {
    if bits != [] {
      var t := bits[1..];
      calc {
        MulBits(Xtime(x), bits);
        Xor(Scale(bits[0], Xtime(x)), MulBits(Xtime(Xtime(x)), t));
        { ScaleXtime(bits[0], x); MulBitsXtime(Xtime(x), t); }
        Xor(Xtime(Scale(bits[0], x)), Xtime(MulBits(Xtime(x), t)));
        { XtimeXor(Scale(bits[0], x), MulBits(Xtime(x), t)); }
        Xtime(MulBits(x, bits));
      }
    }
  }

  lemma {:induction false} MulBitsZero(bits: seq<bool>)
    ensures MulBits(ZERO, bits) == ZERO
    decreases |bits|
  {
    if bits != [] {
      assert Xtime(ZERO) == ZERO;
      MulBitsZero(bits[1..]);
    }
  }

  lemma {:induction false} MulBitsScale(bit: bool, x: Byte, bits: seq<bool>)
    ensures MulBits(Scale(bit, x), bits) == Scale(bit, MulBits(x, bits))
  {
    MulBitsZero(bits);
  }

  /** The two bit strings of a triple product may be exchanged. */
  lemma {:induction false} MulBitsExchange(u: Byte, s: seq<bool>, t: seq<bool>)
    ensures MulBits(MulBits(u, s), t) == MulBits(MulBits(u, t), s)
    decreases |s|
  {
    if s == [] {
      MulBitsZero(t);
    } else {
      var r := s[1..];
      calc {
        MulBits(MulBits(u, s), t);
        MulBits(Xor(Scale(s[0], u), MulBits(Xtime(u), r)), t);
        { MulBitsXor(Scale(s[0], u), MulBits(Xtime(u), r), t); }
        Xor(MulBits(Scale(s[0], u), t), MulBits(MulBits(Xtime(u), r), t));
        { MulBitsScale(s[0], u, t); MulBitsExchange(Xtime(u), r, t); MulBitsXtime(u, t); }
        Xor(Scale(s[0], MulBits(u, t)), MulBits(Xtime(MulBits(u, t)), r));
        MulBits(MulBits(u, t), s);
      }
    }
  }

  // ---------- the ring laws ----------

  predicate At(s: seq<bool>, i: nat) {
    i < |s| && s[i]
  }

  /** The byte with the given bits, least significant first. */
  function FromBits(s: seq<bool>): Byte {
    Byte(At(s, 7), At(s, 6), At(s, 5), At(s, 4), At(s, 3), At(s, 2), At(s, 1), At(s, 0))
  }

  lemma FromLowFirst(y: Byte)
    ensures FromBits(LowFirst(y)) == y
  {}

  lemma FromBitsPush(s: seq<bool>)
    requires 0 < |s| <= 8
    ensures FromBits(s) == Xor(Scale(s[0], ONE), Xtime(FromBits(s[1..])))
  {
    var t := s[1..];
    assert forall i: nat :: At(t, i) == At(s, i + 1);
  }

  lemma {:induction false} MulBitsOne(s: seq<bool>)
    requires |s| <= 8
    ensures MulBits(ONE, s) == FromBits(s)
    decreases |s|
  {
    if s != [] {
      MulBitsOne(s[1..]);
      MulBitsXtime(ONE, s[1..]);
      FromBitsPush(s);
    }
  }

  lemma MulOneLeft(y: Byte)
    ensures Mul(ONE, y) == y
  {
    MulBitsOne(LowFirst(y));
    FromLowFirst(y);
  }

  lemma MulComm(x: Byte, y: Byte)
    ensures Mul(x, y) == Mul(y, x)
  {
    MulOneLeft(x);
    MulOneLeft(y);
    MulBitsExchange(ONE, LowFirst(x), LowFirst(y));
  }

  lemma MulAssoc(x: Byte, y: Byte, z: Byte)
    ensures Mul(Mul(x, y), z) == Mul(x, Mul(y, z))
  {
    calc {
      Mul(Mul(x, y), z);
      { MulComm(x, y); }
      Mul(Mul(y, x), z);
      { MulBitsExchange(y, LowFirst(x), LowFirst(z)); }
      Mul(Mul(y, z), x);
      { MulComm(Mul(y, z), x); }
      Mul(x, Mul(y, z));
    }
  }

  lemma MulXorLeft(x: Byte, y: Byte, z: Byte)
    ensures Mul(Xor(x, y), z) == Xor(Mul(x, z), Mul(y, z))
  {
    MulBitsXor(x, y, LowFirst(z));
  }

  lemma MulZero(x: Byte)
    ensures Mul(x, ZERO) == ZERO && Mul(ZERO, x) == ZERO
  {
    MulBitsZero(LowFirst(x));
    MulComm(x, ZERO);
  }

  lemma MulOne(x: Byte)
    ensures Mul(x, ONE) == x && Mul(ONE, x) == x
  {
    MulOneLeft(x);
    MulComm(x, ONE);
  }

  lemma MulXtime(x: Byte, y: Byte)
    ensures Mul(Xtime(x), y) == Xtime(Mul(x, y))
  {
    MulBitsXtime(x, LowFirst(y));
  }

  lemma MulTwo(x: Byte)
    ensures Mul(x, TWO) == Xtime(x)
  {
    MulComm(x, TWO);
    assert Xtime(ONE) == TWO;
    MulXtime(ONE, x);
    MulOneLeft(x);
  }

  // ---------- the Russian peasant loop ----------

  function BitAt(y: Byte, i: nat): bool
    requires i < 8
  {
    LowFirst(y)[i]
  }

  lemma ShiftAndReduce(z: Byte)
    ensures Xor(Byte(z.b6, z.b5, z.b4, z.b3, z.b2, z.b1, z.b0, false),
                Scale(z.b7, Byte(false, false, false, true, true, true, false, true))) == Xtime(z)
  {}

  lemma PeasantStep(x: Byte, s: seq<bool>, i: nat)
    requires i < |s|
    ensures MulBits(x, s[i..]) == Xor(Xtime(MulBits(x, s[i + 1..])), Scale(s[i], x))
  {
    assert s[i..][1..] == s[i + 1..];
    MulBitsXtime(x, s[i + 1..]);
    XorComm(Scale(s[i], x), MulBits(Xtime(x), s[i + 1..]));
  }

  /**
   The encoder's multiplication: from the top bit of `y` down, the accumulator
   is shifted and reduced by 0x11D, then `x` is added where the bit is set. Bit
   8 of the shifted accumulator is bit 7 of the accumulator, and bit 8 of 0x11D
   is set, so `ninth` stays clear and the assertion never fails.
   */
  method Multiply(x: Byte, y: Byte) returns (z: Byte, ninth: bool)
    ensures z == Mul(x, y) && !ninth
  {
    z, ninth := ZERO, false;
    ghost var s := LowFirst(y);
    var i := 8;
    while i > 0
      invariant 0 <= i <= 8
      invariant z == MulBits(x, s[i..]) && !ninth
    {
      i := i - 1;
      PeasantStep(x, s, i);
      ShiftAndReduce(z);
      var high, shifted := z.b7, Byte(z.b6, z.b5, z.b4, z.b3, z.b2, z.b1, z.b0, false);
      ninth := z.b7 != high;
      z := Xor(shifted, Scale(high, Byte(false, false, false, true, true, true, false, true)));
      z := Xor(z, Scale(BitAt(y, i), x));
    }
    assert s[0..] == s;
  }

  // ---------- 0x02 generates the field ----------

  const GF: Field<Byte> := Field(ZERO, ONE, Xor, Mul)

  /** 0x1D: what is left of 0x11D when the bit that falls out is taken away. */
  const REDUCTION: Byte := Byte(false, false, false, true, true, true, false, true)

  function Shifted(x: Byte): Byte {
    Byte(x.b6, x.b5, x.b4, x.b3, x.b2, x.b1, x.b0, false)
  }

  lemma ShiftedWeight(x: Byte)
    ensures Weight(Shifted(x)) == 2 * Weight(x) - 256 * Digit(x.b7)
  {}

  lemma ReducedShift(x: Byte)
    ensures if x.b7 then Xor(Xtime(x), REDUCTION) == Shifted(x) else Xtime(x) == Shifted(x)
  {}

  lemma TopBit(x: Byte)
    ensures Weight(x) >= 128 <==> x.b7
  {}

  /** Multiplying by 2 doubles a byte; where a bit falls out, 0x1D is added. With the ring laws this settles every product. */
  lemma TwiceOf(x: Byte)
    ensures Value(REDUCTION) == 0x1D
    ensures Value(x) < 128 ==> Value(Mul(x, TWO)) == 2 * Value(x)
    ensures Value(x) >= 128 ==> Value(Xor(Mul(x, TWO), REDUCTION)) == 2 * Value(x) - 256
  {
    MulTwo(x);
    ReducedShift(x);
    ShiftedWeight(x);
    TopBit(x);
    ValueIsWeight(REDUCTION);
    ValueIsWeight(x);
    ValueIsWeight(Mul(x, TWO));
    ValueIsWeight(Xor(Mul(x, TWO), REDUCTION));
  }

  lemma GfRingLaws()
    ensures RingLaws(GF)
  {
    forall x, y, z ensures RingLawsOn(GF, x, y, z) {
      XorComm(x, y);
      XorAssoc(x, y, z);
      XorZero(x);
      MulComm(x, y);
      MulAssoc(x, y, z);
      MulOne(x);
      MulXorLeft(x, y, z);
    }
  }

  lemma ValueIsCode()
    ensures Codes(Value, 256)
  {
    forall x, y | Value(x) == Value(y) ensures x == y {
      ValueInjective(x, y);
    }
  }

  lemma PowStep(n: nat, v: Byte)
    requires Pow(GF, TWO, n) == v
    ensures Pow(GF, TWO, n + 1) == Xtime(v)
  {
    MulTwo(v);
  }

  lemma PowSum(m: nat, n: nat, v: Byte, w: Byte)
    requires Pow(GF, TWO, m) == v && Pow(GF, TWO, n) == w
    ensures Pow(GF, TWO, m + n) == Mul(v, w)
  {
    GfRingLaws();
    PowAdd(GF, TWO, m, n);
  }

  const P5: Byte := Byte(false, false, true, false, false, false, false, false)
  const P10: Byte := Byte(false, true, true, true, false, true, false, false)
  const P15: Byte := Byte(false, false, true, false, false, true, true, false)
  const P30: Byte := Byte(false, true, true, false, false, false, false, false)
  const P60: Byte := Byte(true, false, true, true, true, false, false, true)
  const P120: Byte := Byte(false, false, true, true, true, false, true, true)
  const P240: Byte := Byte(false, false, true, false, true, true, false, false)
  const P25: Byte := Byte(false, false, false, false, false, false, true, true)
  const P50: Byte := Byte(false, false, false, false, false, true, false, true)
  const P51: Byte := Byte(false, false, false, false, true, false, true, false)
  const P85: Byte := Byte(true, true, false, true, false, true, true, false)

  lemma Power5()
    ensures Pow(GF, TWO, 5) == P5
  {
    PowStep(0, Byte(false, false, false, false, false, false, false, true));
    PowStep(1, Byte(false, false, false, false, false, false, true, false));
    PowStep(2, Byte(false, false, false, false, false, true, false, false));
    PowStep(3, Byte(false, false, false, false, true, false, false, false));
    PowStep(4, Byte(false, false, false, true, false, false, false, false));
  }

  lemma Power10()
    ensures Pow(GF, TWO, 10) == P10
  {
    Power5();
    PowSum(5, 5, P5, P5);
    assert Mul(P5, P5) == P10;
  }

  lemma Power15()
    ensures Pow(GF, TWO, 15) == P15
  {
    Power10();
    Power5();
    PowSum(10, 5, P10, P5);
    assert Mul(P10, P5) == P15;
  }

  lemma Power30()
    ensures Pow(GF, TWO, 30) == P30
  {
    Power15();
    PowSum(15, 15, P15, P15);
    assert Mul(P15, P15) == P30;
  }

  lemma Power60()
    ensures Pow(GF, TWO, 60) == P60
  {
    Power30();
    PowSum(30, 30, P30, P30);
    assert Mul(P30, P30) == P60;
  }

  lemma Power120()
    ensures Pow(GF, TWO, 120) == P120
  {
    Power60();
    PowSum(60, 60, P60, P60);
    assert Mul(P60, P60) == P120;
  }

  lemma Power240()
    ensures Pow(GF, TWO, 240) == P240
  {
    Power120();
    PowSum(120, 120, P120, P120);
    assert Mul(P120, P120) == P240;
  }

  lemma Power25()
    ensures Pow(GF, TWO, 25) == P25
  {
    Power15();
    Power10();
    PowSum(15, 10, P15, P10);
    assert Mul(P15, P10) == P25;
  }

  lemma Power50()
    ensures Pow(GF, TWO, 50) == P50
  {
    Power25();
    PowSum(25, 25, P25, P25);
    assert Mul(P25, P25) == P50;
  }

  lemma Power51()
    ensures Pow(GF, TWO, 51) == P51
  {
    Power50();
    PowStep(50, Byte(false, false, false, false, false, true, false, true));
  }

  lemma Power85()
    ensures Pow(GF, TWO, 85) == P85
  {
    Power60();
    Power25();
    PowSum(60, 25, P60, P25);
    assert Mul(P60, P25) == P85;
  }

  lemma GeneratorOrder()
    ensures HasOrder255(GF, TWO)
  {
    Power15();
    Power51();
    Power85();
    Power240();
    PowSum(240, 15, P240, P15);
    assert Mul(P240, P15) == ONE;
  }

  /** GF(2^8) modulo 0x11D is a field whose nonzero elements are the powers of 0x02. */
  lemma GfIsField()
    ensures Laws(GF)
    ensures Independent(GF, TWO, 255)
  {
    GfRingLaws();
    GeneratorOrder();
    ValueIsCode();
    OrderMakesField(GF, TWO, Value);
  }
}

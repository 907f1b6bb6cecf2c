/**
 The error correction codewords of the QR encoder: the divisor computed in
 place, the remainder computed by a shift register, and what the two promise.
 */
module ReedSolomon {
  import opened Fields
  import opened Polynomials
  import opened Distance
  import opened Results
  import Bits
  import Gf256

  // ---------- the divisor ----------

  /** One round of the in-place loop: every cell times the root, plus its right neighbour. */
  function Round<F>(f: Field<F>, p: seq<F>, root: F): (s: seq<F>)
    ensures |s| == |p|
    ensures forall j :: 0 <= j < |p| ==> s[j] == RoundCell(f, p, root, j)
  {
    seq(|p|, j requires 0 <= j < |p| => RoundCell(f, p, root, j))
  }

  function RoundCell<F>(f: Field<F>, p: seq<F>, root: F, j: int): F
    requires 0 <= j < |p|
  {
    if j + 1 < |p| then f.add(f.mul(p[j], root), p[j + 1]) else f.mul(p[j], root)
  }

  /** The last d coefficients of p, which is taken to begin with zeros. */
  function Last<F>(f: Field<F>, d: nat, p: seq<F>): (s: seq<F>)
    ensures |s| == d
    ensures forall j :: 0 <= j < d ==> s[j] == Coefficient(f, p, j + |p| - d)
  {
    seq(d, j requires 0 <= j < d => Coefficient(f, p, j + |p| - d))
  }

  function Coefficient<F>(f: Field<F>, p: seq<F>, k: int): F {
    if 0 <= k < |p| then p[k] else f.zero
  }

  lemma TimesLinearAt<F(!new)>(f: Field<F>, p: seq<F>, c: F, k: int)
    requires RingLaws(f) && k <= |p|
    ensures Coefficient(f, TimesLinear(f, p, c), k) == f.add(Coefficient(f, p, k), f.mul(c, Coefficient(f, p, k - 1)))
  {
    MulZero(f, c);
    AddZero(f, f.zero);
    if 0 <= k {
      assert (p + [f.zero])[k] == Coefficient(f, p, k);
      assert ([f.zero] + Times(f, c, p))[k] == f.mul(c, Coefficient(f, p, k - 1));
    }
  }

  /** A round turns the last d coefficients of p into those of p * (x - c). */
  lemma RoundAdvances<F(!new)>(f: Field<F>, d: nat, p: seq<F>, c: F)
    requires RingLaws(f)
    ensures Round(f, Last(f, d, p), c) == Last(f, d, TimesLinear(f, p, c))
  {
    var w := Last(f, d, p);
    forall j | 0 <= j < d ensures RoundCell(f, w, c, j) == Last(f, d, TimesLinear(f, p, c))[j] {
      var k := j + 1 + |p| - d;
      var here, next := f.mul(Coefficient(f, p, k - 1), c), Coefficient(f, p, k);
      TimesLinearAt(f, p, c, k);
      MulComm(f, c, Coefficient(f, p, k - 1));
      AddComm(f, here, next);
      AddZero(f, here);
    }
  }

  /** The inner loop: multiplies the product in place by (x - root), dropping the top coefficient. */
  method MultiplyInPlace<F>(f: Field<F>, result: array<F>, root: F)
    modifies result
    ensures result[..] == Round(f, old(result[..]), root)
  {
    ghost var before := result[..];
    for j := 0 to result.Length
      invariant forall k :: 0 <= k < j ==> result[k] == RoundCell(f, before, root, k)
      invariant forall k :: j <= k < result.Length ==> result[k] == before[k]
    {
      result[j] := f.mul(result[j], root);
      if j + 1 < result.Length {
        result[j] := f.add(result[j], result[j + 1]);
      }
    }
  }

  /**
   The coefficients of (x - g^0)...(x - g^(degree-1)) below the leading one.
   After i rounds the array holds the partial product of degree i.
   */
  method ComputeDivisor<F(!new)>(f: Field<F>, g: F, degree: int) returns (r: Result<seq<F>>)
    requires RingLaws(f)
    ensures r.Ok? <==> 1 <= degree <= 255
    ensures r.Ok? ==> [f.one] + r.value == Generator(f, g, degree)
  {
    if degree < 1 || degree > 255 {
      return Err("Degree out of range");
    }
    var result := new F[degree](_ => f.zero);
    result[result.Length - 1] := f.one;
    var root := f.one;
    assert result[..] == Last(f, degree, Generator(f, g, 0));
    for i := 0 to degree
      invariant result[..] == Last(f, degree, Generator(f, g, i))
      invariant root == Pow(f, g, i)
    {
      RoundAdvances(f, degree, Generator(f, g, i), root);
      MultiplyInPlace(f, result, root);
      root := f.mul(root, g);
    }
    DropLeading(f, g, degree);
    return Ok(result[..]);
  }

  lemma DropLeading<F(!new)>(f: Field<F>, g: F, d: nat)
    requires RingLaws(f)
    ensures [f.one] + Last(f, d, Generator(f, g, d)) == Generator(f, g, d)
  {
    GeneratorIsMonic(f, g, d);
  }

  // ---------- the remainder ----------

  /** One step of the shift register. */
  function Shift<F>(f: Field<F>, r: seq<F>, b: F, divisor: seq<F>): (s: seq<F>)
    requires |r| == |divisor| > 0
    ensures |s| == |divisor|
  {
    Plus(f, r[1..] + [f.zero], Times(f, f.add(b, r[0]), divisor))
  }

  function Remainder<F>(f: Field<F>, data: seq<F>, divisor: seq<F>): (s: seq<F>)
    requires |divisor| > 0
    ensures |s| == |divisor|
    decreases |data|
  {
    if data == [] then Zeros(f, |divisor|)
    else Shift(f, Remainder(f, data[..|data| - 1], divisor), data[|data| - 1], divisor)
  }

  lemma EvalTail<F(!new)>(f: Field<F>, r: seq<F>, x: F)
    requires RingLaws(f) && |r| > 0
    ensures Eval(f, r[1..], x) == f.add(f.mul(r[0], Pow(f, x, |r| - 1)), Eval(f, r, x))
  {
    var head, t := f.mul(r[0], Pow(f, x, |r| - 1)), Eval(f, r[1..], x);
    assert r == [r[0]] + r[1..];
    EvalConcat(f, [r[0]], r[1..], x);
    assert [] + [r[0]] == [r[0]];
    EvalSnoc(f, [], r[0], x);
    MulZero(f, x);
    AddZero(f, r[0]);
    AddAssoc(f, head, head, t);
    AddZero(f, head);
    AddZero(f, t);
  }

  /** At a root of the divisor, a step multiplies the register by x and adds b * x^d. */
  lemma EvalShifted<F(!new)>(f: Field<F>, r: seq<F>, b: F, divisor: seq<F>, x: F)
    requires RingLaws(f) && |r| == |divisor| > 0
    requires Eval(f, divisor, x) == Pow(f, x, |divisor|)
    ensures Eval(f, Shift(f, r, b, divisor), x) == f.add(f.mul(Eval(f, r, x), x), f.mul(b, Pow(f, x, |divisor|)))
  {
    var e, q, p := Eval(f, r, x), Pow(f, x, |r| - 1), Pow(f, x, |r|);
    var h := f.mul(r[0], p);
    EvalPlus(f, r[1..] + [f.zero], Times(f, f.add(b, r[0]), divisor), x);
    EvalShift(f, r[1..], x);
    EvalTail(f, r, x);
    EvalTimes(f, f.add(b, r[0]), divisor, x);
    Distrib(f, f.mul(r[0], q), e, x);
    MulAssoc(f, r[0], q, x);
    Distrib(f, b, r[0], p);
    assert Eval(f, Shift(f, r, b, divisor), x) == f.add(f.add(h, f.mul(e, x)), f.add(f.mul(b, p), h));
    AddComm(f, f.mul(b, p), h);
    AddSwap(f, h, f.mul(e, x), h, f.mul(b, p));
    AddZero(f, h);
    AddZero(f, f.add(f.mul(e, x), f.mul(b, p)));
  }

  /** Data followed by its remainder vanishes at every root of the monic divisor. */
  lemma {:induction false} RemainderVanishes<F(!new)>(f: Field<F>, data: seq<F>, divisor: seq<F>, x: F)
    requires RingLaws(f) && |divisor| > 0
    requires Eval(f, [f.one] + divisor, x) == f.zero
    ensures Eval(f, data + Remainder(f, data, divisor), x) == f.zero
    decreases |data|
  {
    var p := Pow(f, x, |divisor|);
    EvalMonic(f, divisor, x);
    AddCancel(f, p, Eval(f, divisor, x));
    EvalConcat(f, data, Remainder(f, data, divisor), x);
    if data == [] {
      EvalZeros(f, |divisor|, x);
      MulZero(f, p);
      AddZero(f, f.zero);
    } else {
      var init, b := data[..|data| - 1], data[|data| - 1];
      var r := Remainder(f, init, divisor);
      RemainderVanishes(f, init, divisor, x);
      EvalConcat(f, init, r, x);
      AddCancel(f, f.mul(Eval(f, init, x), p), Eval(f, r, x));
      EvalShifted(f, r, b, divisor, x);
      SameHorner(f, Eval(f, init, x), b, x, p);
    }
  }

  /** ((e * x) + b) * p == ((e * p) * x) + (b * p), so the two cancel. */
  lemma SameHorner<F(!new)>(f: Field<F>, e: F, b: F, x: F, p: F)
    requires RingLaws(f)
    ensures f.add(f.mul(f.add(f.mul(e, x), b), p), f.add(f.mul(f.mul(e, p), x), f.mul(b, p))) == f.zero
  {
    Distrib(f, f.mul(e, x), b, p);
    MulAssoc(f, e, x, p);
    MulComm(f, x, p);
    MulAssoc(f, e, p, x);
    AddZero(f, f.add(f.mul(f.mul(e, p), x), f.mul(b, p)));
  }

  /** One step: the register is shifted and the scaled divisor added to it. */
  method ShiftRegister<F(!new)>(f: Field<F>, register: seq<F>, b: F, divisor: seq<F>) returns (result: seq<F>)
    requires RingLaws(f) && |register| == |divisor| > 0
    ensures result == Shift(f, register, b, divisor)
  {
    var factor := f.add(b, register[0]);
    result := register[1..];
    result := result + [f.zero];
    ghost var moved := result;
    for i := 0 to |result|
      invariant |result| == |divisor|
      invariant forall j :: 0 <= j < i ==> result[j] == f.add(moved[j], f.mul(factor, divisor[j]))
      invariant forall j :: i <= j < |result| ==> result[j] == moved[j]
    {
      MulComm(f, divisor[i], factor);
      result := result[i := f.add(result[i], f.mul(divisor[i], factor))];
    }
  }

  /** The shift register over all data. An empty divisor makes the first access throw, unless there is no data. */
  method ComputeRemainder<F(!new)>(f: Field<F>, data: seq<F>, divisor: seq<F>) returns (r: Result<seq<F>>)
    requires RingLaws(f)
    ensures r.Ok? <==> divisor != [] || data == []
    ensures r.Ok? ==> r.value == if divisor == [] then [] else Remainder(f, data, divisor)
  {
    var result := seq(|divisor|, _ => f.zero);
    if divisor == [] {
      return if data == [] then Ok(result) else Err("out of range");
    }
    for k := 0 to |data|
      invariant |result| == |divisor|
      invariant result == Remainder(f, data[..k], divisor)
    {
      assert data[..k + 1][..k] == data[..k];
      result := ShiftRegister(f, result, data[k], divisor);
    }
    assert data[..|data|] == data;
    return Ok(result);
  }

  // ---------- what the code promises ----------

  /** The error correction codewords of a block of data, of degree d. */
  function Ecc<F>(f: Field<F>, g: F, d: nat, data: seq<F>): (s: seq<F>)
    requires d > 0
    ensures |s| == d
  {
    Remainder(f, data, Generator(f, g, d)[1..])
  }

  /** Every block followed by its error correction codewords vanishes at g^0, ..., g^(d-1). */
  lemma BlockVanishes<F(!new)>(f: Field<F>, g: F, d: nat, data: seq<F>)
    requires Laws(f) && d > 0
    ensures Vanishes(f, g, d, data + Ecc(f, g, d, data))
  {
    GeneratorIsMonic(f, g, d);
    assert [f.one] + Generator(f, g, d)[1..] == Generator(f, g, d);
    forall j: nat | j < d ensures Eval(f, data + Ecc(f, g, d, data), Pow(f, g, j)) == f.zero {
      assert Powers(f, g, d)[j] == Pow(f, g, j);
      GeneratorRoots(f, g, d, Pow(f, g, j));
      RemainderVanishes(f, data, Generator(f, g, d)[1..], Pow(f, g, j));
    }
  }

  /** Two different blocks of one length differ, with their codewords, in more than d places. */
  lemma BlocksFarApart<F(!new)>(f: Field<F>, g: F, n: nat, d: nat, u: seq<F>, v: seq<F>)
    requires Laws(f) && Independent(f, g, n) && d > 0
    requires |u| == |v| && |u| + d <= n && u != v
    ensures |Differing(u + Ecc(f, g, d, u), v + Ecc(f, g, d, v))| > d
  {
    var a, b := u + Ecc(f, g, d, u), v + Ecc(f, g, d, v);
    assert a[..|u|] == u && b[..|u|] == v;
    BlockVanishes(f, g, d, u);
    BlockVanishes(f, g, d, v);
    MinimumDistance(f, g, n, d, a, b);
  }

  /** The error correction codewords are the only d symbols that make a block vanish at the roots. */
  lemma EccIsUnique<F(!new)>(f: Field<F>, g: F, n: nat, d: nat, u: seq<F>, e: seq<F>)
    requires Laws(f) && Independent(f, g, n) && d > 0
    requires |u| + d <= n && |e| == d && Vanishes(f, g, d, u + e)
    ensures e == Ecc(f, g, d, u)
  {
    var a, b := u + e, u + Ecc(f, g, d, u);
    BlockVanishes(f, g, d, u);
    if a != b {
      MinimumDistance(f, g, n, d, a, b);
      DifferInTail(u, e, Ecc(f, g, d, u));
    }
    assert e == a[|u|..] && Ecc(f, g, d, u) == b[|u|..];
  }

  ghost function Range(lo: int, n: nat): (s: set<int>)
    ensures |s| == n && forall i :: i in s <==> lo <= i < lo + n
  {
    if n == 0 then {} else Range(lo, n - 1) + {lo + n - 1}
  }

  lemma SubsetCard<T>(a: set<T>, b: set<T>)
    requires a <= b
    ensures |a| <= |b|
  {
    assert |b - a| == |b| - |a|;
  }

  lemma DifferInTail<F>(u: seq<F>, e: seq<F>, e': seq<F>)
    requires |e| == |e'|
    ensures |Differing(u + e, u + e')| <= |e|
  {
    SubsetCard(Differing(u + e, u + e'), Range(|u|, |e|));
  }

  /** The two promises at the encoder's own field, for every block of at most 255 codewords in all. */
  lemma QrBlocks(d: nat, u: seq<Bits.Byte>, v: seq<Bits.Byte>)
    requires 0 < d && |u| == |v| && |u| + d <= 255 && u != v
    ensures Vanishes(Gf256.GF, Gf256.TWO, d, u + Ecc(Gf256.GF, Gf256.TWO, d, u))
    ensures |Differing(u + Ecc(Gf256.GF, Gf256.TWO, d, u), v + Ecc(Gf256.GF, Gf256.TWO, d, v))| >= d + 1
  {
    Gf256.GfIsField();
    BlockVanishes(Gf256.GF, Gf256.TWO, d, u);
    BlocksFarApart(Gf256.GF, Gf256.TWO, 255, d, u, v);
  }
}

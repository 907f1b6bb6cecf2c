/**
 Polynomials over a field of characteristic two, as coefficient sequences from
 the highest power to the lowest, and the generator polynomials
 (x - g^0)(x - g^1)...(x - g^(d-1)) of Reed-Solomon codes.
 */
module Polynomials {
  import opened Fields

  function Eval<F>(f: Field<F>, p: seq<F>, x: F): F
    decreases |p|
  {
    if p == [] then f.zero else f.add(f.mul(Eval(f, p[..|p| - 1], x), x), p[|p| - 1])
  }

  function Zeros<F>(f: Field<F>, n: nat): (s: seq<F>)
    ensures |s| == n && forall i :: 0 <= i < n ==> s[i] == f.zero
  {
    seq(n, i => f.zero)
  }

  function Plus<F>(f: Field<F>, p: seq<F>, q: seq<F>): (s: seq<F>)
    requires |p| == |q|
    ensures |s| == |p| && forall i :: 0 <= i < |p| ==> s[i] == f.add(p[i], q[i])
  {
    seq(|p|, i requires 0 <= i < |p| => f.add(p[i], q[i]))
  }

  function Times<F>(f: Field<F>, c: F, p: seq<F>): (s: seq<F>)
    ensures |s| == |p| && forall i :: 0 <= i < |p| ==> s[i] == f.mul(c, p[i])
  {
    seq(|p|, i requires 0 <= i < |p| => f.mul(c, p[i]))
  }

  lemma EvalSnoc<F>(f: Field<F>, p: seq<F>, c: F, x: F)
    ensures Eval(f, p + [c], x) == f.add(f.mul(Eval(f, p, x), x), c)
  {
    assert (p + [c])[..|p|] == p;
  }

  lemma {:induction false} EvalConcat<F(!new)>(f: Field<F>, p: seq<F>, q: seq<F>, x: F)
    requires RingLaws(f)
    ensures Eval(f, p + q, x) == f.add(f.mul(Eval(f, p, x), Pow(f, x, |q|)), Eval(f, q, x))
    decreases |q|
  {
    if q == [] {
      assert p + q == p;
      MulOne(f, Eval(f, p, x));
      AddZero(f, Eval(f, p, x));
    } else {
      var q', c := q[..|q| - 1], q[|q| - 1];
      var a, b, e := Eval(f, p, x), Eval(f, q', x), Pow(f, x, |q'|);
      assert p + q == (p + q') + [c];
      EvalSnoc(f, p + q', c, x);
      EvalConcat(f, p, q', x);
      Distrib(f, f.mul(a, e), b, x);
      MulAssoc(f, a, e, x);
      AddAssoc(f, f.mul(a, f.mul(e, x)), f.mul(b, x), c);
    }
  }

  lemma {:induction false} EvalZeros<F(!new)>(f: Field<F>, n: nat, x: F)
    requires RingLaws(f)
    ensures Eval(f, Zeros(f, n), x) == f.zero
  {
    if n > 0 {
      assert Zeros(f, n) == Zeros(f, n - 1) + [f.zero];
      EvalSnoc(f, Zeros(f, n - 1), f.zero, x);
      EvalZeros(f, n - 1, x);
      MulZero(f, x);
      AddZero(f, f.zero);
    }
  }

  lemma {:induction false} EvalPlus<F(!new)>(f: Field<F>, p: seq<F>, q: seq<F>, x: F)
    requires RingLaws(f) && |p| == |q|
    ensures Eval(f, Plus(f, p, q), x) == f.add(Eval(f, p, x), Eval(f, q, x))
    decreases |p|
  {
    if p == [] {
      AddZero(f, f.zero);
    } else {
      var n := |p| - 1;
      var a, b := Eval(f, p[..n], x), Eval(f, q[..n], x);
      assert Plus(f, p, q) == Plus(f, p[..n], q[..n]) + [f.add(p[n], q[n])];
      EvalSnoc(f, Plus(f, p[..n], q[..n]), f.add(p[n], q[n]), x);
      EvalPlus(f, p[..n], q[..n], x);
      Distrib(f, a, b, x);
      AddSwap(f, f.mul(a, x), f.mul(b, x), p[n], q[n]);
    }
  }

  lemma {:induction false} EvalTimes<F(!new)>(f: Field<F>, c: F, p: seq<F>, x: F)
    requires RingLaws(f)
    ensures Eval(f, Times(f, c, p), x) == f.mul(c, Eval(f, p, x))
    decreases |p|
  {
    if p == [] {
      MulZero(f, c);
    } else {
      var n := |p| - 1;
      var a := Eval(f, p[..n], x);
      assert Times(f, c, p) == Times(f, c, p[..n]) + [f.mul(c, p[n])];
      EvalSnoc(f, Times(f, c, p[..n]), f.mul(c, p[n]), x);
      EvalTimes(f, c, p[..n], x);
      MulAssoc(f, c, a, x);
      Distrib(f, f.mul(a, x), p[n], c);
    }
  }

  lemma EvalShift<F(!new)>(f: Field<F>, p: seq<F>, x: F)
    requires RingLaws(f)
    ensures Eval(f, p + [f.zero], x) == f.mul(Eval(f, p, x), x)
    ensures Eval(f, [f.zero] + p, x) == Eval(f, p, x)
  {
    EvalSnoc(f, p, f.zero, x);
    AddZero(f, f.mul(Eval(f, p, x), x));
    EvalConcat(f, [f.zero], p, x);
    assert [f.zero] == Zeros(f, 1);
    EvalZeros(f, 1, x);
    MulZero(f, Pow(f, x, |p|));
    AddZero(f, Eval(f, p, x));
  }

  lemma EvalOne<F(!new)>(f: Field<F>, x: F)
    requires RingLaws(f)
    ensures Eval(f, [f.one], x) == f.one
  {
    assert [] + [f.one] == [f.one];
    EvalSnoc(f, [], f.one, x);
    MulZero(f, x);
    AddZero(f, f.one);
  }

  lemma EvalMonic<F(!new)>(f: Field<F>, q: seq<F>, x: F)
    requires RingLaws(f)
    ensures Eval(f, [f.one] + q, x) == f.add(Pow(f, x, |q|), Eval(f, q, x))
  {
    EvalConcat(f, [f.one], q, x);
    EvalOne(f, x);
    MulOne(f, Pow(f, x, |q|));
  }

  // ---------- generator polynomials ----------

  /** The product p * (x + c). */
  function TimesLinear<F>(f: Field<F>, p: seq<F>, c: F): (s: seq<F>)
    ensures |s| == |p| + 1
  {
    Plus(f, p + [f.zero], [f.zero] + Times(f, c, p))
  }

  lemma EvalTimesLinear<F(!new)>(f: Field<F>, p: seq<F>, c: F, x: F)
    requires RingLaws(f)
    ensures Eval(f, TimesLinear(f, p, c), x) == f.mul(Eval(f, p, x), f.add(x, c))
  {
    EvalPlus(f, p + [f.zero], [f.zero] + Times(f, c, p), x);
    EvalShift(f, p, x);
    EvalShift(f, Times(f, c, p), x);
    EvalTimes(f, c, p, x);
    MulComm(f, c, Eval(f, p, x));
    Distrib(f, x, c, Eval(f, p, x));
  }

  /** (x - g^0)(x - g^1)...(x - g^(d-1)), with its leading coefficient. */
  function Generator<F>(f: Field<F>, g: F, d: nat): (s: seq<F>)
    ensures |s| == d + 1
  {
    if d == 0 then [f.one] else TimesLinear(f, Generator(f, g, d - 1), Pow(f, g, d - 1))
  }

  lemma {:induction false} GeneratorIsMonic<F(!new)>(f: Field<F>, g: F, d: nat)
    requires RingLaws(f)
    ensures Generator(f, g, d)[0] == f.one
  {
    if d > 0 {
      GeneratorIsMonic(f, g, d - 1);
      AddZero(f, f.one);
    }
  }

  /** g^0, ..., g^(d-1). */
  function Powers<F>(f: Field<F>, g: F, d: nat): (s: seq<F>)
    ensures |s| == d && forall i: nat :: i < d ==> s[i] == Pow(f, g, i)
  {
    if d == 0 then [] else Powers(f, g, d - 1) + [Pow(f, g, d - 1)]
  }

  lemma LinearFactor<F(!new)>(f: Field<F>, e: F, x: F, c: F)
    requires Laws(f)
    ensures f.mul(e, f.add(x, c)) == f.zero <==> e == f.zero || x == c
  {
    AddCancel(f, x, c);
    assert On(e, f.add(x, c), f.add(x, c));
    MulZero(f, e);
    MulZero(f, f.add(x, c));
  }

  /** The roots of the generator polynomial are exactly g^0, ..., g^(d-1). */
  lemma {:induction false} GeneratorRoots<F(!new)>(f: Field<F>, g: F, d: nat, x: F)
    requires Laws(f)
    ensures Eval(f, Generator(f, g, d), x) == f.zero <==> x in Powers(f, g, d)
  {
    if d == 0 {
      EvalOne(f, x);
    } else {
      GeneratorRoots(f, g, d - 1, x);
      EvalTimesLinear(f, Generator(f, g, d - 1), Pow(f, g, d - 1), x);
      LinearFactor(f, Eval(f, Generator(f, g, d - 1), x), x, Pow(f, g, d - 1));
    }
  }
}

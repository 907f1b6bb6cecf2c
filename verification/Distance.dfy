/**
 The minimum distance of a Reed-Solomon code: two different sequences that both
 vanish at g^0, ..., g^(d-1) differ in more than d places, as long as they are
 not longer than the number of distinct powers of g.
 */
module Distance {
  import opened Fields
  import opened Polynomials

  /** The places where two sequences of one length differ. */
  function Differing<F(==)>(u: seq<F>, v: seq<F>): set<int>
    requires |u| == |v|
  {
    set i | 0 <= i < |u| && u[i] != v[i]
  }

  ghost function Support<F>(f: Field<F>, a: seq<F>): set<int> {
    set i | 0 <= i < |a| && a[i] != f.zero
  }

  ghost predicate Distinct<F>(nodes: seq<F>) {
    forall i, j :: 0 <= i < j < |nodes| ==> nodes[i] != nodes[j]
  }

  /** The sum of a[k] * nodes[k]^j. */
  function PowerSum<F>(f: Field<F>, a: seq<F>, nodes: seq<F>, j: nat): F
    requires |a| == |nodes|
    decreases |a|
  {
    if a == [] then f.zero
    else
      var w := |a| - 1;
      f.add(PowerSum(f, a[..w], nodes[..w], j), f.mul(a[w], Pow(f, nodes[w], j)))
  }

  /** Every coefficient multiplied by its node plus c: this removes the node c. */
  function Weighted<F>(f: Field<F>, a: seq<F>, nodes: seq<F>, c: F): (b: seq<F>)
    requires |a| == |nodes|
    ensures |b| == |a| && forall k :: 0 <= k < |a| ==> b[k] == f.mul(a[k], f.add(nodes[k], c))
  {
    seq(|a|, k requires 0 <= k < |a| => f.mul(a[k], f.add(nodes[k], c)))
  }

  lemma WeightedTerm<F(!new)>(f: Field<F>, a: F, x: F, c: F, j: nat)
    requires RingLaws(f)
    ensures f.mul(f.mul(a, f.add(x, c)), Pow(f, x, j))
         == f.add(f.mul(a, Pow(f, x, j + 1)), f.mul(c, f.mul(a, Pow(f, x, j))))
  {
    var p := Pow(f, x, j);
    calc {
      f.mul(f.mul(a, f.add(x, c)), p);
      { Distrib(f, x, c, a); }
      f.mul(f.add(f.mul(a, x), f.mul(a, c)), p);
      { Distrib(f, f.mul(a, x), f.mul(a, c), p); }
      f.add(f.mul(f.mul(a, x), p), f.mul(f.mul(a, c), p));
      { MulAssoc(f, a, x, p); MulComm(f, x, p); MulComm(f, a, c); MulAssoc(f, c, a, p); }
      f.add(f.mul(a, Pow(f, x, j + 1)), f.mul(c, f.mul(a, p)));
    }
  }

  lemma {:induction false} WeightedSum<F(!new)>(f: Field<F>, a: seq<F>, nodes: seq<F>, c: F, j: nat)
    requires RingLaws(f) && |a| == |nodes|
    ensures PowerSum(f, Weighted(f, a, nodes, c), nodes, j)
         == f.add(PowerSum(f, a, nodes, j + 1), f.mul(c, PowerSum(f, a, nodes, j)))
    decreases |a|
  {
    if a == [] {
      MulZero(f, c);
      AddZero(f, f.zero);
    } else {
      var w := |a| - 1;
      var s, t := PowerSum(f, a[..w], nodes[..w], j + 1), PowerSum(f, a[..w], nodes[..w], j);
      var p, q := f.mul(a[w], Pow(f, nodes[w], j + 1)), f.mul(a[w], Pow(f, nodes[w], j));
      assert Weighted(f, a, nodes, c)[..w] == Weighted(f, a[..w], nodes[..w], c);
      WeightedSum(f, a[..w], nodes[..w], c, j);
      WeightedTerm(f, a[w], nodes[w], c, j);
      AddSwap(f, s, f.mul(c, t), p, f.mul(c, q));
      Distrib(f, t, q, c);
    }
  }

  lemma {:induction false} ZeroSum<F(!new)>(f: Field<F>, a: seq<F>, nodes: seq<F>, j: nat)
    requires RingLaws(f) && |a| == |nodes| && Support(f, a) == {}
    ensures PowerSum(f, a, nodes, j) == f.zero
    decreases |a|
  {
    if a != [] {
      var w := |a| - 1;
      assert a[w] == f.zero by { assert w !in Support(f, a); }
      assert Support(f, a[..w]) <= Support(f, a);
      ZeroSum(f, a[..w], nodes[..w], j);
      MulZero(f, Pow(f, nodes[w], j));
      AddZero(f, f.zero);
    }
  }

  /** With a single nonzero coefficient, the sum of the coefficients is that coefficient. */
  lemma {:induction false} SingleSum<F(!new)>(f: Field<F>, a: seq<F>, nodes: seq<F>, k: nat)
    requires RingLaws(f) && |a| == |nodes| && k < |a| && Support(f, a) <= {k}
    ensures PowerSum(f, a, nodes, 0) == a[k]
    decreases |a|
  {
    var w := |a| - 1;
    MulOne(f, a[w]);
    assert Support(f, a[..w]) <= Support(f, a);
    if k == w {
      assert Support(f, a[..w]) == {};
      ZeroSum(f, a[..w], nodes[..w], 0);
      AddZero(f, a[w]);
    } else {
      assert a[w] == f.zero by { assert w !in Support(f, a); }
      SingleSum(f, a[..w], nodes[..w], k);
      AddZero(f, a[k]);
    }
  }

  lemma WeightedSupport<F(!new)>(f: Field<F>, a: seq<F>, nodes: seq<F>, k: nat)
    requires Laws(f) && |a| == |nodes| && Distinct(nodes) && k < |a|
    ensures Support(f, Weighted(f, a, nodes, nodes[k])) == Support(f, a) - {k}
  {
    var b := Weighted(f, a, nodes, nodes[k]);
    forall i | 0 <= i < |a| ensures b[i] == f.zero <==> a[i] == f.zero || i == k {
      LinearFactor(f, a[i], nodes[i], nodes[k]);
    }
  }

  /** No nonzero vector with at most m nonzero coefficients has its first m power sums zero. */
  lemma {:induction false} Vandermonde<F(!new)>(f: Field<F>, a: seq<F>, nodes: seq<F>, m: nat)
    requires Laws(f) && |a| == |nodes| && Distinct(nodes)
    requires |Support(f, a)| <= m
    requires forall j: nat :: j < m ==> PowerSum(f, a, nodes, j) == f.zero
    ensures Support(f, a) == {}
    decreases m
  {
    if Support(f, a) != {} {
      var k :| k in Support(f, a);
      var b := Weighted(f, a, nodes, nodes[k]);
      WeightedSupport(f, a, nodes, k);
      forall j: nat | j < m - 1 ensures PowerSum(f, b, nodes, j) == f.zero {
        WeightedSum(f, a, nodes, nodes[k], j);
        MulZero(f, nodes[k]);
        AddZero(f, f.zero);
      }
      Vandermonde(f, b, nodes, m - 1);
      SingleSum(f, a, nodes, k);
    }
  }

  // ---------- values at powers of g are power sums ----------

  /** The powers of g that belong to the n coefficients of a polynomial, highest first. */
  function Nodes<F>(f: Field<F>, g: F, n: nat): (s: seq<F>)
    ensures |s| == n && forall k: nat :: k < n ==> s[k] == Pow(f, g, n - 1 - k)
  {
    seq(n, k requires 0 <= k < n => Pow(f, g, n - 1 - k))
  }

  lemma {:induction false} PowOfProduct<F(!new)>(f: Field<F>, x: F, y: F, j: nat)
    requires RingLaws(f)
    ensures Pow(f, f.mul(x, y), j) == f.mul(Pow(f, x, j), Pow(f, y, j))
  {
    if j == 0 {
      MulOne(f, f.one);
    } else {
      var p, q := Pow(f, x, j - 1), Pow(f, y, j - 1);
      PowOfProduct(f, x, y, j - 1);
      calc {
        f.mul(f.mul(p, q), f.mul(x, y));
        { MulAssoc(f, p, q, f.mul(x, y)); MulAssoc(f, q, x, y); MulComm(f, q, x); }
        f.mul(p, f.mul(f.mul(x, q), y));
        { MulAssoc(f, x, q, y); MulAssoc(f, p, x, f.mul(q, y)); }
        f.mul(f.mul(p, x), f.mul(q, y));
      }
    }
  }

  lemma {:induction false} ScaledNodes<F(!new)>(f: Field<F>, a: seq<F>, nodes: seq<F>, scaled: seq<F>, g: F, j: nat)
    requires RingLaws(f) && |a| == |nodes| == |scaled|
    requires forall k :: 0 <= k < |a| ==> scaled[k] == f.mul(nodes[k], g)
    ensures PowerSum(f, a, scaled, j) == f.mul(PowerSum(f, a, nodes, j), Pow(f, g, j))
    decreases |a|
  {
    if a == [] {
      MulZero(f, Pow(f, g, j));
    } else {
      var w := |a| - 1;
      ScaledNodes(f, a[..w], nodes[..w], scaled[..w], g, j);
      PowOfProduct(f, nodes[w], g, j);
      MulAssoc(f, a[w], Pow(f, nodes[w], j), Pow(f, g, j));
      Distrib(f, PowerSum(f, a[..w], nodes[..w], j), f.mul(a[w], Pow(f, nodes[w], j)), Pow(f, g, j));
    }
  }

  lemma {:induction false} EvalIsPowerSum<F(!new)>(f: Field<F>, g: F, p: seq<F>, j: nat)
    requires RingLaws(f)
    ensures Eval(f, p, Pow(f, g, j)) == PowerSum(f, p, Nodes(f, g, |p|), j)
    decreases |p|
  {
    if p != [] {
      var w := |p| - 1;
      EvalIsPowerSum(f, g, p[..w], j);
      forall k | 0 <= k < w ensures Nodes(f, g, w + 1)[..w][k] == f.mul(Nodes(f, g, w)[k], g) {}
      ScaledNodes(f, p[..w], Nodes(f, g, w), Nodes(f, g, w + 1)[..w], g, j);
      PowOfOne(f, j);
      MulOne(f, p[w]);
    }
  }

  // ---------- minimum distance ----------

  ghost predicate Vanishes<F>(f: Field<F>, g: F, d: nat, c: seq<F>) {
    forall j: nat :: j < d ==> Eval(f, c, Pow(f, g, j)) == f.zero
  }

  lemma DifferSomewhere<F>(u: seq<F>, v: seq<F>)
    requires |u| == |v| && u != v
    ensures Differing(u, v) != {}
  {
    var i :| 0 <= i < |u| && u[i] != v[i];
    assert i in Differing(u, v);
  }

  lemma MinimumDistance<F(!new)>(f: Field<F>, g: F, n: nat, d: nat, u: seq<F>, v: seq<F>)
    requires Laws(f) && Independent(f, g, n) && |u| == |v| <= n
    requires Vanishes(f, g, d, u) && Vanishes(f, g, d, v) && u != v
    ensures |Differing(u, v)| > d
  {
    var a, nodes := Plus(f, u, v), Nodes(f, g, |u|);
    assert Support(f, a) == Differing(u, v) by {
      forall i | 0 <= i < |u| ensures a[i] == f.zero <==> u[i] == v[i] {
        AddCancel(f, u[i], v[i]);
      }
    }
    forall j: nat | j < d ensures PowerSum(f, a, nodes, j) == f.zero {
      EvalIsPowerSum(f, g, a, j);
      EvalPlus(f, u, v, Pow(f, g, j));
      AddZero(f, f.zero);
    }
    DifferSomewhere(u, v);
    if |Support(f, a)| <= d {
      Vandermonde(f, a, nodes, d);
    }
  }
}

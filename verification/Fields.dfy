/**
 Fields of characteristic two, given by their operations.

 The theory of the Reed-Solomon code is developed over any such field and used
 at the field of 256 elements. A law applies to the elements it is told to
 apply to (`On`), never by itself.
 */
module Fields {

  datatype Field<!F> = Field(zero: F, one: F, add: (F, F) -> F, mul: (F, F) -> F)

  /** Names the elements to which the laws of a field are to be applied. */
  ghost predicate On<F>(x: F, y: F, z: F) { true }

  ghost predicate RingLawsOn<F(!new)>(f: Field<F>, x: F, y: F, z: F) {
    && f.add(x, y) == f.add(y, x)
    && f.add(f.add(x, y), z) == f.add(x, f.add(y, z))
    && f.add(x, f.zero) == x
    && f.add(x, x) == f.zero
    && f.mul(x, y) == f.mul(y, x)
    && f.mul(f.mul(x, y), z) == f.mul(x, f.mul(y, z))
    && f.mul(x, f.one) == x
    && f.mul(f.add(x, y), z) == f.add(f.mul(x, z), f.mul(y, z))
  }

  ghost predicate RingLaws<F(!new)>(f: Field<F>) {
    forall x, y, z {:trigger On(x, y, z)} :: RingLawsOn(f, x, y, z)
  }

  ghost predicate Laws<F(!new)>(f: Field<F>) {
    && RingLaws(f)
    && f.one != f.zero
    && forall x, y {:trigger On(x, y, y)} :: f.mul(x, y) == f.zero ==> x == f.zero || y == f.zero
  }

  lemma AddComm<F(!new)>(f: Field<F>, x: F, y: F)
    requires RingLaws(f)
    ensures f.add(x, y) == f.add(y, x)
  {
    assert On(x, y, y);
  }

  lemma AddAssoc<F(!new)>(f: Field<F>, x: F, y: F, z: F)
    requires RingLaws(f)
    ensures f.add(f.add(x, y), z) == f.add(x, f.add(y, z))
  {
    assert On(x, y, z);
  }

  lemma AddZero<F(!new)>(f: Field<F>, x: F)
    requires RingLaws(f)
    ensures f.add(x, f.zero) == x && f.add(f.zero, x) == x && f.add(x, x) == f.zero
  {
    assert On(x, f.zero, x);
  }

  lemma AddCancel<F(!new)>(f: Field<F>, x: F, y: F)
    requires RingLaws(f)
    ensures f.add(x, y) == f.zero <==> x == y
  {
    AddZero(f, x);
    AddZero(f, y);
    AddAssoc(f, x, y, y);
  }

  /** (a + b) + (c + d) == (a + c) + (b + d) */
  lemma AddSwap<F(!new)>(f: Field<F>, a: F, b: F, c: F, d: F)
    requires RingLaws(f)
    ensures f.add(f.add(a, b), f.add(c, d)) == f.add(f.add(a, c), f.add(b, d))
  {
    AddAssoc(f, a, b, f.add(c, d));
    AddAssoc(f, b, c, d);
    AddComm(f, b, c);
    AddAssoc(f, c, b, d);
    AddAssoc(f, a, c, f.add(b, d));
  }

  lemma MulComm<F(!new)>(f: Field<F>, x: F, y: F)
    requires RingLaws(f)
    ensures f.mul(x, y) == f.mul(y, x)
  {
    assert On(x, y, y);
  }

  lemma MulAssoc<F(!new)>(f: Field<F>, x: F, y: F, z: F)
    requires RingLaws(f)
    ensures f.mul(f.mul(x, y), z) == f.mul(x, f.mul(y, z))
  {
    assert On(x, y, z);
  }

  lemma MulOne<F(!new)>(f: Field<F>, x: F)
    requires RingLaws(f)
    ensures f.mul(x, f.one) == x && f.mul(f.one, x) == x
  {
    assert On(x, f.one, x);
  }

  lemma Distrib<F(!new)>(f: Field<F>, x: F, y: F, z: F)
    requires RingLaws(f)
    ensures f.mul(f.add(x, y), z) == f.add(f.mul(x, z), f.mul(y, z))
    ensures f.mul(z, f.add(x, y)) == f.add(f.mul(z, x), f.mul(z, y))
  {
    assert On(x, y, z);
    MulComm(f, z, f.add(x, y));
    MulComm(f, z, x);
    MulComm(f, z, y);
  }

  lemma MulZero<F(!new)>(f: Field<F>, x: F)
    requires RingLaws(f)
    ensures f.mul(x, f.zero) == f.zero && f.mul(f.zero, x) == f.zero
  {
    AddZero(f, f.zero);
    Distrib(f, f.zero, f.zero, x);
    AddZero(f, f.mul(f.zero, x));
    MulComm(f, x, f.zero);
  }

  // ---------- powers ----------

  function Pow<F>(f: Field<F>, x: F, n: nat): F {
    if n == 0 then f.one else f.mul(Pow(f, x, n - 1), x)
  }

  lemma {:induction false} PowAdd<F(!new)>(f: Field<F>, x: F, m: nat, n: nat)
    requires RingLaws(f)
    ensures Pow(f, x, m + n) == f.mul(Pow(f, x, m), Pow(f, x, n))
    decreases n
  {
    if n == 0 {
      MulOne(f, Pow(f, x, m));
    } else {
      PowAdd(f, x, m, n - 1);
      MulAssoc(f, Pow(f, x, m), Pow(f, x, n - 1), x);
      assert m + n - 1 == m + (n - 1);
    }
  }

  lemma {:induction false} PowMul<F(!new)>(f: Field<F>, x: F, m: nat, n: nat)
    requires RingLaws(f)
    ensures Pow(f, x, m * n) == Pow(f, Pow(f, x, m), n)
    decreases n
  {
    if n > 0 {
      PowMul(f, x, m, n - 1);
      assert m * n == m * (n - 1) + m;
      PowAdd(f, x, m * (n - 1), m);
    }
  }

  lemma {:induction false} PowOfOne<F(!new)>(f: Field<F>, n: nat)
    requires RingLaws(f)
    ensures Pow(f, f.one, n) == f.one
  {
    if n > 0 {
      PowOfOne(f, n - 1);
      MulOne(f, f.one);
    }
  }

  // ---------- an element of order 255 generates a field of 256 elements ----------

  /** `g` has order dividing 255 and no proper divisor of it. */
  ghost predicate HasOrder255<F(!new)>(f: Field<F>, g: F) {
    && Pow(f, g, 255) == f.one
    && Pow(f, g, 85) != f.one
    && Pow(f, g, 51) != f.one
    && Pow(f, g, 15) != f.one
  }

  lemma ProductAtLeast(m: nat, q: nat)
    requires m >= 16 && q >= 16
    ensures m * q >= 256
  {
    assert m * q >= m * 16;
  }

  lemma ProperDivisorsOf255(m: nat, q: nat)
    requires 0 < m < 255 && m * q == 255
    ensures 85 % m == 0 || 51 % m == 0 || 15 % m == 0
  {
    if m <= 15 {
      assert m == 1 || m == 2 || m == 3 || m == 4 || m == 5 || m == 6 || m == 7 || m == 8
          || m == 9 || m == 10 || m == 11 || m == 12 || m == 13 || m == 14 || m == 15;
    } else {
      if q >= 16 {
        ProductAtLeast(m, q);
      }
      assert q == 2 || q == 3 || q == 4 || q == 5 || q == 6 || q == 7 || q == 8
          || q == 9 || q == 10 || q == 11 || q == 12 || q == 13 || q == 14 || q == 15;
      assert m == 85 || m == 51 || m == 17;
    }
  }

  lemma PowOfMultiple<F(!new)>(f: Field<F>, g: F, m: nat, n: nat)
    requires RingLaws(f) && m > 0 && Pow(f, g, m) == f.one
    ensures Pow(f, g, n) == Pow(f, g, n % m)
  {
    var q := n / m;
    PowMul(f, g, m, q);
    PowOfOne(f, q);
    PowAdd(f, g, m * q, n % m);
    MulOne(f, Pow(f, g, n % m));
    assert m * q + n % m == n;
  }

  lemma {:induction false} NoSmallerOrder<F(!new)>(f: Field<F>, g: F, m: nat)
    requires RingLaws(f) && HasOrder255(f, g) && 0 < m < 255
    ensures Pow(f, g, m) != f.one
    decreases m
  {
    if Pow(f, g, m) == f.one {
      PowOfMultiple(f, g, m, 255);
      if 255 % m > 0 {
        NoSmallerOrder(f, g, 255 % m);
      } else {
        ProperDivisorsOf255(m, 255 / m);
        PowOfMultiple(f, g, m, 85);
        PowOfMultiple(f, g, m, 51);
        PowOfMultiple(f, g, m, 15);
      }
    }
  }

  /** Powers of `g` with exponents below 255 are distinct. */
  lemma PowersDistinct<F(!new)>(f: Field<F>, g: F, i: nat, j: nat)
    requires RingLaws(f) && HasOrder255(f, g) && i < j < 255
    ensures Pow(f, g, i) != Pow(f, g, j)
  {
    if Pow(f, g, i) == Pow(f, g, j) {
      PowAdd(f, g, i, 255 - i);
      PowAdd(f, g, j, 255 - i);
      PowAdd(f, g, j - i, 255);
      MulOne(f, Pow(f, g, j - i));
      assert j + (255 - i) == (j - i) + 255;
      NoSmallerOrder(f, g, j - i);
    }
  }

  lemma PowerNonZero<F(!new)>(f: Field<F>, g: F, i: nat)
    requires RingLaws(f) && HasOrder255(f, g) && f.one != f.zero && i < 255
    ensures Pow(f, g, i) != f.zero
  {
    PowAdd(f, g, i, 255 - i);
    MulZero(f, Pow(f, g, 255 - i));
  }

  // ---------- counting ----------

  ghost function Below(n: nat): (s: set<nat>)
    ensures |s| == n
    ensures forall k: nat :: k in s <==> k < n
  {
    if n == 0 then {} else Below(n - 1) + {n - 1}
  }

  lemma FullSet(s: set<nat>, n: nat)
    requires |s| == n && forall k | k in s :: k < n
    ensures forall k: nat :: k < n ==> k in s
  {
    var b := Below(n);
    assert s <= b;
    assert |b - s| == |b| - |s|;
    forall k: nat | k < n ensures k in s {
      assert k in b;
      assert k !in b - s;
    }
  }

  /** `code` numbers the elements with different numbers below `n`. */
  ghost predicate Codes<F(!new)>(code: F -> nat, n: nat) {
    && (forall x :: code(x) < n)
    && (forall x, y :: code(x) == code(y) ==> x == y)
  }

  /** The first `n` powers of `g` are nonzero and distinct. */
  ghost predicate Independent<F(!new)>(f: Field<F>, g: F, n: nat) {
    && (forall i: nat :: i < n ==> Pow(f, g, i) != f.zero)
    && (forall i: nat, j: nat :: i < j < n ==> Pow(f, g, i) != Pow(f, g, j))
  }

  ghost function PowerCodes<F(!new)>(f: Field<F>, g: F, code: F -> nat, n: nat): set<nat> {
    set i | i in Below(n) :: code(Pow(f, g, i))
  }

  lemma {:induction false} PowerCodesCard<F(!new)>(f: Field<F>, g: F, code: F -> nat, n: nat, m: nat)
    requires Independent(f, g, n) && Codes(code, n + 1) && m <= n
    ensures |PowerCodes(f, g, code, m)| == m
    decreases m
  {
    if m == 0 {
      assert PowerCodes(f, g, code, 0) == {};
    } else {
      PowerCodesCard(f, g, code, n, m - 1);
      var c := code(Pow(f, g, m - 1));
      assert PowerCodes(f, g, code, m) == PowerCodes(f, g, code, m - 1) + {c};
      assert c !in PowerCodes(f, g, code, m - 1);
    }
  }

  /** With `n` independent powers and at most `n + 1` elements, every nonzero element is a power. */
  lemma Generates<F(!new)>(f: Field<F>, g: F, code: F -> nat, n: nat, x: F) returns (i: nat)
    requires Independent(f, g, n) && Codes(code, n + 1) && x != f.zero
    ensures i < n && x == Pow(f, g, i)
  {
    var p := PowerCodes(f, g, code, n);
    PowerCodesCard(f, g, code, n, n);
    var z := code(f.zero);
    assert z !in p;
    FullSet(p + {z}, n + 1);
    assert code(x) in p;
    i :| i in Below(n) && code(x) == code(Pow(f, g, i));
  }

  lemma PowerCancels<F(!new)>(f: Field<F>, g: F, n: nat, i: nat, y: F)
    requires RingLaws(f) && Pow(f, g, n) == f.one && i <= n
    requires f.mul(Pow(f, g, i), y) == f.zero
    ensures y == f.zero
  {
    var inv := Pow(f, g, n - i);
    PowAdd(f, g, n - i, i);
    MulAssoc(f, inv, Pow(f, g, i), y);
    MulOne(f, y);
    MulZero(f, inv);
  }

  lemma NoZeroDivisors<F(!new)>(f: Field<F>, g: F, code: F -> nat, n: nat, x: F, y: F)
    requires RingLaws(f) && Independent(f, g, n) && Codes(code, n + 1) && Pow(f, g, n) == f.one
    requires f.mul(x, y) == f.zero
    ensures x == f.zero || y == f.zero
  {
    if x != f.zero {
      var i := Generates(f, g, code, n, x);
      PowerCancels(f, g, n, i, y);
    }
  }

  /** A ring of at most 256 elements with an element of order 255 is a field, generated by it. */
  lemma OrderMakesField<F(!new)>(f: Field<F>, g: F, code: F -> nat)
    requires RingLaws(f) && HasOrder255(f, g) && f.one != f.zero && Codes(code, 256)
    ensures Laws(f)
    ensures Independent(f, g, 255)
  {
    forall i: nat | i < 255 ensures Pow(f, g, i) != f.zero {
      PowerNonZero(f, g, i);
    }
    forall i: nat, j: nat | i < j < 255 ensures Pow(f, g, i) != Pow(f, g, j) {
      PowersDistinct(f, g, i, j);
    }
    forall x, y | f.mul(x, y) == f.zero ensures x == f.zero || y == f.zero {
      NoZeroDivisors(f, g, code, 255, x, y);
    }
  }
}

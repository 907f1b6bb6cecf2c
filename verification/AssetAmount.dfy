/**
 The decimal printer of asset amounts in the explorer, on integers of any size,
 and a parser that it is the inverse of.
 */
module AssetAmount {
  import opened Results

  // ---------- decimal numbers ----------

  /** A number followed by k zeros. */
  function Scaled(v: int, k: nat): (r: int)
    ensures v > 0 ==> r > 0
    ensures v == 0 ==> r == 0
  {
    if k == 0 then v else 10 * Scaled(v, k - 1)
  }

  /** 10^n */
  function Ten(n: nat): (p: nat)
    ensures p >= 1
  {
    Scaled(1, n)
  }

  lemma {:induction false} ScaledIsProduct(v: int, k: nat)
    ensures Scaled(v, k) == v * Scaled(1, k)
  {
    if k > 0 {
      ScaledIsProduct(v, k - 1);
      assert v * (10 * Scaled(1, k - 1)) == 10 * (v * Scaled(1, k - 1));
    }
  }

  predicate IsDigit(c: char) {
    '0' <= c <= '9'
  }

  function DigitOf(n: nat): (c: char)
    requires n < 10
    ensures IsDigit(c) && c as int - 48 == n
  {
    (n + 48) as char
  }

  predicate AllDigits(s: string) {
    forall i :: 0 <= i < |s| ==> IsDigit(s[i])
  }

  function Number(s: string): nat
    requires AllDigits(s)
  {
    if s == "" then 0 else 10 * Number(s[..|s| - 1]) + (s[|s| - 1] as int - 48)
  }

  function Decimal(n: nat): (s: string)
    ensures s != "" && AllDigits(s)
  {
    if n < 10 then [DigitOf(n)] else Decimal(n / 10) + [DigitOf(n % 10)]
  }

  function ToString(v: int): string {
    if v < 0 then "-" + Decimal(-v) else Decimal(v)
  }

  lemma NumberSnoc(s: string, c: char)
    requires AllDigits(s) && IsDigit(c)
    ensures AllDigits(s + [c]) && Number(s + [c]) == 10 * Number(s) + (c as int - 48)
  {
    assert (s + [c])[..|s|] == s;
  }

  lemma {:induction false} NumberDecimal(n: nat)
    ensures Number(Decimal(n)) == n
  {
    if n < 10 {
      NumberSnoc("", DigitOf(n));
      assert Decimal(n) == "" + [DigitOf(n)];
    } else {
      NumberDecimal(n / 10);
      NumberSnoc(Decimal(n / 10), DigitOf(n % 10));
    }
  }

  lemma {:induction false} DecimalLength(n: nat, p: nat)
    requires p >= 1 && n < Ten(p)
    ensures |Decimal(n)| <= p
    decreases p
  {
    if n >= 10 {
      assert p > 1;
      DecimalLength(n / 10, p - 1);
    }
  }

  // ---------- the printer ----------

  function Zeros(n: nat): (s: string)
    ensures |s| == n && forall i :: 0 <= i < n ==> s[i] == '0'
  {
    seq(n, _ => '0')
  }

  function PadStart(s: string, n: nat): string {
    if |s| >= n then s else Zeros(n - |s|) + s
  }

  /** Without its trailing zeros. */
  function StripZeros(s: string): (r: string)
    ensures |r| <= |s| && r == s[..|r|]
    ensures r != "" ==> r[|r| - 1] != '0'
  {
    if s != "" && s[|s| - 1] == '0' then StripZeros(s[..|s| - 1]) else s
  }

  /** Division and remainder that truncate toward zero. */
  function TruncDiv(a: int, b: nat): int
    requires b > 0
  {
    if a >= 0 then a / b else -((-a) / b)
  }

  function TruncMod(a: int, b: nat): int
    requires b > 0
  {
    a - b * TruncDiv(a, b)
  }

  /** The number of decimal places shown. */
  function Places(decimals: int): (p: nat)
    ensures p <= 255
  {
    if decimals < 0 then 0 else if decimals > 255 then 255 else decimals
  }

  function Fraction(raw: int, places: nat): string {
    StripZeros(PadStart(ToString(TruncMod(raw, Ten(places))), places))
  }

  /** What is printed for a whole number and a fraction. */
  function Joined(whole: string, fraction: string): string {
    whole + if fraction != "" then "." + fraction else ""
  }

  function PrintPlaces(raw: int, places: nat): string {
    if places == 0 then ToString(raw)
    else
      Joined(ToString(TruncDiv(raw, Ten(places))), Fraction(raw, places))
  }

  function AmountToString(value: int, decimals: int): string {
    PrintPlaces(value, Places(decimals))
  }

  // ---------- a parser of decimal amounts ----------

  function ParseNat(s: string): Option<nat> {
    if s == "" || !AllDigits(s) then None else Some(Number(s))
  }

  function ParseInt(s: string): Option<int> {
    if s != "" && s[0] == '-' then
      match ParseNat(s[1..])
      case None => None
      case Some(n) => Some(0 - n as int)
    else
      match ParseNat(s)
      case None => None
      case Some(n) => Some(n as int)
  }

  function DotAt(s: string): (i: nat)
    ensures i <= |s| && (i < |s| ==> s[i] == '.') && forall j :: 0 <= j < i ==> s[j] != '.'
  {
    if s == "" || s[0] == '.' then 0 else 1 + DotAt(s[1..])
  }

  /** A fraction of at most `places` digits, scaled by 10^places. */
  function ParseFraction(s: string, places: nat): Option<nat> {
    match ParseNat(s)
    case None => None
    case Some(n) => if |s| <= places then Some(Scaled(n, places - |s|)) else None
  }

  /** The number a decimal stands for, scaled by 10^places; a fraction counts away from zero. */
  function Parse(s: string, places: nat): Option<int> {
    var dot := DotAt(s);
    match ParseInt(s[..dot])
    case None => None
    case Some(whole) =>
      if dot == |s| then Some(Scaled(whole, places))
      else
        match ParseFraction(s[dot + 1..], places)
        case None => None
        case Some(f) => Some(if s[0] == '-' then Scaled(whole, places) - f else Scaled(whole, places) + f)
  }

  // ---------- the fraction ----------

  lemma {:induction false} NumberZeros(n: nat, s: string)
    requires AllDigits(s)
    ensures AllDigits(Zeros(n) + s) && Number(Zeros(n) + s) == Number(s)
    decreases |s|, n
  {
    if s != "" {
      var k := |s| - 1;
      NumberZeros(n, s[..k]);
      assert Zeros(n) + s == (Zeros(n) + s[..k]) + [s[k]];
      NumberSnoc(Zeros(n) + s[..k], s[k]);
    } else if n > 0 {
      NumberZeros(n - 1, "");
      assert Zeros(n) + "" == (Zeros(n - 1) + "") + ['0'];
      NumberSnoc(Zeros(n - 1) + "", '0');
    }
  }

  lemma {:induction false} NumberStripped(s: string)
    requires AllDigits(s)
    ensures AllDigits(StripZeros(s)) && Number(s) == Scaled(Number(StripZeros(s)), |s| - |StripZeros(s)|)
    decreases |s|
  {
    if s != "" && s[|s| - 1] == '0' {
      NumberStripped(s[..|s| - 1]);
    }
  }

  lemma PaddedFraction(m: nat, places: nat)
    requires places >= 1 && m < Ten(places)
    ensures var s := PadStart(Decimal(m), places); |s| == places && AllDigits(s) && Number(s) == m
  {
    DecimalLength(m, places);
    NumberDecimal(m);
    NumberZeros(places - |Decimal(m)|, Decimal(m));
  }

  /** Digits without their trailing zeros are shorter or as long, and none are left of zero only. */
  lemma StripReads(s: string, m: nat)
    requires AllDigits(s) && Number(s) == m
    ensures var f := StripZeros(s);
      && |f| <= |s| && (f == "" <==> m == 0)
      && (f != "" ==> ParseFraction(f, |s|) == Some(m))
  {
    NumberStripped(s);
    if StripZeros(s) != "" {
      NumberPositive(StripZeros(s));
    }
  }

  lemma NumberPositive(s: string)
    requires AllDigits(s) && s != "" && s[|s| - 1] != '0'
    ensures Number(s) > 0
  {}

  // ---------- the whole ----------

  lemma {:induction false} NoDotInDigits(s: string, rest: string)
    requires forall i :: 0 <= i < |s| ==> s[i] != '.'
    requires rest == "" || rest[0] == '.'
    ensures DotAt(s + rest) == |s|
    decreases |s|
  {
    if s == "" {
      assert s + rest == rest;
    } else {
      NoDotInDigits(s[1..], rest);
      assert (s + rest)[1..] == s[1..] + rest;
    }
  }

  lemma ParseToString(v: int)
    ensures ParseInt(ToString(v)) == Some(v)
    ensures forall i :: 0 <= i < |ToString(v)| ==> ToString(v)[i] != '.'
    ensures ToString(v) != "" && (ToString(v)[0] == '-' <==> v < 0)
  {
    if v < 0 {
      NumberDecimal(-v);
      assert ToString(v)[1..] == Decimal(-v);
    } else {
      NumberDecimal(v);
      assert IsDigit(Decimal(v)[0]);
    }
  }

  predicate Undotted(s: string) {
    s != "" && forall i :: 0 <= i < |s| ==> s[i] != '.'
  }

  lemma ParseWhole(whole: string, w: int, places: nat)
    requires Undotted(whole) && ParseInt(whole) == Some(w)
    ensures Parse(whole, places) == Some(Scaled(w, places))
  {
    NoDotInDigits(whole, "");
    assert whole + "" == whole && whole[..|whole|] == whole;
  }

  lemma DottedAt(whole: string, fraction: string)
    requires Undotted(whole)
    ensures var s := whole + ("." + fraction);
      DotAt(s) == |whole| && s[..|whole|] == whole && s[|whole| + 1..] == fraction && s[0] == whole[0]
  {
    NoDotInDigits(whole, "." + fraction);
  }

  lemma ParseDotted(whole: string, fraction: string, w: int, places: nat)
    requires Undotted(whole) && ParseInt(whole) == Some(w) && (whole[0] == '-' <==> w < 0)
    ensures var parsed, f := Parse(whole + ("." + fraction), places), ParseFraction(fraction, places);
      if f.None? then parsed.None?
      else parsed == Some(if w < 0 then Scaled(w, places) - f.value else Scaled(w, places) + f.value)
  {
    DottedAt(whole, fraction);
  }

  // ---------- the round trip ----------

  lemma Commuted(a: int, b: int)
    ensures a * b == b * a
  {}

  lemma Divided(v: nat, d: nat)
    requires d > 0
    ensures v == d * (v / d) + v % d && 0 <= v % d < d && v / d >= 0
  {}

  lemma TruncParts(v: nat, d: nat)
    requires d > 0
    ensures v == TruncDiv(v, d) * d + TruncMod(v, d) && 0 <= TruncMod(v, d) < d && TruncDiv(v, d) >= 0
  {
    Divided(v, d);
    Commuted(d, v / d);
  }

  lemma JoinedParses(whole: string, w: nat, fraction: string, m: nat, places: nat)
    requires Undotted(whole) && ParseInt(whole) == Some(w) && whole[0] != '-'
    requires fraction == "" <==> m == 0
    requires fraction != "" ==> ParseFraction(fraction, places) == Some(m)
    ensures Parse(Joined(whole, fraction), places) == Some(Scaled(w, places) + m)
  {
    if fraction == "" {
      assert Joined(whole, fraction) == whole;
      ParseWhole(whole, w, places);
    } else {
      ParseDotted(whole, fraction, w, places);
    }
  }

  lemma WholeReads(w: nat)
    ensures Undotted(ToString(w)) && ParseInt(ToString(w)) == Some(w) && ToString(w)[0] != '-'
  {
    ParseToString(w);
  }

  lemma JoinedReads(w: nat, digits: string, m: nat, places: nat)
    requires AllDigits(digits) && Number(digits) == m && |digits| == places
    ensures Parse(Joined(ToString(w), StripZeros(digits)), places) == Some(Scaled(w, places) + m)
  {
    WholeReads(w);
    StripReads(digits, m);
    JoinedParses(ToString(w), w, StripZeros(digits), m, places);
  }

  lemma ScaledParts(v: nat, places: nat, w: int, m: int)
    requires w == TruncDiv(v, Ten(places)) && m == TruncMod(v, Ten(places))
    ensures w >= 0 && 0 <= m < Ten(places) && Scaled(w, places) + m == v
  {
    TruncParts(v, Ten(places));
    ScaledIsProduct(w, places);
  }

  lemma PartsRead(w: nat, m: nat, places: nat)
    requires places >= 1 && m < Ten(places)
    ensures Parse(Joined(ToString(w), StripZeros(PadStart(ToString(m), places))), places) == Some(Scaled(w, places) + m)
  {
    PaddedFraction(m, places);
    JoinedReads(w, PadStart(ToString(m), places), m, places);
  }

  /** Every natural number reads back from what is printed of it. */
  lemma PrintReads(v: nat, places: nat)
    ensures Parse(PrintPlaces(v, places), places) == Some(v)
  {
    if places == 0 {
      WholeReads(v);
      ParseWhole(ToString(v), v, 0);
    } else {
      var w, m := TruncDiv(v, Ten(places)), TruncMod(v, Ten(places));
      ScaledParts(v, places, w, m);
      PartsRead(w, m, places);
    }
  }

  /** At most `places` digits follow the point, and the last of them is not zero. */
  lemma PrintIsShort(v: nat, places: nat)
    requires places >= 1
    ensures |Fraction(v, places)| <= places && AllDigits(Fraction(v, places))
    ensures Fraction(v, places) != "" ==> Fraction(v, places)[|Fraction(v, places)| - 1] != '0'
  {
    var w, m := TruncDiv(v, Ten(places)), TruncMod(v, Ten(places));
    ScaledParts(v, places, w, m);
    PaddedFraction(m, places);
    NumberStripped(PadStart(Decimal(m), places));
  }

  // ---------- negative numbers ----------

  lemma {:induction false} StripKeeps(s: string, i: nat)
    requires i < |s| && s[i] != '0'
    ensures i < |StripZeros(s)|
    decreases |s|
  {
    if s[|s| - 1] == '0' {
      StripKeeps(s[..|s| - 1], i);
    }
  }

  lemma PadKeeps(s: string, n: nat)
    requires s != ""
    ensures var p := PadStart(s, n); |p| >= |s| && p[|p| - |s|] == s[0]
  {}

  /** The sign of a negative remainder stays in the fraction, which is then not a number. */
  lemma SignInFraction(m: int, places: nat)
    requires m < 0
    ensures var f := StripZeros(PadStart(ToString(m), places)); f != "" && ParseFraction(f, places).None?
  {
    var padded := PadStart(ToString(m), places);
    PadKeeps(ToString(m), places);
    var i := |padded| - |ToString(m)|;
    StripKeeps(padded, i);
    assert StripZeros(padded)[i] == '-';
  }

  lemma NegatedProduct(q: int, d: nat)
    ensures d * (0 - q) == 0 - q * d && (0 - q) * d == 0 - q * d
  {}

  lemma NegativeParts(v: int, d: nat)
    requires v < 0 && d > 0
    ensures v == TruncDiv(v, d) * d + TruncMod(v, d) && TruncMod(v, d) <= 0
    ensures TruncMod(v, d) == 0 <==> (-v) % d == 0
  {
    Divided(-v, d);
    Commuted(d, (-v) / d);
    NegatedProduct((-v) / d, d);
  }

  lemma NegativeWhole(v: int, w: int, places: nat)
    requires places >= 1 && v == Scaled(w, places)
    ensures Parse(Joined(ToString(w), StripZeros(PadStart(ToString(0), places))), places) == Some(v)
  {
    PaddedFraction(0, places);
    StripReads(PadStart(ToString(0), places), 0);
    assert Joined(ToString(w), "") == ToString(w);
    ParseToString(w);
    ParseWhole(ToString(w), w, places);
  }

  lemma NegativeFraction(w: int, m: int, places: nat)
    requires m < 0
    ensures Parse(Joined(ToString(w), StripZeros(PadStart(ToString(m), places))), places).None?
  {
    SignInFraction(m, places);
    ParseToString(w);
    ParseDotted(ToString(w), StripZeros(PadStart(ToString(m), places)), w, places);
  }

  lemma NegativeReads(v: int, places: nat)
    requires v < 0 && places >= 1
    ensures Parse(PrintPlaces(v, places), places) == Some(v) <==> (-v) % Ten(places) == 0
  {
    var d := Ten(places);
    var w, m := TruncDiv(v, d), TruncMod(v, d);
    NegativeParts(v, d);
    if m == 0 {
      ScaledIsProduct(w, places);
      NegativeWhole(v, w, places);
    } else {
      NegativeFraction(w, m, places);
    }
  }

  /**
   With 0 to 255 decimals, what is printed reads back, scaled by that many places, exactly for natural numbers and for
   negative numbers without a fraction. Other decimals print as the nearest of 0 and 255 does.
   */
  lemma PrintReadsIff(value: int, decimals: int)
    ensures 0 <= decimals <= 255 ==>
      ((Parse(AmountToString(value, decimals), decimals) == Some(value))
       <==> (value >= 0 || decimals == 0 || (-value) % Ten(decimals) == 0))
    ensures decimals > 255 ==> AmountToString(value, decimals) == AmountToString(value, 255)
    ensures decimals < 0 ==> AmountToString(value, decimals) == AmountToString(value, 0)
  {
    if value >= 0 && 0 <= decimals <= 255 {
      PrintReads(value, decimals);
    } else if decimals == 0 {
      ParseToString(value);
      ParseWhole(ToString(value), value, 0);
    } else if 0 < decimals <= 255 {
      NegativeReads(value, decimals);
    }
  }

  /** A negative amount with a fraction is printed as no number: -150 with two places is shown as "-1.-5". */
  lemma NegativeIsBroken()
    ensures Parse(AmountToString(-150, 2), 2) != Some(-150)
  {
    PrintReadsIff(-150, 2);
    assert Scaled(1, 2) == 100;
  }

  // ---------- the printed form ----------

  lemma {:induction false} NoLeadingZero(n: nat)
    ensures Decimal(n)[0] == '0' ==> |Decimal(n)| == 1
  {
    if n >= 10 {
      LeadingOfPositive(n / 10);
    }
  }

  lemma {:induction false} LeadingOfPositive(n: nat)
    requires n >= 1
    ensures Decimal(n)[0] != '0'
  {
    if n >= 10 {
      LeadingOfPositive(n / 10);
    }
  }

  lemma JoinedForm(whole: string, fraction: string)
    requires Undotted(whole)
    ensures var s := Joined(whole, fraction); var d := DotAt(s);
      && d == |whole| && s[..d] == whole
      && (if fraction == "" then d == |s| else d < |s| && s[d + 1..] == fraction)
  {
    if fraction == "" {
      NoDotInDigits(whole, "");
      assert Joined(whole, fraction) == whole == whole + "";
    } else {
      DottedAt(whole, fraction);
    }
  }

  /**
   No leading zeros, and either no point or one with at least one and at most
   `places` digits after it, the last of which is not zero.
   */
  predicate Canonical(s: string, places: nat) {
    var d := DotAt(s);
    && 1 <= d && AllDigits(s[..d]) && (s[0] == '0' ==> d == 1)
    && (d < |s| ==> AllDigits(s[d + 1..]) && 1 <= |s| - d - 1 <= places && s[|s| - 1] != '0')
  }

  lemma PrintsWhole(w: nat)
    ensures Canonical(ToString(w), 0)
  {
    WholeReads(w);
    NoLeadingZero(w);
    NoDotInDigits(ToString(w), "");
    assert ToString(w) + "" == ToString(w);
  }

  lemma PrintsJoined(w: nat, fraction: string, places: nat)
    requires AllDigits(fraction) && |fraction| <= places && (fraction != "" ==> fraction[|fraction| - 1] != '0')
    ensures Canonical(Joined(ToString(w), fraction), places)
  {
    var s := Joined(ToString(w), fraction);
    WholeReads(w);
    NoLeadingZero(w);
    JoinedForm(ToString(w), fraction);
    assert s[0] == ToString(w)[0];
    if fraction != "" {
      assert s[|s| - 1] == s[DotAt(s) + 1..][|fraction| - 1];
    }
  }

  lemma PrintsPlaces(value: nat, places: nat, w: int, fraction: string)
    requires places >= 1 && w == TruncDiv(value, Ten(places)) && fraction == Fraction(value, places)
    ensures Canonical(Joined(ToString(w), fraction), places)
  {
    ScaledParts(value, places, w, TruncMod(value, Ten(places)));
    PrintIsShort(value, places);
    PrintsJoined(w, fraction, places);
  }

  /** Natural numbers are printed in the canonical form. */
  lemma PrintIsCanonical(value: nat, decimals: nat)
    requires decimals <= 255
    ensures Canonical(AmountToString(value, decimals), decimals)
  {
    if decimals == 0 {
      PrintsWhole(value);
    } else {
      PrintsPlaces(value, decimals, TruncDiv(value, Ten(decimals)), Fraction(value, decimals));
    }
  }
}

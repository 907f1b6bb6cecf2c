/** Sorting by a strict order, and why the result depends only on the set of elements. */
module Sorting {

  ghost predicate Strict<T(!new)>(before: (T, T) -> bool) {
    && (forall a :: !before(a, a))
    && forall a, b, c :: before(a, b) && before(b, c) ==> before(a, c)
  }

  ghost predicate TotalOn<T>(before: (T, T) -> bool, s: seq<T>) {
    forall i, j :: 0 <= i < j < |s| ==> before(s[i], s[j]) || before(s[j], s[i])
  }

  ghost predicate Sorted<T>(before: (T, T) -> bool, s: seq<T>) {
    forall i, j :: 0 <= i < j < |s| ==> before(s[i], s[j])
  }

  function Insert<T>(before: (T, T) -> bool, x: T, s: seq<T>): (r: seq<T>)
    ensures |r| == |s| + 1
  {
    if s == [] || before(x, s[0]) then [x] + s else [s[0]] + Insert(before, x, s[1..])
  }

  /** Where an element is inserted. */
  function Place<T>(before: (T, T) -> bool, x: T, s: seq<T>): (p: nat)
    ensures p <= |s|
    ensures forall i :: 0 <= i < p ==> !before(x, s[i])
    ensures p < |s| ==> before(x, s[p])
  {
    if s == [] || before(x, s[0]) then 0 else 1 + Place(before, x, s[1..])
  }

  lemma {:induction false} InsertAt<T>(before: (T, T) -> bool, x: T, s: seq<T>)
    ensures var p := Place(before, x, s); Insert(before, x, s) == s[..p] + [x] + s[p..]
    decreases |s|
  {
    if s != [] && !before(x, s[0]) {
      InsertAt(before, x, s[1..]);
    }
  }

  /** The elements are inserted one after the other. */
  function SortOf<T>(before: (T, T) -> bool, s: seq<T>): (r: seq<T>)
    ensures |r| == |s|
  {
    if s == [] then [] else Insert(before, s[|s| - 1], SortOf(before, s[..|s| - 1]))
  }

  method Sort<T>(before: (T, T) -> bool, s: seq<T>) returns (r: seq<T>)
    ensures r == SortOf(before, s)
  {
    r := [];
    for i := 0 to |s|
      invariant r == SortOf(before, s[..i])
    {
      assert s[..i + 1][..i] == s[..i];
      r := Insert(before, s[i], r);
    }
    assert s[..|s|] == s;
  }

  ghost predicate Comparable<T>(before: (T, T) -> bool, x: T, s: seq<T>) {
    forall i :: 0 <= i < |s| ==> before(x, s[i]) || before(s[i], x)
  }

  lemma InsertSorted<T(!new)>(before: (T, T) -> bool, x: T, s: seq<T>)
    requires Strict(before) && Sorted(before, s) && Comparable(before, x, s)
    ensures Sorted(before, Insert(before, x, s))
  {
    var p, r := Place(before, x, s), Insert(before, x, s);
    InsertAt(before, x, s);
    forall i, j | 0 <= i < j < |r| ensures before(r[i], r[j]) {
      if i == p && j > p + 1 {
        assert before(x, s[p]) && before(s[p], s[j - 1]);
      }
    }
  }

  lemma {:induction false} InsertElements<T>(before: (T, T) -> bool, x: T, s: seq<T>, y: T)
    ensures y in Insert(before, x, s) <==> y == x || y in s
  {
    InsertAt(before, x, s);
  }

  lemma {:induction false} SortElements<T>(before: (T, T) -> bool, s: seq<T>, y: T)
    ensures y in SortOf(before, s) <==> y in s
    decreases |s|
  {
    if s != [] {
      var k := |s| - 1;
      SortElements(before, s[..k], y);
      InsertElements(before, s[k], SortOf(before, s[..k]), y);
      assert s == s[..k] + [s[k]];
    }
  }

  lemma {:induction false} SortSorts<T(!new)>(before: (T, T) -> bool, s: seq<T>)
    requires Strict(before) && TotalOn(before, s)
    ensures Sorted(before, SortOf(before, s))
    decreases |s|
  {
    if s != [] {
      var k := |s| - 1;
      var r := SortOf(before, s[..k]);
      SortSorts(before, s[..k]);
      forall i | 0 <= i < |r| ensures before(s[k], r[i]) || before(r[i], s[k]) {
        SortElements(before, s[..k], r[i]);
        var j :| 0 <= j < k && s[..k][j] == r[i];
        assert before(s[j], s[k]) || before(s[k], s[j]);
      }
      InsertSorted(before, s[k], r);
    }
  }

  lemma FirstIsLeast<T(!new)>(before: (T, T) -> bool, s: seq<T>, x: T)
    requires Sorted(before, s) && x in s
    ensures x == s[0] || before(s[0], x)
  {
    var i :| 0 <= i < |s| && s[i] == x;
    assert i > 0 ==> before(s[0], s[i]);
  }

  lemma SameFirst<T(!new)>(before: (T, T) -> bool, s: seq<T>, t: seq<T>)
    requires Strict(before) && Sorted(before, s) && Sorted(before, t) && s != [] && t != []
    requires forall x :: x in s <==> x in t
    ensures s[0] == t[0]
  {
    assert s[0] in t && t[0] in s;
    FirstIsLeast(before, s, t[0]);
    FirstIsLeast(before, t, s[0]);
  }

  lemma NotInTail<T(!new)>(before: (T, T) -> bool, s: seq<T>)
    requires Strict(before) && Sorted(before, s) && s != []
    ensures s[0] !in s[1..] && Sorted(before, s[1..])
  {
    forall i | 0 <= i < |s[1..]| ensures s[1..][i] != s[0] {
      assert before(s[0], s[i + 1]);
    }
  }

  /** Two sorted lists of the same elements are the same list. */
  lemma {:induction false} SortedUnique<T(!new)>(before: (T, T) -> bool, s: seq<T>, t: seq<T>)
    requires Strict(before) && Sorted(before, s) && Sorted(before, t)
    requires forall x :: x in s <==> x in t
    ensures s == t
    decreases |s|
  {
    assert (s != [] ==> s[0] in s) && (t != [] ==> t[0] in t);
    if s != [] && t != [] {
      SameFirst(before, s, t);
      NotInTail(before, s);
      NotInTail(before, t);
      assert s == [s[0]] + s[1..] && t == [t[0]] + t[1..];
      forall x ensures x in s[1..] <==> x in t[1..] {
        assert x in s[1..] ==> x in s;
        assert x in t[1..] ==> x in t;
      }
      SortedUnique(before, s[1..], t[1..]);
    }
  }

  /** Sorting gives the same list for every order of the same elements. */
  lemma SortUnique<T(!new)>(before: (T, T) -> bool, s: seq<T>, t: seq<T>)
    requires Strict(before) && TotalOn(before, s) && TotalOn(before, t)
    requires forall x :: x in s <==> x in t
    ensures SortOf(before, s) == SortOf(before, t)
  {
    SortSorts(before, s);
    SortSorts(before, t);
    forall x ensures x in SortOf(before, s) <==> x in SortOf(before, t) {
      SortElements(before, s, x);
      SortElements(before, t, x);
    }
    SortedUnique(before, SortOf(before, s), SortOf(before, t));
  }
}

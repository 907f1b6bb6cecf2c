/** Steps that may fail, done one after the other. */
module Folds {
  import opened Results

  function Fold<R, S>(step: (R, S) -> Option<R>, start: R, xs: seq<S>): Option<R> {
    if xs == [] then Some(start)
    else
      match Fold(step, start, xs[..|xs| - 1])
      case None => None
      case Some(r) => step(r, xs[|xs| - 1])
  }

  lemma FoldNext<R, S>(step: (R, S) -> Option<R>, start: R, xs: seq<S>, k: nat)
    requires k < |xs|
    ensures Fold(step, start, xs[..k + 1]) ==
      match Fold(step, start, xs[..k])
      case None => None
      case Some(r) => step(r, xs[k])
  {
    assert xs[..k + 1][..k] == xs[..k];
  }

  /** A failing prefix makes the whole fail. */
  lemma {:induction false} FoldFails<R, S>(step: (R, S) -> Option<R>, start: R, xs: seq<S>, k: nat)
    requires k <= |xs| && Fold(step, start, xs[..k]).None?
    ensures Fold(step, start, xs).None?
    decreases |xs| - k
  {
    if k < |xs| {
      FoldNext(step, start, xs, k);
      FoldFails(step, start, xs, k + 1);
    } else {
      assert xs[..k] == xs;
    }
  }

  /** Every prefix of what succeeds does, and so does the step after it. */
  lemma FoldPrefix<R, S>(step: (R, S) -> Option<R>, start: R, xs: seq<S>, k: nat)
    requires k < |xs| && Fold(step, start, xs).Some?
    ensures Fold(step, start, xs[..k]).Some? && step(Fold(step, start, xs[..k]).value, xs[k]).Some?
  {
    FoldNext(step, start, xs, k);
    if Fold(step, start, xs[..k + 1]).None? {
      FoldFails(step, start, xs, k + 1);
    }
  }

  /** Doing one list after another. */
  lemma {:induction false} FoldConcat<R, S>(step: (R, S) -> Option<R>, start: R, xs: seq<S>, ys: seq<S>)
    ensures Fold(step, start, xs + ys) ==
      match Fold(step, start, xs)
      case None => None
      case Some(r) => Fold(step, r, ys)
    decreases |ys|
  {
    if ys == [] {
      assert xs + ys == xs;
    } else {
      var k := |ys| - 1;
      FoldConcat(step, start, xs, ys[..k]);
      assert (xs + ys)[..|xs| + k] == xs + ys[..k];
    }
  }

  /** What holds of a result and the steps that led to it is kept by one more step. */
  ghost predicate Keeps<R(!new), S(!new)>(step: (R, S) -> Option<R>, holds: (R, seq<S>) -> bool) {
    forall r, xs, x {:trigger holds(r, xs), step(r, x)} ::
      holds(r, xs) && step(r, x).Some? ==> holds(step(r, x).value, xs + [x])
  }

  /** It then holds of the whole. */
  lemma {:induction false} FoldKeeps<R(!new), S(!new)>(step: (R, S) -> Option<R>, holds: (R, seq<S>) -> bool, start: R, xs: seq<S>)
    requires holds(start, []) && Keeps(step, holds) && Fold(step, start, xs).Some?
    ensures holds(Fold(step, start, xs).value, xs)
    decreases |xs|
  {
    if xs != [] {
      FoldKeeps(step, holds, start, xs[..|xs| - 1]);
      assert xs == xs[..|xs| - 1] + [xs[|xs| - 1]];
    }
  }
}

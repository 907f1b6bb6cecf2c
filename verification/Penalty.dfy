/**
 The penalty of one line of modules: the encoder's single pass with its history
 of seven runs, against a declarative score over the runs of the line.
 */
module Penalty {
  import opened Results

  const N1: nat := 3
  const N2: nat := 3
  const N3: nat := 40
  const N4: nat := 10

  // ---------- runs ----------

  /** Black runs have odd positions: runs alternate, beginning with white. */
  predicate LastIsBlack(runs: seq<nat>) {
    |runs| % 2 == 0
  }

  /** The runs of a line after one more module. */
  function Extend(runs: seq<nat>, black: bool): (r: seq<nat>)
    requires runs != []
    ensures r != []
  {
    var k := |runs| - 1;
    if black == LastIsBlack(runs) then runs[k := runs[k] + 1] else runs + [1]
  }

  /** The lengths of the runs of a line; the first, which is white, may be empty. */
  function Runs(line: seq<bool>): (r: seq<nat>)
    ensures r != []
    decreases |line|
  {
    if line == [] then [0] else Extend(Runs(line[..|line| - 1]), line[|line| - 1])
  }

  function Repeat(b: bool, n: nat): (s: seq<bool>)
    ensures |s| == n && forall i :: 0 <= i < n ==> s[i] == b
  {
    seq(n, i => b)
  }

  /** The line with the given runs. */
  function Expand(runs: seq<nat>): seq<bool> {
    if runs == [] then [] else Expand(runs[..|runs| - 1]) + Repeat(LastIsBlack(runs), runs[|runs| - 1])
  }

  /** Every run but the first is nonempty, so the runs are maximal. */
  predicate Proper(runs: seq<nat>) {
    runs != [] && forall i :: 1 <= i < |runs| ==> runs[i] >= 1
  }

  lemma ExpandExtend(runs: seq<nat>, black: bool)
    requires runs != []
    ensures Expand(Extend(runs, black)) == Expand(runs) + [black]
  {
    var k, e := |runs| - 1, Extend(runs, black);
    if black == LastIsBlack(runs) {
      assert e[..k] == runs[..k];
      assert Repeat(black, runs[k] + 1) == Repeat(black, runs[k]) + [black];
    } else {
      assert e[..k + 1] == runs;
      assert Repeat(black, 1) == [black];
    }
  }

  lemma ExtendProper(runs: seq<nat>, black: bool)
    requires Proper(runs)
    ensures Proper(Extend(runs, black))
  {}

  /** The runs of a line are the alternating maximal runs that spell it. */
  lemma {:induction false} RunsSpellLine(line: seq<bool>)
    ensures Proper(Runs(line)) && Expand(Runs(line)) == line
    decreases |line|
  {
    if line == [] {
      assert Expand([0]) == Expand([0][..0]) + Repeat(false, 0);
    } else {
      var init, last := line[..|line| - 1], line[|line| - 1];
      var before := Runs(init);
      RunsSpellLine(init);
      ExtendProper(before, last);
      ExpandExtend(before, last);
      assert Runs(line) == Extend(before, last);
      assert line == init + [last];
    }
  }

  // ---------- the score of a list of runs ----------

  /** A run of five or more same-coloured modules costs its length minus two. */
  function RunCost(length: nat): nat {
    if length >= 5 then length - 2 else 0
  }

  function RunScore(runs: seq<nat>): nat {
    if runs == [] then 0 else RunScore(runs[..|runs| - 1]) + RunCost(runs[|runs| - 1])
  }

  /** How many finder-like patterns seven runs w b w b w b w are: 1:1:3:1:1, with four white modules on a side. */
  function Patterns(a: nat, b: nat, c: nat, d: nat, e: nat, f: nat, g: nat): nat {
    if b > 0 && c == b && d == 3 * b && e == b && f == b then
      (if a >= 4 * b && g >= b then 1 else 0) + (if g >= 4 * b && a >= b then 1 else 0)
    else 0
  }

  function PatternsAtEnd(runs: seq<nat>): nat
    requires |runs| >= 7
  {
    var k := |runs| - 7;
    Patterns(runs[k], runs[k + 1], runs[k + 2], runs[k + 3], runs[k + 4], runs[k + 5], runs[k + 6])
  }

  /** The patterns in all windows of seven runs that begin and end with white. */
  function FinderCount(runs: seq<nat>): nat {
    if |runs| < 7 then 0
    else FinderCount(runs[..|runs| - 1]) + if LastIsBlack(runs) then 0 else PatternsAtEnd(runs)
  }

  /** The line with a white border of its own length on each side. */
  function Bordered(line: seq<bool>): seq<bool> {
    Repeat(false, |line|) + line + Repeat(false, |line|)
  }

  /** The penalty of a line: its long runs, and the finder-like patterns of the bordered line. */
  function LineScore(line: seq<bool>): nat {
    RunScore(Runs(line)) + N3 * FinderCount(Runs(Bordered(line)))
  }

  // ---------- the runs of a bordered line ----------

  /** Runs with the first one longer by n. */
  function LongerFirst(runs: seq<nat>, n: nat): (r: seq<nat>)
    requires runs != []
    ensures |r| == |runs|
  {
    runs[0 := runs[0] + n]
  }

  lemma {:induction false} RunsOfWhite(n: nat)
    ensures Runs(Repeat(false, n)) == [n]
  {
    if n > 0 {
      assert Repeat(false, n)[..n - 1] == Repeat(false, n - 1);
      RunsOfWhite(n - 1);
    }
  }

  lemma RunsSnoc(line: seq<bool>, black: bool)
    ensures Runs(line + [black]) == Extend(Runs(line), black)
  {
    assert (line + [black])[..|line|] == line;
  }

  lemma ExtendLongerFirst(runs: seq<nat>, n: nat, black: bool)
    requires runs != []
    ensures Extend(LongerFirst(runs, n), black) == LongerFirst(Extend(runs, black), n)
  {}

  lemma {:induction false} RunsAfterWhite(n: nat, line: seq<bool>)
    ensures Runs(Repeat(false, n) + line) == LongerFirst(Runs(line), n)
    decreases |line|
  {
    var w := Repeat(false, n);
    if line == [] {
      assert w + line == w;
      RunsOfWhite(n);
    } else {
      var init, last := line[..|line| - 1], line[|line| - 1];
      assert w + line == (w + init) + [last];
      RunsSnoc(w + init, last);
      RunsAfterWhite(n, init);
      ExtendLongerFirst(Runs(init), n, last);
    }
  }

  /** What the runs become when n white modules follow, for n at least one. */
  function ThenWhite(runs: seq<nat>, n: nat): (r: seq<nat>)
    requires runs != []
    ensures r != []
  {
    var k := |runs| - 1;
    if LastIsBlack(runs) then runs + [n] else runs[k := runs[k] + n]
  }

  lemma ExtendThenWhite(runs: seq<nat>, n: nat)
    requires runs != []
    ensures n >= 1 ==> Extend(ThenWhite(runs, n), false) == ThenWhite(runs, n + 1)
    ensures Extend(runs, false) == ThenWhite(runs, 1)
  {}

  lemma {:induction false} RunsThenWhite(line: seq<bool>, n: nat)
    requires n >= 1
    ensures Runs(line + Repeat(false, n)) == ThenWhite(Runs(line), n)
    decreases n
  {
    var init := line + Repeat(false, n - 1);
    assert line + Repeat(false, n) == init + [false];
    RunsSnoc(init, false);
    ExtendThenWhite(Runs(line), n - 1);
    if n == 1 {
      assert init == line;
    } else {
      RunsThenWhite(line, n - 1);
    }
  }

  lemma BorderedRuns(line: seq<bool>)
    requires line != []
    ensures Runs(Bordered(line)) == ThenWhite(LongerFirst(Runs(line), |line|), |line|)
  {
    RunsAfterWhite(|line|, line);
    RunsThenWhite(Repeat(false, |line|) + line, |line|);
  }

  // ---------- the history of runs ----------

  /** The i-th last of the runs added, or 0 when there are not so many. */
  function Recent(added: seq<nat>, i: nat): nat {
    if i < |added| then added[|added| - 1 - i] else 0
  }

  ghost predicate Remembers(history: seq<nat>, added: seq<nat>) {
    && |history| == 7
    && forall i :: 0 <= i < 7 ==> history[i] == Recent(added, i)
  }

  /** All runs added are nonempty: the first has the white border. */
  predicate Positive(added: seq<nat>) {
    forall i :: 0 <= i < |added| ==> added[i] >= 1
  }

  /** Adds a run to the history; the first one gets the white border. */
  method AddHistory(size: nat, length: nat, history: array<nat>, ghost added: seq<nat>)
    requires Remembers(history[..], added) && Positive(added)
    modifies history
    ensures Remembers(history[..], added + [if added == [] then length + size else length])
  {
    var current := length;
    if history[0] == 0 {
      current := current + size;
    }
    ghost var before := history[..];
    var i := 6;
    while i > 0
      invariant 0 <= i <= 6
      invariant forall j :: i < j < 7 ==> history[j] == before[j - 1]
      invariant forall j :: 0 <= j <= i ==> history[j] == before[j]
    {
      history[i] := history[i - 1];
      i := i - 1;
    }
    history[0] := current;
  }

  /** The patterns at the end of the runs added, none when there are fewer than seven. */
  function PatternsNow(added: seq<nat>): nat {
    if |added| < 7 then 0 else PatternsAtEnd(added)
  }

  lemma PatternsOfRecent(added: seq<nat>)
    requires |added| % 2 == 1
    ensures Patterns(Recent(added, 6), Recent(added, 5), Recent(added, 4), Recent(added, 3), Recent(added, 2),
                     Recent(added, 1), Recent(added, 0)) == PatternsNow(added)
  {}

  method CountPatterns(size: nat, history: array<nat>, ghost added: seq<nat>) returns (r: Result<nat>)
    requires Remembers(history[..], added) && |added| % 2 == 1
    ensures r.Ok? <==> Recent(added, 1) <= size * 3
    ensures r.Ok? ==> r.value == PatternsNow(added)
  {
    var n := history[1];
    if n > size * 3 {
      return Err("Assertion error");
    }
    var core := n > 0 && history[2] == n && history[3] == n * 3 && history[4] == n && history[5] == n;
    PatternsOfRecent(added);
    return Ok((if core && history[0] >= n * 4 && history[6] >= n then 1 else 0)
            + (if core && history[6] >= n * 4 && history[0] >= n then 1 else 0));
  }

  lemma CountNow(added: seq<nat>)
    requires added != []
    ensures FinderCount(added)
         == FinderCount(added[..|added| - 1]) + if LastIsBlack(added) then 0 else PatternsNow(added)
  {}

  // ---------- the scan ----------

  /** The runs the scan has added to its history while it is in the last of `runs`. */
  function Added(runs: seq<nat>, size: nat): seq<nat>
    requires runs != []
  {
    if |runs| == 1 then [] else LongerFirst(runs[..|runs| - 1], size)
  }

  lemma AddedNext(runs: seq<nat>, size: nat)
    requires runs != []
    ensures Added(runs + [1], size) == LongerFirst(runs, size)
    ensures var a, last := Added(runs, size), runs[|runs| - 1];
      LongerFirst(runs, size) == a + [if a == [] then last + size else last]
  {
    assert (runs + [1])[..|runs|] == runs;
  }

  lemma AddedSame(runs: seq<nat>, size: nat)
    requires runs != []
    ensures Added(runs[|runs| - 1 := runs[|runs| - 1] + 1], size) == Added(runs, size)
  {}

  lemma RunScoreSame(runs: seq<nat>)
    requires runs != []
    ensures var k := |runs| - 1;
      RunScore(runs[k := runs[k] + 1]) == RunScore(runs) + RunCost(runs[k] + 1) - RunCost(runs[k])
  {
    var k := |runs| - 1;
    assert runs[k := runs[k] + 1][..k] == runs[..k];
  }

  lemma RunScoreNext(runs: seq<nat>)
    ensures RunScore(runs + [1]) == RunScore(runs)
  {
    assert (runs + [1])[..|runs|] == runs;
  }

  /** No run is longer than the line. */
  lemma {:induction false} RunsBounded(line: seq<bool>, i: nat)
    requires i < |Runs(line)|
    ensures Runs(line)[i] <= |line|
    decreases |line|
  {
    if line != [] {
      var init := line[..|line| - 1];
      if i < |Runs(init)| {
        RunsBounded(init, i);
      }
    }
  }

  /** A run ends: it is added, and after a white run the patterns that end there are counted. */
  method EndRun(size: nat, color: bool, length: nat, history: array<nat>, ghost runs: seq<nat>) returns (count: nat)
    requires size >= 1 && Proper(runs) && color == LastIsBlack(runs) && length == runs[|runs| - 1]
    requires forall i :: 0 <= i < |runs| ==> runs[i] <= size
    requires Remembers(history[..], Added(runs, size))
    modifies history
    ensures Remembers(history[..], LongerFirst(runs, size))
    ensures FinderCount(LongerFirst(runs, size)) == FinderCount(Added(runs, size)) + count
  {
    ghost var before, after := Added(runs, size), LongerFirst(runs, size);
    AddedNext(runs, size);
    AddHistory(size, length, history, before);
    assert after[..|after| - 1] == before;
    CountNow(after);
    count := 0;
    if !color {
      var counted := CountPatterns(size, history, after);
      count := counted.value;
    }
  }

  /** The state of the scan while it is in the last of `runs`: the score counts everything before. */
  ghost predicate Scanning(runs: seq<nat>, size: nat, color: bool, run: nat, history: seq<nat>, score: nat) {
    && runs != []
    && color == LastIsBlack(runs)
    && run == runs[|runs| - 1]
    && Remembers(history, Added(runs, size))
    && score == RunScore(runs) + N3 * FinderCount(Added(runs, size))
  }

  lemma ScanSame(runs: seq<nat>, size: nat, color: bool, run: nat, history: seq<nat>, score: nat)
    requires Scanning(runs, size, color, run, history, score)
    ensures Scanning(Extend(runs, color), size, color, run + 1, history, score + RunCost(run + 1) - RunCost(run))
  {
    AddedSame(runs, size);
    RunScoreSame(runs);
  }

  lemma ScanChange(runs: seq<nat>, size: nat, color: bool, history: seq<nat>, score: nat, count: nat)
    requires runs != [] && color == LastIsBlack(runs)
    requires Remembers(history, LongerFirst(runs, size))
    requires score == RunScore(runs) + N3 * FinderCount(Added(runs, size))
    requires FinderCount(LongerFirst(runs, size)) == FinderCount(Added(runs, size)) + count
    ensures Scanning(Extend(runs, !color), size, !color, 1, history, score + count * N3)
  {
    ExtendOther(runs, size);
  }

  lemma ExtendOther(runs: seq<nat>, size: nat)
    requires runs != []
    ensures var next := Extend(runs, !LastIsBlack(runs));
      && next[|next| - 1] == 1 && LastIsBlack(next) == !LastIsBlack(runs)
      && Added(next, size) == LongerFirst(runs, size) && RunScore(next) == RunScore(runs)
  {
    AddedNext(runs, size);
    RunScoreNext(runs);
  }

  lemma RunsFacts(line: seq<bool>, x: nat)
    requires x <= |line|
    ensures Proper(Runs(line[..x])) && forall i :: 0 <= i < |Runs(line[..x])| ==> Runs(line[..x])[i] <= |line|
  {
    RunsSpellLine(line[..x]);
    forall i | 0 <= i < |Runs(line[..x])| ensures Runs(line[..x])[i] <= |line| {
      RunsBounded(line[..x], i);
    }
  }

  lemma RunsStep(line: seq<bool>, x: nat)
    requires x < |line|
    ensures Runs(line[..x + 1]) == Extend(Runs(line[..x]), line[x])
  {
    assert line[..x + 1] == line[..x] + [line[x]];
    RunsSnoc(line[..x], line[x]);
  }

  /** The single pass over a line computes its declarative score; the assertion on run lengths never fails. */
  method ScanLine(line: seq<bool>) returns (score: nat)
    requires line != []
    ensures score == LineScore(line)
  {
    var runColor, run := false, 0;
    var history := new nat[7](_ => 0);
    score := 0;
    ghost var runs := [0];
    assert line[..0] == [];
    for x := 0 to |line|
      invariant fresh(history)
      invariant runs == Runs(line[..x])
      invariant Scanning(runs, |line|, runColor, run, history[..], score)
    {
      RunsStep(line, x);
      if line[x] == runColor {
        ScanSame(runs, |line|, runColor, run, history[..], score);
        run := run + 1;
        if run == 5 {
          score := score + N1;
        } else if run > 5 {
          score := score + 1;
        }
      } else {
        RunsFacts(line, x);
        var count := EndRun(|line|, runColor, run, history, runs);
        ScanChange(runs, |line|, runColor, history[..], score, count);
        score := score + count * N3;
        runColor := line[x];
        run := 1;
      }
      runs := Extend(runs, line[x]);
    }
    assert line[..|line|] == line;
    RunsFacts(line, |line|);
    var count := TerminateAndCount(|line|, runColor, run, history, runs);
    BorderedRuns(line);
    score := score + count * N3;
  }

  /** The last white run, with the border, is added and the patterns that end there are counted. */
  method CountAtBorder(size: nat, length: nat, history: array<nat>, ghost added: seq<nat>, ghost all: seq<nat>)
    returns (count: nat)
    requires Remembers(history[..], added) && Positive(added) && |added| % 2 == 0
    requires added != [] ==> added[|added| - 1] <= 3 * size
    requires all == added + [if added == [] then length + size else length]
    modifies history
    ensures FinderCount(all) == FinderCount(added) + count
  {
    AddHistory(size, length, history, added);
    assert all[..|all| - 1] == added;
    CountNow(all);
    var counted := CountPatterns(size, history, all);
    count := counted.value;
  }

  lemma BorderAdded(runs: seq<nat>, size: nat)
    requires runs != []
    ensures var all, last := ThenWhite(LongerFirst(runs, size), size), runs[|runs| - 1];
      if LastIsBlack(runs) then all == LongerFirst(runs, size) + [size]
      else var a := Added(runs, size); all == a + [if a == [] then last + size + size else last + size]
  {
    AddedNext(runs, size);
  }

  /** The border ends the last run, and the patterns of the bordered line are complete. */
  method TerminateAndCount(size: nat, color: bool, length: nat, history: array<nat>, ghost runs: seq<nat>)
    returns (count: nat)
    requires size >= 1 && Proper(runs) && forall i :: 0 <= i < |runs| ==> runs[i] <= size
    requires color == LastIsBlack(runs) && length == runs[|runs| - 1]
    requires Remembers(history[..], Added(runs, size))
    modifies history
    ensures FinderCount(ThenWhite(LongerFirst(runs, size), size)) == FinderCount(Added(runs, size)) + count
  {
    ghost var all := ThenWhite(LongerFirst(runs, size), size);
    BorderAdded(runs, size);
    if color {
      var none := EndRun(size, color, length, history, runs);
      count := CountAtBorder(size, size, history, LongerFirst(runs, size), all);
      count := count + none;
    } else {
      count := CountAtBorder(size, length + size, history, Added(runs, size), all);
    }
  }
}

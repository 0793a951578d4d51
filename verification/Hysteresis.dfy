// Rise/fall hysteresis of one health-checked peer: how a sequence of probe
// results moves the peer between up and down.

module Hysteresis {

  // The part of the shared peer record that status_update writes.
  datatype Record = Record(rise: nat, fall: nat, down: bool)

  datatype Thresholds = Thresholds(rise: nat, fall: nat, defaultDown: bool)

  // The configuration parser refuses rise=0 and fall=0.
  predicate ValidThresholds(c: Thresholds) {
    c.rise >= 1 && c.fall >= 1
  }

  function Fresh(c: Thresholds): Record {
    Record(0, 0, c.defaultDown)
  }

  // One run of status_update with no interference.
  function Update(c: Thresholds, r: Record, ok: bool): Record {
    if ok then
      var rise := r.rise + 1;
      Record(rise, 0, r.down && !(rise >= c.rise))
    else
      var fall := r.fall + 1;
      Record(0, fall, r.down || fall >= c.fall)
  }

  function Fold(c: Thresholds, hist: seq<bool>): Record {
    if hist == [] then Fresh(c)
    else Update(c, Fold(c, hist[..|hist| - 1]), hist[|hist| - 1])
  }

  // Length of the longest suffix of hist that consists of ok only.
  function Run(hist: seq<bool>, ok: bool): (n: nat)
    ensures n <= |hist|
    ensures forall i :: |hist| - n <= i < |hist| ==> hist[i] == ok
    ensures n < |hist| ==> hist[|hist| - n - 1] != ok
  {
    if hist != [] && hist[|hist| - 1] == ok then Run(hist[..|hist| - 1], ok) + 1 else 0
  }

  function Threshold(c: Thresholds, ok: bool): nat {
    if ok then c.rise else c.fall
  }

  // After the first k results the run that speaks for down has reached its threshold.
  ghost predicate Decisive(c: Thresholds, hist: seq<bool>, k: nat, down: bool)
    requires k <= |hist|
  {
    k >= 1 && Run(hist[..k], !down) >= Threshold(c, !down)
  }

  // The run ending at k decided for down, and no opposite run has decided since.
  ghost predicate LatestAt(c: Thresholds, hist: seq<bool>, k: nat, down: bool) {
    && k <= |hist| && Decisive(c, hist, k, down)
    && forall j: nat, other: bool | k < j <= |hist| && other != down :: !Decisive(c, hist, j, other)
  }

  // No run has reached its threshold yet.
  ghost predicate Undecided(c: Thresholds, hist: seq<bool>) {
    forall j: nat, down: bool | j <= |hist| :: !Decisive(c, hist, j, down)
  }

  // The verdict of the latest run to reach its threshold, stated without the record.
  ghost predicate Verdict(c: Thresholds, hist: seq<bool>, down: bool) {
    || (exists k: nat :: LatestAt(c, hist, k, down))
    || (down == c.defaultDown && Undecided(c, hist))
  }

  lemma {:induction false} PrefixOfPrefix(hist: seq<bool>, k: nat)
    requires k < |hist|
    ensures hist[..|hist| - 1][..k] == hist[..k]
  {
  }

  // The counters are the trailing run lengths, and never both nonzero.
  lemma {:induction false} CountersAreTrailingRuns(c: Thresholds, hist: seq<bool>)
    ensures Fold(c, hist).rise == Run(hist, true)
    ensures Fold(c, hist).fall == Run(hist, false)
    ensures Fold(c, hist).rise == 0 || Fold(c, hist).fall == 0
  {
    if hist != [] {
      CountersAreTrailingRuns(c, hist[..|hist| - 1]);
    }
  }

  lemma {:induction false} DecisivePrefixes(c: Thresholds, hist: seq<bool>)
    requires hist != []
    ensures forall j: nat, down: bool | j < |hist| ::
              Decisive(c, hist[..|hist| - 1], j, down) == Decisive(c, hist, j, down)
  {
    forall j: nat, down: bool | j < |hist|
      ensures Decisive(c, hist[..|hist| - 1], j, down) == Decisive(c, hist, j, down)
    {
      PrefixOfPrefix(hist, j);
    }
  }

  // The last result flips or keeps the state according to its own run.
  lemma {:induction false} LastResult(c: Thresholds, hist: seq<bool>)
    requires ValidThresholds(c) && hist != []
    ensures var ok := hist[|hist| - 1];
            && !Decisive(c, hist, |hist|, ok)
            && Fold(c, hist).down ==
               if Decisive(c, hist, |hist|, !ok) then !ok else Fold(c, hist[..|hist| - 1]).down
  {
    assert hist[..|hist|] == hist;
    CountersAreTrailingRuns(c, hist);
  }

  lemma {:induction false} OneMoreResult(c: Thresholds, hist: seq<bool>)
    requires ValidThresholds(c) && hist != []
    requires Verdict(c, hist[..|hist| - 1], Fold(c, hist[..|hist| - 1]).down)
    ensures Verdict(c, hist, Fold(c, hist).down)
  {
    hide Run, Fold, Decisive;
    var init := hist[..|hist| - 1];
    var down, ok := Fold(c, hist).down, hist[|hist| - 1];
    DecisivePrefixes(c, hist);
    LastResult(c, hist);
    if Decisive(c, hist, |hist|, !ok) {
      assert LatestAt(c, hist, |hist|, down);
    } else if k: nat :| LatestAt(c, init, k, down) {
      assert LatestAt(c, hist, k, down);
    } else {
      assert Undecided(c, hist);
    }
  }

  // down is the verdict of the latest run to reach its threshold, else the default.
  lemma {:induction false} DownIsLatestVerdict(c: Thresholds, hist: seq<bool>)
    requires ValidThresholds(c)
    ensures Verdict(c, hist, Fold(c, hist).down)
  {
    if hist == [] {
      assert Undecided(c, hist);
    } else {
      DownIsLatestVerdict(c, hist[..|hist| - 1]);
      OneMoreResult(c, hist);
    }
  }

  // The verdict is unique, so the two lemmas above determine down completely.
  lemma {:induction false} VerdictIsUnique(c: Thresholds, hist: seq<bool>)
    requires ValidThresholds(c)
    ensures !(Verdict(c, hist, true) && Verdict(c, hist, false))
  {
    if Verdict(c, hist, true) && Verdict(c, hist, false) {
      var k: nat :| LatestAt(c, hist, k, true);
      var l: nat :| LatestAt(c, hist, l, false);
      RunsExclude(hist[..k]);
    }
  }

  lemma {:induction false} RunsExclude(hist: seq<bool>)
    ensures Run(hist, true) == 0 || Run(hist, false) == 0
  {
  }

  // The k-th result flipped the state to down.
  ghost predicate FlipsTo(c: Thresholds, hist: seq<bool>, k: nat, down: bool) {
    1 <= k <= |hist| && Fold(c, hist[..k]).down == down && Fold(c, hist[..k - 1]).down != down
  }

  // Opposite flips at i < j: the state holds at least Threshold results of the
  // later kind, so flapping is bounded by the configured thresholds.
  lemma {:induction false} FlipsAreSeparated(c: Thresholds, hist: seq<bool>, i: nat, j: nat, down: bool)
    requires ValidThresholds(c)
    requires i < j
    requires FlipsTo(c, hist, i, down) && FlipsTo(c, hist, j, !down)
    ensures j - i >= Threshold(c, down)
  {
    var h, g := hist[..j], hist[..i];
    StepAt(hist, j);
    StepAt(hist, i);
    CountersAreTrailingRuns(c, h);
    CountersAreTrailingRuns(c, g);
    assert h[j - 1] == down && Run(h, down) >= Threshold(c, down);
    assert g[i - 1] == !down;
    assert h[i - 1] == g[i - 1];
  }

  lemma {:induction false} StepAt(hist: seq<bool>, k: nat)
    requires 1 <= k <= |hist|
    ensures hist[..k][..k - 1] == hist[..k - 1] && hist[..k][k - 1] == hist[k - 1]
  {
  }

  lemma {:induction false} FoldMore(c: Thresholds, hist: seq<bool>, result: bool)
    ensures Fold(c, hist + [result]) == Update(c, Fold(c, hist), result)
  {
    assert (hist + [result])[..|hist|] == hist;
  }

  // The record of a peer in shared memory, used by one process at a time.
  class PeerShm {
    var riseCount: nat
    var fallCount: nat
    var down: bool
    ghost var hist: seq<bool>   // the results so far

    ghost predicate Valid(c: Thresholds)
      reads this
    {
      Record(riseCount, fallCount, down) == Fold(c, hist)
    }

    constructor (c: Thresholds)
      ensures Valid(c) && hist == []
    {
      riseCount, fallCount, down, hist := 0, 0, c.defaultDown, [];
    }

    // ngx_http_upstream_check_status_update
    method StatusUpdate(c: Thresholds, result: bool)
      requires Valid(c)
      modifies this
      ensures Valid(c) && hist == old(hist) + [result]
    {
      hide Fold;
      FoldMore(c, hist, result);
      hist := hist + [result];
      if result {
        riseCount := riseCount + 1;
        fallCount := 0;
        if down && riseCount >= c.rise {
          down := false;
        }
      } else {
        riseCount := 0;
        fallCount := fallCount + 1;
        if !down && fallCount >= c.fall {
          down := true;
        }
      }
    }
  }
}

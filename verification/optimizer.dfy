/** The best-of-N loop of `run`: several trade solutions are computed, one per
    iteration, and the one with the lowest metric is kept, the earliest winning
    ties. The solver and the shuffle between iterations are not modelled: the
    solutions they would produce come in as `trials`. */
module Optimizer {
  import opened Wrappers
  import opened ItemGraph
  import opened Metrics

  /** A line the loop writes to the log: the metric of a solution that became
      the best so far, or (in verbose mode) of one that did not. */
  datatype Note = NewBest(trial: nat) | NotBetter(trial: nat)

  /** What the loop leaves behind. `installed` is the solution whose matching
      the graph holds at the end, `saved` the one last stored by
      `saveMatches`; `saves` and `restores` count those calls; `solved` counts
      the solutions computed. */
  datatype Outcome = Outcome(
    solved: nat,
    best: nat,
    bestCycles: seq<Cycle>,
    bestMetric: int,
    installed: nat,
    saved: Option<nat>,
    saves: nat,
    restores: nat,
    log: seq<Note>)

  /** Number of solutions computed: the first, plus one per further iteration. */
  function TrialCount(iterations: int): (n: nat)
    ensures n >= 1
  {
    if iterations > 1 then iterations else 1
  }

  predicate AllScorable(m: Metric, trials: seq<seq<Cycle>>) {
    forall i :: 0 <= i < |trials| ==> Scorable(m, trials[i])
  }

  /** The metric of every solution, in order. */
  function Scores(m: Metric, trials: seq<seq<Cycle>>): (s: seq<int>)
    requires AllScorable(m, trials)
    ensures |s| == |trials|
    ensures forall i :: 0 <= i < |trials| ==> s[i] == Score(m, trials[i])
  {
    seq(|trials|, i requires 0 <= i < |trials| => Score(m, trials[i]))
  }

  /** The smallest element of a non-empty sequence. */
  function Min(s: seq<int>): int
    requires |s| > 0
  {
    if |s| == 1 then s[0]
    else
      var p := Min(s[..|s| - 1]);
      if s[|s| - 1] < p then s[|s| - 1] else p
  }

  /** Solution `i` beats every solution before it. */
  predicate IsNewBest(s: seq<int>, i: int) {
    0 < i < |s| && s[i] < Min(s[..i])
  }

  /** How many solutions after the first beat all those before them. */
  function Records(s: seq<int>): nat {
    if |s| <= 1 then 0
    else Records(s[..|s| - 1]) + (if IsNewBest(s, |s| - 1) then 1 else 0)
  }

  lemma {:induction false} MinIsLeast(s: seq<int>)
    requires |s| > 0
    ensures forall i :: 0 <= i < |s| ==> Min(s) <= s[i]
    ensures exists i :: 0 <= i < |s| && s[i] == Min(s)
  {
    if |s| > 1 {
      var p := s[..|s| - 1];
      MinIsLeast(p);
      assert forall i :: 0 <= i < |p| ==> s[i] == p[i];
      if s[|s| - 1] >= Min(p) {
        var j :| 0 <= j < |p| && p[j] == Min(p);
        assert s[j] == Min(s);
      }
    } else {
      assert s[0] == Min(s);
    }
  }

  lemma {:induction false} RecordsBound(s: seq<int>)
    ensures Records(s) < |s| || |s| == 0
  {
    if |s| > 1 {
      RecordsBound(s[..|s| - 1]);
    }
  }

  /** Extending the solutions seen by one more: the minimum is updated, and
      the record count grows exactly when the newcomer is a new best. */
  lemma PrefixStep(s: seq<int>, t: nat)
    requires 0 < t < |s|
    ensures Min(s[..t + 1]) == if s[t] < Min(s[..t]) then s[t] else Min(s[..t])
    ensures Records(s[..t + 1]) == Records(s[..t]) + (if IsNewBest(s, t) then 1 else 0)
  {
    var q := s[..t + 1];
    assert q[..t] == s[..t];
    assert IsNewBest(q, t) == IsNewBest(s, t);
  }

  /** What holds once the solutions up to `i` have been looked at: `best` is
      the first of them with the lowest metric, `saves` counts the first save
      and one per new best, and the log names, in order, the first solution,
      every new best and (in verbose mode) every other solution. */
  ghost predicate SoFar(scores: seq<int>, verbose: bool, i: nat, best: nat, saves: nat, log: seq<Note>)
    requires i < |scores|
  {
    && best <= i
    && scores[best] == Min(scores[..i + 1])
    && (forall j :: 0 <= j < best ==> scores[j] > scores[best])
    && saves == 1 + Records(scores[..i + 1])
    && |log| > 0 && log[0] == NewBest(0)
    && (forall k :: 0 <= k < |log| ==> log[k].trial <= i)
    && (forall k, l :: 0 <= k < l < |log| ==> log[k].trial < log[l].trial)
    && (forall k :: 0 < k < |log| && log[k].NewBest? ==> IsNewBest(scores, log[k].trial))
    && (forall k :: 0 <= k < |log| && log[k].NotBetter? ==> verbose && !IsNewBest(scores, log[k].trial))
    && (forall j :: 0 <= j <= i && IsNewBest(scores, j) ==> NewBest(j) in log)
    && (verbose ==> |log| == i + 1)
  }

  lemma SoFarStart(scores: seq<int>, verbose: bool)
    requires |scores| > 0
    ensures SoFar(scores, verbose, 0, 0, 1, [NewBest(0)])
  {
    assert scores[..1] == [scores[0]];
  }

  /** One more solution looked at: it becomes the best exactly when its
      metric is strictly lower. */
  lemma SoFarStep(scores: seq<int>, verbose: bool, i: nat, best: nat, saves: nat, log: seq<Note>)
    requires i + 1 < |scores|
    requires SoFar(scores, verbose, i, best, saves, log)
    ensures scores[i + 1] < scores[best] ==>
      SoFar(scores, verbose, i + 1, i + 1, saves + 1, log + [NewBest(i + 1)])
    ensures scores[i + 1] >= scores[best] && verbose ==>
      SoFar(scores, verbose, i + 1, best, saves, log + [NotBetter(i + 1)])
    ensures scores[i + 1] >= scores[best] && !verbose ==>
      SoFar(scores, verbose, i + 1, best, saves, log)
  {
    var t := i + 1;
    PrefixStep(scores, t);
    if scores[t] < scores[best] {
      SoFarImproved(scores, verbose, i, best, saves, log);
    } else {
      SoFarNotImproved(scores, verbose, i, best, saves, log);
    }
  }

  lemma SoFarImproved(scores: seq<int>, verbose: bool, i: nat, best: nat, saves: nat, log: seq<Note>)
    requires i + 1 < |scores|
    requires SoFar(scores, verbose, i, best, saves, log)
    requires scores[i + 1] < scores[best]
    ensures SoFar(scores, verbose, i + 1, i + 1, saves + 1, log + [NewBest(i + 1)])
  {
    var t := i + 1;
    PrefixStep(scores, t);
    MinIsLeast(scores[..t]);
    assert forall j :: 0 <= j < t ==> scores[..t][j] == scores[j];
    assert IsNewBest(scores, t);
  }

  lemma SoFarNotImproved(scores: seq<int>, verbose: bool, i: nat, best: nat, saves: nat, log: seq<Note>)
    requires i + 1 < |scores|
    requires SoFar(scores, verbose, i, best, saves, log)
    requires scores[i + 1] >= scores[best]
    ensures verbose ==> SoFar(scores, verbose, i + 1, best, saves, log + [NotBetter(i + 1)])
    ensures !verbose ==> SoFar(scores, verbose, i + 1, best, saves, log)
  {
    var t := i + 1;
    PrefixStep(scores, t);
    assert !IsNewBest(scores, t);
  }

  /** The loop of `run` after the first solution: each further solution
      replaces the best only when its metric is strictly lower; the best is
      saved on every replacement and restored into the graph at the end. */
  method SelectBest(m: Metric, iterations: int, verbose: bool, trials: seq<seq<Cycle>>) returns (o: Outcome)
    requires |trials| == TrialCount(iterations)
    requires AllScorable(m, trials)
    ensures o.solved == |trials| && o.solved == (if iterations > 1 then iterations else 1)
    ensures o.best < |trials| && o.bestCycles == trials[o.best]
    ensures o.bestMetric == Score(m, trials[o.best]) == Min(Scores(m, trials))
    ensures forall i :: 0 <= i < |trials| ==> o.bestMetric <= Score(m, trials[i])
    ensures forall i :: 0 <= i < o.best ==> Score(m, trials[i]) > o.bestMetric
    ensures o.installed == o.best
    ensures iterations > 1 ==> o.saved == Some(o.best) && o.saves == 1 + Records(Scores(m, trials)) && o.restores == 1
    ensures iterations <= 1 ==> o.best == 0 && o.saved == None && o.saves == 0 && o.restores == 0 && o.log == []
    ensures iterations > 1 ==> |o.log| > 0 && o.log[0] == NewBest(0)
    ensures forall k :: 0 <= k < |o.log| ==> o.log[k].trial < |trials|
    ensures forall k, l :: 0 <= k < l < |o.log| ==> o.log[k].trial < o.log[l].trial
    ensures forall k :: 0 < k < |o.log| && o.log[k].NewBest? ==> IsNewBest(Scores(m, trials), o.log[k].trial)
    ensures forall k :: 0 <= k < |o.log| && o.log[k].NotBetter? ==> verbose && !IsNewBest(Scores(m, trials), o.log[k].trial)
    ensures forall i :: IsNewBest(Scores(m, trials), i) ==> NewBest(i) in o.log
    ensures iterations > 1 && verbose ==> |o.log| == |trials|
    ensures o.saves <= |trials|
  {
    ghost var scores := Scores(m, trials);
    var solved := 1;
    var bestCycles := trials[0];
    var bestMetric := Calculate(m, bestCycles);
    var best := 0;
    var installed := 0;
    var saved: Option<nat> := None;
    var saves, restores := 0, 0;
    var log: seq<Note> := [];
    if iterations > 1 {
      log := [NewBest(0)];
      saved := Some(0);
      saves := 1;
      SoFarStart(scores, verbose);
      var i := 0;
      while i < iterations - 1
        invariant 0 <= i <= iterations - 1
        invariant solved == i + 1
        invariant installed == i && saved == Some(best)
        invariant SoFar(scores, verbose, i, best, saves, log)
        invariant bestCycles == trials[best] && bestMetric == scores[best]
      {
        var t := i + 1;
        installed := t;
        var cycles := trials[t];
        solved := solved + 1;
        var newMetric := Calculate(m, cycles);
        SoFarStep(scores, verbose, i, best, saves, log);
        if newMetric < bestMetric {
          bestMetric := newMetric;
          bestCycles := cycles;
          best := t;
          saved := Some(t);
          saves := saves + 1;
          log := log + [NewBest(t)];
        } else if verbose {
          log := log + [NotBetter(t)];
        }
        i := i + 1;
      }
      restores := restores + 1;
      installed := saved.value;
      assert scores[..i + 1] == scores;
    } else {
      assert scores == [scores[0]];
    }
    MinIsLeast(scores);
    RecordsBound(scores);
    o := Outcome(solved, best, bestCycles, bestMetric, installed, saved, saves, restores, log);
  }
}

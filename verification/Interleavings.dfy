/** Tasks that take turns: which steps a schedule makes, when every task goes through its own numbers in order. */
module Interleavings {
  import opened Cuts

  /** How often task `t` has its turn. */
  function Turns(schedule: seq<nat>, t: nat): nat {
    if schedule == [] then 0 else Turns(schedule[..|schedule| - 1], t) + if schedule[|schedule| - 1] == t then 1 else 0
  }

  /** The steps made: task `t` makes the steps number `first[t]`, `first[t] + 1` and so on, one a turn. */
  function RunOf(schedule: seq<nat>, first: seq<nat>): (run: seq<int>)
    requires forall i :: 0 <= i < |schedule| ==> schedule[i] < |first|
    ensures |run| == |schedule|
  {
    if schedule == [] then [] else
      var before, t := schedule[..|schedule| - 1], schedule[|schedule| - 1];
      RunOf(before, first) + [first[t] + Turns(before, t)]
  }

  /** No step belongs to two tasks. */
  ghost predicate Apart(first: seq<nat>, last: seq<nat>) {
    && |first| == |last|
    && forall t, u, k :: 0 <= t < |first| && 0 <= u < |first| && InBoth(first, last, t, u, k) ==> t == u
  }

  ghost predicate InBoth(first: seq<nat>, last: seq<nat>, t: nat, u: nat, k: int)
    requires |first| == |last| && t < |first| && u < |first|
  {
    Between(first[t], k, last[t]) && Between(first[u], k, last[u])
  }

  ghost predicate Between(lo: int, k: int, hi: int) {
    lo <= k < hi
  }

  /** Only these tasks have turns, and none more than it has steps. */
  ghost predicate Within(schedule: seq<nat>, first: seq<nat>, last: seq<nat>) {
    && |first| == |last|
    && (forall i :: 0 <= i < |schedule| ==> schedule[i] < |first|)
    && (forall t: nat :: t < |first| ==> first[t] + Turns(schedule, t) <= last[t])
  }

  /** Every task makes all its steps. */
  ghost predicate Complete(schedule: seq<nat>, first: seq<nat>, last: seq<nat>) {
    && Within(schedule, first, last)
    && forall t: nat :: t < |first| ==> first[t] + Turns(schedule, t) == last[t]
  }

  lemma WithinBefore(schedule: seq<nat>, first: seq<nat>, last: seq<nat>)
    requires Within(schedule, first, last) && schedule != []
    ensures Within(schedule[..|schedule| - 1], first, last)
  {
    var before := schedule[..|schedule| - 1];
    forall t: nat | t < |first| ensures first[t] + Turns(before, t) <= last[t] {
      assert first[t] + Turns(schedule, t) <= last[t];
    }
  }

  /** Step `k` is one of those that some task has had its turn for. */
  ghost predicate Made(schedule: seq<nat>, first: seq<nat>, k: int) {
    exists t: nat :: t < |first| && Between(first[t], k, first[t] + Turns(schedule, t))
  }

  lemma MadeStep(schedule: seq<nat>, first: seq<nat>, k: int)
    requires schedule != [] && schedule[|schedule| - 1] < |first|
    ensures var before, u := schedule[..|schedule| - 1], schedule[|schedule| - 1];
      Made(schedule, first, k) <==> Made(before, first, k) || k == first[u] + Turns(before, u)
  {
    var before, u := schedule[..|schedule| - 1], schedule[|schedule| - 1];
    forall t: nat ensures Turns(schedule, t) == Turns(before, t) + if t == u then 1 else 0 {}
    hide Turns;
    assert Between(first[u], first[u] + Turns(before, u), first[u] + Turns(schedule, u));
    if t: nat :| t < |first| && Between(first[t], k, first[t] + Turns(before, t)) {
      assert Between(first[t], k, first[t] + Turns(schedule, t));
    }
    if t: nat :| t < |first| && Between(first[t], k, first[t] + Turns(schedule, t)) {
      assert Between(first[t], k, first[t] + Turns(before, t)) || k == first[u] + Turns(before, u);
    }
  }

  lemma {:induction false} RunSteps(schedule: seq<nat>, first: seq<nat>, last: seq<nat>, k: int)
    requires Within(schedule, first, last)
    ensures k in RunOf(schedule, first) <==> Made(schedule, first, k)
    decreases |schedule|
  {
    if schedule != [] {
      WithinBefore(schedule, first, last);
      RunSteps(schedule[..|schedule| - 1], first, last, k);
      MadeStep(schedule, first, k);
      hide Made, Turns, Within;
    }
  }

  /** However the tasks take turns, no step is made twice. */
  lemma {:induction false} RunDistinct(schedule: seq<nat>, first: seq<nat>, last: seq<nat>)
    requires Within(schedule, first, last) && Apart(first, last)
    ensures forall i, j :: 0 <= i < j < |schedule| ==> RunOf(schedule, first)[i] != RunOf(schedule, first)[j]
    decreases |schedule|
  {
    if schedule != [] {
      var before, u := schedule[..|schedule| - 1], schedule[|schedule| - 1];
      var k := first[u] + Turns(before, u);
      WithinBefore(schedule, first, last);
      RunDistinct(before, first, last);
      RunSteps(before, first, last, k);
      NotMade(schedule, first, last);
    }
  }

  lemma NotMade(schedule: seq<nat>, first: seq<nat>, last: seq<nat>)
    requires Within(schedule, first, last) && Apart(first, last) && schedule != []
    ensures var before, u := schedule[..|schedule| - 1], schedule[|schedule| - 1];
      !Made(before, first, first[u] + Turns(before, u))
  {
    var before, u := schedule[..|schedule| - 1], schedule[|schedule| - 1];
    var k := first[u] + Turns(before, u);
    WithinBefore(schedule, first, last);
    if t: nat :| t < |first| && Between(first[t], k, first[t] + Turns(before, t)) {
      assert first[u] + Turns(schedule, u) <= last[u] && first[t] + Turns(before, t) <= last[t];
      assert InBoth(first, last, t, u, k);
    }
  }

  /** When all tasks are through, exactly their steps have been made. */
  lemma RunComplete(schedule: seq<nat>, first: seq<nat>, last: seq<nat>, k: int)
    requires Complete(schedule, first, last)
    ensures k in RunOf(schedule, first) <==> exists t: nat :: t < |first| && Between(first[t], k, last[t])
  {
    RunSteps(schedule, first, last, k);
    forall t: nat | t < |first| ensures first[t] + Turns(schedule, t) == last[t] {}
  }

  // ------------------------------------------------------------ equal pieces

  /** Where the tasks start when `n` steps are cut into equal pieces. */
  function Starts(n: nat, tasks: nat): (r: seq<nat>)
    ensures |r| == tasks && forall t :: 0 <= t < tasks ==> r[t] == Cut(n, tasks, t)
  {
    seq(tasks, t requires 0 <= t < tasks => Cut(n, tasks, t))
  }

  function Ends(n: nat, tasks: nat): (r: seq<nat>)
    ensures |r| == tasks && forall t :: 0 <= t < tasks ==> r[t] == Cut(n, tasks, t + 1)
  {
    seq(tasks, t requires 0 <= t < tasks => Cut(n, tasks, t + 1))
  }

  /** The run makes each of the steps `0 .. n - 1` once, and no others. */
  ghost predicate AllOnce(run: seq<int>, n: nat) {
    && (forall i :: 0 <= i < |run| ==> 0 <= run[i] < n)
    && (forall i, j :: 0 <= i < j < |run| ==> run[i] != run[j])
    && (forall k :: 0 <= k < n ==> k in run)
  }

  /** Tasks with equal pieces, taking turns in any way, make each of the `n` steps once. */
  lemma PiecesRun(n: nat, tasks: nat, schedule: seq<nat>)
    requires 0 < tasks && Complete(schedule, Starts(n, tasks), Ends(n, tasks))
    ensures AllOnce(RunOf(schedule, Starts(n, tasks)), n)
  {
    hide Cut, RunOf, Apart;
    var first, last := Starts(n, tasks), Ends(n, tasks);
    var run := RunOf(schedule, first);
    PiecesApart(n, tasks);
    RunDistinct(schedule, first, last);
    forall k: nat | k < n ensures k in run {
      CutEnds(n, tasks);
      var t := OwnerExists(n, tasks, tasks, k);
      assert Between(first[t], k, last[t]);
      RunComplete(schedule, first, last, k);
    }
    forall i | 0 <= i < |run| ensures 0 <= run[i] < n {
      RunComplete(schedule, first, last, run[i]);
      var t: nat :| t < |first| && Between(first[t], run[i], last[t]);
      CutMono(n, tasks, t, t + 1);
    }
  }

  lemma PiecesApart(n: nat, tasks: nat)
    ensures Apart(Starts(n, tasks), Ends(n, tasks))
  {
    hide Cut;
    var first, last := Starts(n, tasks), Ends(n, tasks);
    forall t, u, k | 0 <= t < tasks && 0 <= u < tasks && InBoth(first, last, t, u, k) ensures t == u
    {
      OwnerUnique(n, tasks, t, u, k);
    }
  }
}

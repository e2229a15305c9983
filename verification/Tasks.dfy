/** The scheduler's side of `parallel_for`: every task is picked until its work is used up, in any order. */
module Tasks {
  import opened Cuts

  /** Work left over all tasks. */
  ghost function Work(left: seq<nat>): nat {
    if left == [] then 0 else Work(left[..|left| - 1]) + left[|left| - 1]
  }

  lemma {:induction false} WorkStep(left: seq<nat>, t: nat)
    requires t < |left| && 0 < left[t]
    ensures Work(left[t := left[t] - 1]) + 1 == Work(left)
  {
    var m := |left| - 1;
    var next := left[t := left[t] - 1];
    if t == m {
      assert next[..m] == left[..m];
    } else {
      assert next[..m] == left[..m][t := left[t] - 1];
      WorkStep(left[..m], t);
    }
  }

  /** The tasks `parallel_for` is asked to run. */
  function AllTasks(tasks: nat): (all: set<nat>)
    ensures forall t: nat :: t in all <==> t < tasks
  {
    if tasks == 0 then {} else AllTasks(tasks - 1) + {tasks - 1}
  }

  /** Item `k` of `n` belongs to task `t`. */
  ghost predicate Owns(n: nat, tasks: nat, t: nat, k: nat)
    requires t < tasks
  {
    Cut(n, tasks, t) <= k < Cut(n, tasks, t + 1)
  }

  /** While tasks are being run, in any order: the items of the tasks still `todo` are not done, all others are. */
  ghost predicate Progress(n: nat, tasks: nat, todo: set<nat>, done: set<int>) {
    && (forall t: nat :: t in todo ==> t < tasks)
    && (forall t: nat, k: nat :: t in todo && t < tasks && Owns(n, tasks, t, k) ==> k !in done)
    && (forall t: nat, k: nat :: t < tasks && t !in todo && Owns(n, tasks, t, k) ==> k in done)
  }

  ghost function IntSet(lo: nat, hi: nat): (r: set<int>)
    ensures forall k :: k in r <==> lo <= k < hi
  {
    if hi <= lo then {} else IntSet(lo, hi - 1) + {hi - 1}
  }

  lemma ProgressStart(n: nat, tasks: nat)
    ensures Progress(n, tasks, AllTasks(tasks), {})
  {}

  lemma ProgressStep(n: nat, tasks: nat, todo: set<nat>, done: set<int>, t: nat)
    requires Progress(n, tasks, todo, done) && t in todo && t < tasks
    ensures Progress(n, tasks, todo - {t}, done + IntSet(Cut(n, tasks, t), Cut(n, tasks, t + 1)))
  {
    forall u: nat, k: nat | u < tasks && u != t && Owns(n, tasks, u, k) ensures !Owns(n, tasks, t, k) {
      if Owns(n, tasks, t, k) { OwnerUnique(n, tasks, u, t, k); }
    }
  }

  lemma ProgressEnd(n: nat, tasks: nat, done: set<int>)
    requires Progress(n, tasks, {}, done) && 0 < tasks
    ensures forall k :: 0 <= k < n ==> k in done
  {
    forall k: nat | k < n ensures k in done {
      CutEnds(n, tasks);
      var t := OwnerExists(n, tasks, tasks, k);
      assert Owns(n, tasks, t, k);
    }
  }

  lemma ProgressOwn(n: nat, tasks: nat, todo: set<nat>, done: set<int>, t: nat)
    requires Progress(n, tasks, todo, done) && t in todo && t < tasks
    ensures forall k :: Cut(n, tasks, t) <= k < Cut(n, tasks, t + 1) ==> k !in done
  {
    forall k | Cut(n, tasks, t) <= k < Cut(n, tasks, t + 1) ensures k !in done {
      assert Owns(n, tasks, t, k);
    }
  }
}

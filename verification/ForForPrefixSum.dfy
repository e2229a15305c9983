/** Prefix sums over the elements of jagged arrays, in two passes. */
module ForForPrefixSum {
  import opened Cuts
  import opened ForFor
  import opened JaggedArrays
  import opened PrefixSum
  import opened Seqs

  const MAX_TASKS: nat := 64

  /** The value of everything before flat index `k`. */
  ghost function Before<V>(sizes: seq<nat>, func: Call -> V, red: (V, V) -> V, identity: V, k: nat): V
    requires k <= Total(sizes)
  {
    Fold(red, identity, Leaves(sizes, func)[..k])
  }

  /** The start values of all tasks. */
  ghost predicate SumsAre<V>(sums: seq<V>, sizes: seq<nat>, tasks: nat, func: Call -> V, red: (V, V) -> V,
                             identity: V) {
    && 0 < tasks <= |sums|
    && forall t: nat :: t < tasks ==> BaseSum(sums[t], Leaves(sizes, func), tasks, t, identity, red)
  }

  /** The values of the tasks, stored by them, add up to the start values. */
  method Finish<V(0,!new)>(ps: PrefixSumState<V>, logs: seq<Log<V>>, identity: V, red: (V, V) -> V,
                           ghost sizes: seq<nat>, ghost func: Call -> V) returns (sum: V)
    requires ps.Valid() && 0 < |logs| <= MAX_TASKS && Monoid(red, identity)
    requires forall t: nat :: t < |logs| ==> Piece(logs[t].value, Leaves(sizes, func), |logs|, t, identity, red)
    modifies ps.counts, ps.sums
    ensures sum == Fold(red, identity, Leaves(sizes, func))
    ensures SumsAre(ps.sums[..], sizes, |logs|, func, red, identity)
  {
    ghost var s, tasks := Leaves(sizes, func), |logs|;
    for t := 0 to |logs|
      invariant forall u: nat :: u < t ==> ps.counts[u] == logs[u].value
    {
      ps.counts[t] := logs[t].value;
    }
    ghost var cs := ps.counts[..];
    assert forall t: nat :: t < tasks ==> cs[t] == logs[t].value;
    sum := ps.Scan(|logs|, identity, red);
    WholeSum(cs, s, tasks, identity, red);
    assert ps.counts[..] == cs;
    BaseSums(ps.sums[..], cs, s, tasks, identity, red);
  }

  /** First pass: `parallel_for_for_prefix_sum0_`. */
  method PrefixSum0<V(0,!new)>(state: State, ps: PrefixSumState<V>, sizes: seq<nat>, identity: V, func: Call -> V,
                               red: (V, V) -> V) returns (sum: V)
    requires state.Valid(sizes) && ps.Valid() && Monoid(red, identity) && Splits(sizes, func, red)
    modifies ps.counts, ps.sums
    ensures sum == Fold(red, identity, Leaves(sizes, func))
    ensures SumsAre(ps.sums[..], sizes, old(state.taskCount), func, red, identity)
  {
    var f := (t: nat, c: Call, v: V) => func(c);
    var logs := RunTasks(state, sizes, f, red, identity);
    forall t: nat | t < |logs| ensures Piece(logs[t].value, Leaves(sizes, func), |logs|, t, identity, red) {
      TaskValue(sizes, |logs|, t, logs[t], func, OfTask(f, t), red, identity);
    }
    sum := Finish(ps, logs, identity, red, sizes, func);
  }

  /** Second pass, when it is given the right base, returns what the first pass returned. */
  ghost predicate SameValues<V(!new)>(sizes: seq<nat>, func: Call -> V, func1: (Call, V) -> V, red: (V, V) -> V,
                                      identity: V) {
    forall c: Call :: ValidCall(sizes, c) && End(c) <= Total(sizes) ==>
      func1(c, Before(sizes, func, red, identity, c.k)) == func(c)
  }

  /** A task of the second pass gives each call its own start value, joined with what it has accumulated so far. */
  function WithBase<V>(func1: (Call, V) -> V, red: (V, V) -> V, sums: seq<V>): (nat, Call, V) -> V {
    (t: nat, c: Call, v: V) => if t < |sums| then func1(c, red(sums[t], v)) else v
  }

  /** The calls of a task accumulate the same values as in the first pass, so each of them gets the right base. */
  lemma {:induction false} SecondPass<V(!new)>(sizes: seq<nat>, calls: seq<Call>, func: Call -> V,
                                               func1: (Call, V) -> V, red: (V, V) -> V, identity: V,
                                               sum: V, g: (Call, V) -> V, from: nat, to: nat)
    requires Monoid(red, identity) && Splits(sizes, func, red) && SameValues(sizes, func, func1, red, identity)
    requires Tiles(sizes, calls, from, to) && from <= Total(sizes) && to <= Total(sizes)
    requires sum == Before(sizes, func, red, identity, from) && forall c, v :: g(c, v) == func1(c, red(sum, v))
    ensures from <= to && Accumulate(calls, g, red, identity) == Fold(red, identity, Leaves(sizes, func)[from..to])
    ensures red(sum, Accumulate(calls, g, red, identity)) == Before(sizes, func, red, identity, to)
  {
    hide Fold, Leaves;
    var s := Leaves(sizes, func);
    TilesCalls(sizes, calls, from, to);
    if calls == [] {
      FoldEmpty(red, identity, s);
      assert s[from..from] == s[..0];
    } else {
      var m, c := |calls| - 1, calls[|calls| - 1];
      TilesCalls(sizes, calls[..m], from, c.k);
      SecondPass(sizes, calls[..m], func, func1, red, identity, sum, g, from, c.k);
      CallIsFold(sizes, func, red, identity, c);
      SliceJoin(s, from, c.k, to);
      FoldConcat(red, identity, s[from..c.k], s[c.k..to]);
    }
    FoldSlice(red, identity, s, from, to);
  }

  /** A call of the second pass with the base it was given. */
  datatype Given<V> = Given(call: Call, base: V)

  ghost predicate RightBase<V>(g: Given<V>, sizes: seq<nat>, func: Call -> V, red: (V, V) -> V, identity: V) {
    && ValidCall(sizes, g.call) && End(g.call) <= Total(sizes)
    && g.base == Before(sizes, func, red, identity, g.call.k)
  }

  /** The calls of one task, with their bases. */
  function TaskGiven<V>(log: Log<V>, sum: V, red: (V, V) -> V): (r: seq<Given<V>>)
    requires |log.befores| == |log.calls|
    ensures |r| == |log.calls|
  {
    seq(|log.calls|, n requires 0 <= n < |log.calls| => Given(log.calls[n], red(sum, log.befores[n])))
  }

  function CallsGiven<V>(given: seq<Given<V>>): (r: seq<Call>)
    ensures |r| == |given|
  {
    seq(|given|, n requires 0 <= n < |given| => given[n].call)
  }

  lemma GivenAppend<V>(given: seq<Given<V>>, log: Log<V>, sum: V, red: (V, V) -> V)
    requires |log.befores| == |log.calls|
    ensures CallsGiven(given + TaskGiven(log, sum, red)) == CallsGiven(given) + log.calls
  {}

  lemma WithBaseIs<V>(func1: (Call, V) -> V, red: (V, V) -> V, sums: seq<V>, t: nat)
    requires t < |sums|
    ensures forall c, v :: OfTask(WithBase(func1, red, sums), t)(c, v) == func1(c, red(sums[t], v))
  {}

  lemma TilesNone(sizes: seq<nat>, k: nat)
    ensures Tiles(sizes, [], k, k)
  {}

  lemma TaskBases<V(!new)>(sizes: seq<nat>, tasks: nat, t: nat, log: Log<V>, func: Call -> V, func1: (Call, V) -> V,
                           red: (V, V) -> V, identity: V,
                           sum: V, g: (Call, V) -> V)
    requires Monoid(red, identity) && Splits(sizes, func, red) && SameValues(sizes, func, func1, red, identity)
    requires t < tasks && TaskLog(sizes, tasks, t, log, g, red, identity)
    requires forall c, v :: g(c, v) == func1(c, red(sum, v))
    requires BaseSum(sum, Leaves(sizes, func), tasks, t, identity, red)
    ensures |log.befores| == |log.calls|
    ensures forall n :: 0 <= n < |log.calls| ==> RightBase(TaskGiven(log, sum, red)[n], sizes, func, red, identity)
    ensures Piece(log.value, Leaves(sizes, func), tasks, t, identity, red)
  {
    hide Fold, Leaves, Cut;
    var from, to := Cut(Total(sizes), tasks, t), Cut(Total(sizes), tasks, t + 1);
    CutMono(Total(sizes), tasks, t, t + 1);
    SecondPass(sizes, log.calls, func, func1, red, identity, sum, g, from, to);
    TilesCalls(sizes, log.calls, from, to);
    forall n | 0 <= n < |log.calls| ensures RightBase(TaskGiven(log, sum, red)[n], sizes, func, red, identity) {
      TilesPrefix(sizes, log.calls, from, to, n);
      CallInside(sizes, log.calls[n]);
      SecondPass(sizes, log.calls[..n], func, func1, red, identity, sum, g, from, log.calls[n].k);
    }
  }

  lemma CallsOfStep<V>(logs: seq<Log<V>>, t: nat)
    requires t < |logs|
    ensures CallsOf(logs, t + 1) == CallsOf(logs, t) + logs[t].calls
  {}

  lemma CallsOfNone<V>(logs: seq<Log<V>>)
    ensures CallsOf(logs, 0) == []
  {}

  /** Second pass: `parallel_for_for_prefix_sum1_`. Every call is given the value of everything before it. */
  method PrefixSum1<V(0,!new)>(state: State, ps: PrefixSumState<V>, sizes: seq<nat>, identity: V,
                               func1: (Call, V) -> V, red: (V, V) -> V,
                               ghost func: Call -> V) returns (sum: V, given: seq<Given<V>>)
    requires state.Valid(sizes) && ps.Valid() && Monoid(red, identity) && Splits(sizes, func, red)
    requires SameValues(sizes, func, func1, red, identity)
    requires SumsAre(ps.sums[..], sizes, state.taskCount, func, red, identity)
    modifies ps.counts, ps.sums
    ensures sum == Fold(red, identity, Leaves(sizes, func))
    ensures SumsAre(ps.sums[..], sizes, old(state.taskCount), func, red, identity)
    ensures Tiles(sizes, CallsGiven(given), 0, Total(sizes))
    ensures forall n :: 0 <= n < |given| ==> RightBase(given[n], sizes, func, red, identity)
    ensures forall n :: 0 <= n < |given| ==> CutCall(sizes, old(state.taskCount), given[n].call)
  {
    hide CutCall, CallsOf, LongCalls;
    hide Fold, Leaves, Cut, RightBase, Piece, BaseSum, Tiles, SameValues, Monoid, Splits, WithBase, OfTask;
    var sums := ps.sums[..];
    TilesNone(sizes, 0);
    var f := WithBase(func1, red, sums);
    var logs := RunTasks(state, sizes, f, red, identity);
    ghost var tasks := |logs|;
    given := [];
    CallsOfNone(logs);
    CutEnds(Total(sizes), tasks);
    for t := 0 to |logs|
      invariant Tiles(sizes, CallsGiven(given), 0, Cut(Total(sizes), tasks, t))
      invariant forall n :: 0 <= n < |given| ==> RightBase(given[n], sizes, func, red, identity)
      invariant CallsGiven(given) == CallsOf(logs, t)
      invariant forall u: nat :: u < t ==> Piece(logs[u].value, Leaves(sizes, func), tasks, u, identity, red)
    {
      assert BaseSum(sums[t], Leaves(sizes, func), tasks, t, identity, red);
      WithBaseIs(func1, red, sums, t);
      TaskBases(sizes, tasks, t, logs[t], func, func1, red, identity, sums[t], OfTask(f, t));
      var more := TaskGiven(logs[t], sums[t], red);
      GivenAppend(given, logs[t], sums[t], red);
      TilesJoin(sizes, CallsGiven(given), logs[t].calls, 0, Cut(Total(sizes), tasks, t),
                Cut(Total(sizes), tasks, t + 1));
      given := given + more;
      CallsOfStep(logs, t);
    }
    AllTaskCalls(sizes, logs, |logs|);
    forall n | 0 <= n < |given| ensures CutCall(sizes, tasks, given[n].call) {
      assert CallsGiven(given)[n] == given[n].call;
    }
    sum := Finish(ps, logs, identity, red, sizes, func);
  }

  /**
   * With counts as values the output slices `[base, base + count)` follow each other without gap from 0 to the total.
   */
  lemma SlicesTile(sizes: seq<nat>, given: seq<Given<nat>>, func: Call -> nat, n: nat)
    requires Splits(sizes, func, PLUS) && n < |given| && Tiles(sizes, CallsGiven(given), 0, Total(sizes))
    requires forall m :: 0 <= m < |given| ==> RightBase(given[m], sizes, func, PLUS, 0)
    ensures given[n].base == if n == 0 then 0 else given[n - 1].base + func(given[n - 1].call)
    ensures n == |given| - 1 ==> given[n].base + func(given[n].call) == Fold(PLUS, 0, Leaves(sizes, func))
  {
    hide Fold, Leaves, Tiles, Splits;
    TilesNext(sizes, CallsGiven(given), 0, Total(sizes), n);
    FoldEmpty(PLUS, 0, Leaves(sizes, func));
    SliceEnd(sizes, given[n], func);
    if 0 < n { SliceEnd(sizes, given[n - 1], func); }
    assert Leaves(sizes, func)[..Total(sizes)] == Leaves(sizes, func);
  }

  const PLUS: (nat, nat) -> nat := (a: nat, b: nat) => a + b

  lemma SliceEnd(sizes: seq<nat>, g: Given<nat>, func: Call -> nat)
    requires Splits(sizes, func, PLUS) && RightBase(g, sizes, func, PLUS, 0)
    ensures g.base + func(g.call) == Before(sizes, func, PLUS, 0, End(g.call))
  {
    hide Fold, Leaves, Splits;
    CallIsFold(sizes, func, PLUS, 0, g.call);
    FoldSlice(PLUS, 0, Leaves(sizes, func), g.call.k, End(g.call));
  }
}

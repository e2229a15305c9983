/** Reduction over an index range, one task a piece. */
module ParallelReduce {
  import opened Cuts
  import opened Seqs
  import opened Tasks

  const MAX_TASKS: nat := 512

  /** `func` of a range is the reduction of `func` of its two parts. */
  ghost predicate RangeSplits<V(!new)>(func: (nat, nat) -> V, red: (V, V) -> V) {
    forall a: nat, b: nat, c: nat :: a < b < c ==> func(a, c) == red(func(a, b), func(b, c))
  }

  ghost predicate EmptyIsIdentity<V(!new)>(func: (nat, nat) -> V, identity: V) {
    forall a: nat :: func(a, a) == identity
  }

  /** What every reduction of `[a, b)` has to return. */
  ghost function Whole<V>(func: (nat, nat) -> V, identity: V, a: nat, b: nat): V {
    if a < b then func(a, b) else identity
  }

  lemma WholeSplits<V(!new)>(func: (nat, nat) -> V, red: (V, V) -> V, identity: V, a: nat, b: nat, c: nat)
    requires Monoid(red, identity) && RangeSplits(func, red) && a <= b <= c
    requires b < c || EmptyIsIdentity(func, identity)
    ensures Whole(func, identity, a, c) == red(Whole(func, identity, a, b), func(b, c))
  {}

  /** `parallel_reduce_internal` */
  method ParallelReduceInternal<V(!new)>(taskCount0: nat, first: nat, last: nat, threadCount: nat, identity: V,
                                         func: (nat, nat) -> V, red: (V, V) -> V) returns (v: V)
    requires first <= last && 0 < threadCount && (first < last ==> 0 < taskCount0)
    ensures Laws(func, red, identity, taskCount0, last - first) ==> v == Whole(func, identity, first, last)
  {
    hide Laws, Cut, Whole, Min;
    var n, taskCount := last - first, Min(taskCount0, Min(threadCount, MAX_TASKS));
    var values := seq(taskCount, _ => identity);
    var todo := AllTasks(taskCount);
    while todo != {}
      invariant todo <= AllTasks(taskCount) && |values| == taskCount
      invariant forall t: nat :: t < taskCount && t !in todo ==> values[t] == PieceValue(func, first, n, taskCount, t)
      decreases todo
    {
      var t: nat :| t in todo;
      CutMono(n, taskCount, t, t + 1);
      var k0, k1 := first + Cut(n, taskCount, t), first + Cut(n, taskCount, t + 1);
      values := values[t := func(k0, k1)];
      todo := todo - {t};
    }
    v := Combine(values, first, n, taskCount, identity, func, red, taskCount0);
  }

  function PieceValue<V>(func: (nat, nat) -> V, first: nat, n: nat, tasks: nat, t: nat): V
    requires t < tasks
  {
    func(first + Cut(n, tasks, t), first + Cut(n, tasks, t + 1))
  }

  /**
   * The laws under which a reduction in pieces is a reduction; empty pieces only arise with more tasks wanted than
   * items.
   */
  ghost predicate Laws<V(!new)>(func: (nat, nat) -> V, red: (V, V) -> V, identity: V, wanted: nat, n: nat) {
    && Monoid(red, identity)
    && RangeSplits(func, red)
    && (wanted <= n || EmptyIsIdentity(func, identity))
  }

  lemma CombineStep<V(!new)>(func: (nat, nat) -> V, red: (V, V) -> V, identity: V, first: nat, n: nat, tasks: nat,
                             wanted: nat, t: nat)
    requires Laws(func, red, identity, wanted, n) && t < tasks <= wanted
    ensures Whole(func, identity, first, first + Cut(n, tasks, t + 1)) ==
      red(Whole(func, identity, first, first + Cut(n, tasks, t)), PieceValue(func, first, n, tasks, t))
  {
    hide Cut, Monoid, RangeSplits;
    CutMono(n, tasks, t, t + 1);
    if wanted <= n { CutStrict(n, tasks, t, t + 1); }
    WholeSplits(func, red, identity, first, first + Cut(n, tasks, t), first + Cut(n, tasks, t + 1));
  }

  /** The loop over all values. */
  method Combine<V(!new)>(values: seq<V>, ghost first: nat, ghost n: nat, tasks: nat, identity: V,
                          ghost func: (nat, nat) -> V, red: (V, V) -> V, ghost wanted: nat) returns (v: V)
    requires |values| == tasks && (0 < n ==> 0 < tasks) && tasks <= wanted
    requires forall t: nat :: t < tasks ==> values[t] == PieceValue(func, first, n, tasks, t)
    ensures Laws(func, red, identity, wanted, n) ==> v == Whole(func, identity, first, first + n)
  {
    hide Laws, Cut, PieceValue;
    v := identity;
    if 0 < tasks { CutEnds(n, tasks); }
    for i := 0 to tasks
      invariant 0 < tasks && Laws(func, red, identity, wanted, n) ==>
        v == Whole(func, identity, first, first + Cut(n, tasks, i))
      invariant i == 0 ==> v == identity
    {
      if Laws(func, red, identity, wanted, n) { CombineStep(func, red, identity, first, n, tasks, wanted, i); }
      v := red(v, values[i]);
    }
  }

  /**
   * `parallel_reduce` with internal tasking: what a single call over the whole range returns, whatever the number of
   * tasks.
   */
  method ParallelReduceRange<V(!new)>(first: nat, last: nat, minStepSize: nat, threadCount: nat, identity: V,
                                      func: (nat, nat) -> V, red: (V, V) -> V) returns (v: V)
    requires first <= last && 0 < minStepSize && 0 < threadCount
    ensures Monoid(red, identity) && RangeSplits(func, red) ==> v == Whole(func, identity, first, last)
  {
    BlocksBounds(last - first, minStepSize);
    var taskCount := (last - first + minStepSize - 1) / minStepSize;
    if taskCount == 1 {
      v := func(first, last);
    } else {
      v := ParallelReduceInternal(taskCount, first, last, threadCount, identity, func, red);
    }
  }

  /** With a threshold for parallel work. An empty range below the threshold gives `func` of it, not the identity. */
  method ParallelReduceThreshold<V(!new)>(first: nat, last: nat, minStepSize: nat, threshold: nat, threadCount: nat,
                                          identity: V,
                                          func: (nat, nat) -> V, red: (V, V) -> V) returns (v: V)
    requires first <= last && 0 < minStepSize && 0 < threadCount
    ensures Monoid(red, identity) && RangeSplits(func, red) ==>
      v == if first == last && 0 < threshold then func(first, first) else Whole(func, identity, first, last)
  {
    if last - first < threshold {
      v := func(first, last);
    } else {
      v := ParallelReduceRange(first, last, minStepSize, threadCount, identity, func, red);
    }
  }

  // ------------------------------------------------------------ element by element

  function Values<V>(func: nat -> V, a: nat, b: nat): (r: seq<V>)
    requires a <= b
    ensures |r| == b - a
  {
    seq(b - a, i requires 0 <= i => func(a + i))
  }

  /** `funcr`: the fold over one range of indices. */
  function RangeFold<V>(func: nat -> V, red: (V, V) -> V, identity: V): (nat, nat) -> V {
    (a: nat, b: nat) => if a <= b then Fold(red, identity, Values(func, a, b)) else identity
  }

  lemma ValuesJoin<V>(func: nat -> V, a: nat, b: nat, c: nat)
    requires a <= b <= c
    ensures Values(func, a, c) == Values(func, a, b) + Values(func, b, c)
  {}

  lemma RangeFoldSplits<V(!new)>(func: nat -> V, red: (V, V) -> V, identity: V)
    requires Monoid(red, identity)
    ensures RangeSplits(RangeFold(func, red, identity), red)
  {
    hide Fold, Values, Monoid;
    var f := RangeFold(func, red, identity);
    forall a: nat, b: nat, c: nat | a < b < c ensures f(a, c) == red(f(a, b), f(b, c)) {
      FoldConcat(red, identity, Values(func, a, b), Values(func, b, c));
      ValuesJoin(func, a, b, c);
    }
  }

  /** `parallel_reduce` over single indices: the left fold over all indices. */
  method ParallelReduceEach<V(!new)>(first: nat, last: nat, threadCount: nat, identity: V, func: nat -> V,
                                     red: (V, V) -> V) returns (v: V)
    requires first <= last && 0 < threadCount
    ensures Monoid(red, identity) ==> v == Fold(red, identity, Values(func, first, last))
  {
    v := ParallelReduceRange(first, last, 1, threadCount, identity, RangeFold(func, red, identity), red);
    if Monoid(red, identity) { RangeFoldSplits(func, red, identity); }
  }
}

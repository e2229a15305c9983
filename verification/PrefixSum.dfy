/** The two-pass parallel prefix sum. */
module PrefixSum {
  import opened Cuts
  import opened Rearranging
  import opened Seqs
  import opened Tasks

  const MAX_TASKS: nat := 64
  const MIN_STEP_SIZE: nat := 1024

  class PrefixSumState<V(0,!new)> {
    const counts: array<V>
    const sums: array<V>

    ghost predicate Valid() {
      counts != sums && counts.Length == sums.Length == MAX_TASKS
    }

    constructor ()
      ensures Valid() && fresh(counts) && fresh(sums)
    {
      counts, sums := new V[MAX_TASKS], new V[MAX_TASKS];
    }

    /** Between the two parts of a pass: the running sums of what the tasks counted. */
    method Scan(taskCount: nat, identity: V, reduction: (V, V) -> V) returns (sum: V)
      requires Valid() && taskCount <= MAX_TASKS
      modifies sums
      ensures sum == Fold(reduction, identity, counts[..taskCount])
      ensures forall i :: 0 <= i < taskCount ==> sums[i] == Fold(reduction, identity, counts[..i])
    {
      sum := identity;
      ghost var cs := counts[..];
      for i := 0 to taskCount
        invariant counts[..] == cs && sum == Fold(reduction, identity, cs[..i])
        invariant forall j :: 0 <= j < i ==> sums[j] == Fold(reduction, identity, cs[..j])
      {
        var c := counts[i];
        sums[i] := sum;
        FoldSnoc(reduction, identity, cs, i);
        sum := reduction(sum, c);
      }
      assert forall i :: 0 <= i <= taskCount ==> counts[..i] == cs[..i];
    }
  }

  /** The single-threaded loop. */
  method SequentialPrefixSum<V>(src: array<V>, dst: array<V>, N: nat, identity: V, add: (V, V) -> V) returns (sum: V)
    requires src != dst && N <= src.Length && N <= dst.Length
    modifies dst
    ensures sum == Fold(add, identity, src[..N])
    ensures forall i :: 0 <= i < N ==> dst[i] == Fold(add, identity, src[..i])
    ensures forall i :: N <= i < dst.Length ==> dst[i] == old(dst[i])
  {
    sum := identity;
    ghost var s := src[..];
    for i := 0 to N
      invariant src[..] == s && sum == Fold(add, identity, s[..i])
      invariant forall j :: 0 <= j < i ==> dst[j] == Fold(add, identity, s[..j])
      invariant forall j :: N <= j < dst.Length ==> dst[j] == old(dst[j])
    {
      dst[i] := sum;
      FoldSnoc(add, identity, s, i);
      sum := add(sum, src[i]);
    }
    assert forall i :: 0 <= i <= N ==> src[..i] == s[..i];
  }

  // ------------------------------------------------------------ the counts of the pieces

  /** The counts are the sums of the pieces. */
  ghost predicate Counted<V>(cs: seq<V>, s: seq<V>, tasks: nat, identity: V, add: (V, V) -> V) {
    && tasks <= |cs|
    && forall t: nat :: t < tasks ==> Piece(cs[t], s, tasks, t, identity, add)
  }

  ghost predicate Piece<V>(c: V, s: seq<V>, tasks: nat, t: nat, identity: V, add: (V, V) -> V)
    requires t < tasks
  {
    && Cut(|s|, tasks, t) <= Cut(|s|, tasks, t + 1) <= |s|
    && c == Fold(add, identity, s[Cut(|s|, tasks, t)..Cut(|s|, tasks, t + 1)])
  }

  /** The sum of the first `t` counts is the sum of everything before piece `t`. */
  lemma {:induction false} CountsAdd<V(!new)>(cs: seq<V>, s: seq<V>, tasks: nat, identity: V, add: (V, V) -> V, t: nat)
    requires Monoid(add, identity) && Counted(cs, s, tasks, identity, add) && t <= tasks && 0 < tasks
    ensures Cut(|s|, tasks, t) <= |s|
    ensures Fold(add, identity, cs[..t]) == Fold(add, identity, s[..Cut(|s|, tasks, t)])
  {
    hide Fold, Monoid, Cut;
    CutEnds(|s|, tasks);
    FoldEmpty(add, identity, cs);
    FoldEmpty(add, identity, s);
    if t != 0 {
      CountsAdd(cs, s, tasks, identity, add, t - 1);
      assert Piece(cs[t - 1], s, tasks, t - 1, identity, add);
      FoldSnoc(add, identity, cs, t - 1);
      FoldSlice(add, identity, s, Cut(|s|, tasks, t - 1), Cut(|s|, tasks, t));
    }
  }

  method SumRange<V>(src: array<V>, begin: nat, end: nat, identity: V, add: (V, V) -> V) returns (s: V)
    requires begin <= end <= src.Length
    ensures s == Fold(add, identity, src[begin..end])
  {
    s := identity;
    for i := begin to end
      invariant s == Fold(add, identity, src[begin..i])
    {
      assert src[begin..i + 1] == src[begin..i] + [src[i]];
      s := add(s, src[i]);
    }
  }

  /** The first pass: every task, in any order, adds up its own piece, which gives all tasks their start values. */
  method InitialRun<V(0,!new)>(state: PrefixSumState<V>, src: array<V>, N: nat, tasks: nat, identity: V,
                               add: (V, V) -> V)
    requires state.Valid() && N <= src.Length && src != state.counts && src != state.sums && tasks <= MAX_TASKS
    modifies state.counts, state.sums
    ensures Counted(state.counts[..], src[..N], tasks, identity, add)
    ensures forall t :: 0 <= t < tasks ==> state.sums[t] == Fold(add, identity, state.counts[..t])
  {
    ghost var s := src[..N];
    var todo := AllTasks(tasks);
    while todo != {}
      invariant todo <= AllTasks(tasks) && src[..N] == s
      invariant forall t: nat :: t < tasks && t !in todo ==> Piece(state.counts[t], s, tasks, t, identity, add)
      decreases todo
    {
      var t: nat :| t in todo;
      CutMono(N, tasks, t, t + 1);
      var i0, i1 := Cut(N, tasks, t), Cut(N, tasks, t + 1);
      var c := SumRange(src, i0, i1, identity, add);
      assert src[i0..i1] == s[i0..i1];
      state.counts[t] := c;
      todo := todo - {t};
    }
    ghost var cs := state.counts[..];
    var sum := state.Scan(tasks, identity, add);
    assert state.counts[..] == cs;
  }

  // ------------------------------------------------------------ the final run, step by step

  /**
   * A task of the final run: the element it writes next, and the sum of its elements so far.
   * After its last element it makes one more step, in which it stores its count.
   */
  datatype Scanner<V> = Scanner(next: nat, s: V)

  ghost predicate ScannerAt<V>(c: Scanner<V>, left: nat, s: seq<V>, tasks: nat, t: nat, identity: V, add: (V, V) -> V)
    requires t < tasks
  {
    && Cut(|s|, tasks, t) <= c.next <= Cut(|s|, tasks, t + 1) <= |s|
    && (left == Cut(|s|, tasks, t + 1) - c.next + 1 || (left == 0 && c.next == Cut(|s|, tasks, t + 1)))
    && c.s == Fold(add, identity, s[Cut(|s|, tasks, t)..c.next])
  }

  ghost predicate ScannersAt<V>(cs: seq<Scanner<V>>, left: seq<nat>, s: seq<V>, identity: V, add: (V, V) -> V) {
    && |cs| == |left|
    && forall t: nat :: t < |cs| ==> ScannerAt(cs[t], left[t], s, |cs|, t, identity, add)
  }

  /** What the tasks have written so far. */
  ghost predicate Written<V>(cs: seq<Scanner<V>>, d: seq<V>, s: seq<V>, identity: V, add: (V, V) -> V)
    requires |s| <= |d|
  {
    forall t: nat, i: nat :: t < |cs| && Cut(|s|, |cs|, t) <= i < cs[t].next && i < |s| ==>
      d[i] == Fold(add, identity, s[..i])
  }

  function Next<V>(c: Scanner<V>, x: V, add: (V, V) -> V): Scanner<V> {
    Scanner(c.next + 1, add(c.s, x))
  }

  lemma ScannerNext<V>(c: Scanner<V>, left: nat, s: seq<V>, tasks: nat, t: nat, identity: V, add: (V, V) -> V)
    requires t < tasks && ScannerAt(c, left, s, tasks, t, identity, add) && 1 < left
    ensures c.next < |s| && ScannerAt(Next(c, s[c.next], add), left - 1, s, tasks, t, identity, add)
  {
    hide Cut;
    var first := Cut(|s|, tasks, t);
    SliceSnoc(s, first, c.next + 1);
    FoldLast(add, identity, s[first..c.next], s[c.next]);
  }

  /** The value a task writes is the prefix sum: the sum before its piece, and the sum inside it. */
  lemma ScannerWrites<V(!new)>(c: Scanner<V>, left: nat, s: seq<V>, tasks: nat, t: nat, sum: V, identity: V,
                               add: (V, V) -> V)
    requires Monoid(add, identity) && t < tasks && ScannerAt(c, left, s, tasks, t, identity, add) && 1 < left
    requires Cut(|s|, tasks, t) <= |s| && sum == Fold(add, identity, s[..Cut(|s|, tasks, t)])
    ensures c.next < |s| && add(sum, c.s) == Fold(add, identity, s[..c.next])
  {
    FoldSlice(add, identity, s, Cut(|s|, tasks, t), c.next);
  }

  lemma WrittenStep<V>(cs: seq<Scanner<V>>, d: seq<V>, s: seq<V>, t: nat, c: Scanner<V>, v: V, identity: V,
                       add: (V, V) -> V)
    requires t < |cs| && |s| <= |d| && cs[t].next < |s| && Written(cs, d, s, identity, add)
    requires c.next == cs[t].next + 1 && v == Fold(add, identity, s[..cs[t].next])
    ensures Written(cs[t := c], d[cs[t].next := v], s, identity, add)
  {
    hide Cut, Fold;
  }

  lemma AllWritten<V>(cs: seq<Scanner<V>>, left: seq<nat>, d: seq<V>, s: seq<V>, identity: V, add: (V, V) -> V)
    requires 0 < |cs| && ScannersAt(cs, left, s, identity, add) && |s| <= |d| && Written(cs, d, s, identity, add)
    requires forall t :: 0 <= t < |left| ==> left[t] == 0
    ensures forall i :: 0 <= i < |s| ==> d[i] == Fold(add, identity, s[..i])
  {
    forall i: nat | i < |s| ensures d[i] == Fold(add, identity, s[..i]) {
      CutEnds(|s|, |cs|);
      var t := OwnerExists(|s|, |cs|, |cs|, i);
      assert ScannerAt(cs[t], left[t], s, |cs|, t, identity, add);
    }
  }

  method Start<V>(tasks: nat, N: nat, identity: V, ghost s: seq<V>, ghost d: seq<V>, add: (V, V) -> V)
      returns (cs: seq<Scanner<V>>, left: seq<nat>)
    requires N == |s| <= |d|
    ensures |cs| == tasks && ScannersAt(cs, left, s, identity, add) && Written(cs, d, s, identity, add)
  {
    cs := seq(tasks, t requires 0 <= t < tasks => Scanner(Cut(N, tasks, t), identity));
    left := seq(tasks, t requires 0 <= t < tasks => PieceLength(N, tasks, t));
    forall t: nat | t < tasks ensures ScannerAt(cs[t], left[t], s, tasks, t, identity, add) {
      CutMono(N, tasks, t, t + 1);
    }
  }

  function PieceLength(n: nat, tasks: nat, t: nat): nat
    requires t < tasks
  {
    CutMono(n, tasks, t, t + 1);
    Cut(n, tasks, t + 1) - Cut(n, tasks, t) + 1
  }

  /** The start values of the tasks are the sums before their pieces. */
  ghost predicate BaseSum<V>(sum: V, s: seq<V>, tasks: nat, t: nat, identity: V, add: (V, V) -> V)
    requires t < tasks
  {
    Cut(|s|, tasks, t) <= |s| && sum == Fold(add, identity, s[..Cut(|s|, tasks, t)])
  }

  lemma BaseSums<V(!new)>(sums: seq<V>, counts: seq<V>, s: seq<V>, tasks: nat, identity: V, add: (V, V) -> V)
    requires Monoid(add, identity) && Counted(counts, s, tasks, identity, add) && tasks <= |sums|
    requires forall t :: 0 <= t < tasks ==> sums[t] == Fold(add, identity, counts[..t])
    ensures forall t: nat :: t < tasks ==> BaseSum(sums[t], s, tasks, t, identity, add)
  {
    forall t: nat | t < tasks ensures BaseSum(sums[t], s, tasks, t, identity, add) {
      CountsAdd(counts, s, tasks, identity, add, t);
    }
  }

  /** A task behind its last element has summed its piece. */
  lemma ScannerCount<V>(c: Scanner<V>, s: seq<V>, tasks: nat, t: nat, identity: V, add: (V, V) -> V)
    requires t < tasks && ScannerAt(c, 1, s, tasks, t, identity, add)
    ensures Piece(c.s, s, tasks, t, identity, add) && ScannerAt(c, 0, s, tasks, t, identity, add)
  {}

  lemma CountedUpdate<V>(cs: seq<V>, s: seq<V>, tasks: nat, t: nat, v: V, identity: V, add: (V, V) -> V)
    requires Counted(cs, s, tasks, identity, add) && t < tasks && Piece(v, s, tasks, t, identity, add)
    ensures Counted(cs[t := v], s, tasks, identity, add)
  {}

  /** One step of task `t` of the final run. */
  method FinalStep<V(0,!new)>(state: PrefixSumState<V>, src: array<V>, dst: array<V>, ghost N: nat, ghost tasks: nat,
                              t: nat, c: Scanner<V>, left: nat,
                              identity: V, add: (V, V) -> V, ghost s: seq<V>) returns (next: Scanner<V>)
    requires state.Valid() && N <= src.Length && N <= dst.Length && t < tasks <= MAX_TASKS && s == src[..N]
    requires src != dst && dst != state.counts && dst != state.sums && src != state.counts && src != state.sums
    requires Monoid(add, identity) && Counted(state.counts[..], s, tasks, identity, add)
    requires BaseSum(state.sums[t], s, tasks, t, identity, add) && ScannerAt(c, left, s, tasks, t, identity, add)
    requires 0 < left
    modifies dst, state.counts
    ensures Counted(state.counts[..], s, tasks, identity, add) && ScannerAt(next, left - 1, s, tasks, t, identity, add)
    ensures left == 1 ==> next == c && dst[..] == old(dst[..])
    ensures 1 < left ==>
      c.next < N && next.next == c.next + 1 && dst[..] == old(dst[..])[c.next := Fold(add, identity, s[..c.next])]
  {
    if left == 1 {
      ScannerCount(c, s, tasks, t, identity, add);
      CountedUpdate(state.counts[..], s, tasks, t, c.s, identity, add);
      Put(state.counts, t, c.s);
      next := c;
    } else {
      ScannerNext(c, left, s, tasks, t, identity, add);
      ScannerWrites(c, left, s, tasks, t, state.sums[t], identity, add);
      next := Next(c, src[c.next], add);
      Put(dst, c.next, add(state.sums[t], c.s));
    }
  }

  /** The second pass: the tasks write their prefix sums, interleaved step by step in any order. */
  method FinalRun<V(0,!new)>(state: PrefixSumState<V>, src: array<V>, dst: array<V>, N: nat, tasks: nat, identity: V,
                             add: (V, V) -> V)
      returns (sum: V)
    requires state.Valid() && N <= src.Length && N <= dst.Length && tasks <= MAX_TASKS && (0 < N ==> 0 < tasks)
    requires src != dst && dst != state.counts && dst != state.sums && src != state.counts && src != state.sums
    requires Monoid(add, identity) && Counted(state.counts[..], src[..N], tasks, identity, add)
    requires forall t :: 0 <= t < tasks ==> state.sums[t] == Fold(add, identity, state.counts[..t])
    modifies dst, state.counts, state.sums
    ensures forall i :: 0 <= i < N ==> dst[i] == Fold(add, identity, src[..i])
    ensures forall i :: N <= i < dst.Length ==> dst[i] == old(dst[i])
    ensures sum == Fold(add, identity, src[..N])
  {
    hide Cut, Fold, ScannerAt, Counted, Monoid, BaseSum, Written;
    ghost var s := src[..N];
    ghost var sums := state.sums[..];
    BaseSums(sums, state.counts[..], s, tasks, identity, add);
    var cs, left := Start(tasks, N, identity, s, dst[..], add);
    while exists t :: 0 <= t < tasks && 0 < left[t]
      invariant |cs| == tasks && src[..N] == s && state.sums[..] == sums
      invariant Counted(state.counts[..], s, tasks, identity, add)
      invariant ScannersAt(cs, left, s, identity, add) && Written(cs, dst[..], s, identity, add)
      invariant forall i :: N <= i < dst.Length ==> dst[i] == old(dst[i])
      decreases Work(left)
    {
      var t: nat :| t < tasks && 0 < left[t];
      WorkStep(left, t);
      assert ScannerAt(cs[t], left[t], s, tasks, t, identity, add);
      ghost var d := dst[..];
      var next := FinalStep(state, src, dst, N, tasks, t, cs[t], left[t], identity, add, s);
      if left[t] == 1 {
        assert cs[t := next] == cs;
      } else {
        WrittenStep(cs, d, s, t, next, Fold(add, identity, s[..cs[t].next]), identity, add);
      }
      cs, left := cs[t := next], left[t := left[t] - 1];
    }
    if 0 < tasks { AllWritten(cs, left, dst[..], s, identity, add); }
    sum := ScanTotal(state, src, N, tasks, identity, add, s);
    assert forall i :: 0 <= i <= N ==> src[..i] == s[..i];
  }

  /** The scan after the final run gives the whole sum. */
  method ScanTotal<V(0,!new)>(state: PrefixSumState<V>, ghost src: array<V>, ghost N: nat, tasks: nat, identity: V,
                              add: (V, V) -> V, ghost s: seq<V>) returns (sum: V)
    requires state.Valid() && tasks <= MAX_TASKS && (0 < |s| ==> 0 < tasks)
    requires Monoid(add, identity) && Counted(state.counts[..], s, tasks, identity, add)
    modifies state.sums
    ensures sum == Fold(add, identity, s)
  {
    ghost var cs := state.counts[..];
    WholeSum(cs, s, tasks, identity, add);
    sum := state.Scan(tasks, identity, add);
  }

  lemma WholeSum<V(!new)>(cs: seq<V>, s: seq<V>, tasks: nat, identity: V, add: (V, V) -> V)
    requires Monoid(add, identity) && Counted(cs, s, tasks, identity, add) && (0 < |s| ==> 0 < tasks)
    ensures tasks <= |cs| && Fold(add, identity, cs[..tasks]) == Fold(add, identity, s)
  {
    hide Fold, Cut, Monoid, Piece;
    FoldEmpty(add, identity, cs);
    FoldEmpty(add, identity, s);
    if 0 < tasks {
      CountsAdd(cs, s, tasks, identity, add, tasks);
      CutEnds(|s|, tasks);
      assert s[..|s|] == s;
    } else {
      assert s[..0] == s;
    }
  }

  /** `parallel_prefix_sum`: for a monoid always the single-threaded result. */
  method ParallelPrefixSum<V(0,!new)>(src: array<V>, dst: array<V>, N: nat, identity: V, add: (V, V) -> V,
                                      threshold: nat, threadCount: nat)
      returns (sum: V)
    requires src != dst && N <= src.Length && N <= dst.Length && 0 < threadCount
    requires threshold <= N ==> Monoid(add, identity)
    modifies dst
    ensures forall i :: 0 <= i < N ==> dst[i] == Fold(add, identity, src[..i])
    ensures forall i :: N <= i < dst.Length ==> dst[i] == old(dst[i])
    ensures sum == Fold(add, identity, src[..N])
  {
    if N < threshold {
      sum := SequentialPrefixSum(src, dst, N, identity, add);
    } else {
      var state := new PrefixSumState();
      var taskCount := TaskCount(N, MIN_STEP_SIZE, threadCount, MAX_TASKS);
      InitialRun(state, src, N, taskCount, identity, add);
      sum := FinalRun(state, src, dst, N, taskCount, identity, add);
    }
  }
}

/** Loops over the elements of jagged arrays, cut into equal flat ranges. */
module ForFor {
  import opened Cuts
  import opened JaggedArrays
  import opened Seqs
  import opened Tasks

  const MAX_TASKS: nat := 64

  /** `(i, j)` is a place to start iterating from flat index `k`; `j` may stand behind the last element of array `i`. */
  ghost predicate StartsAt(sizes: seq<nat>, i: nat, j: nat, k: nat) {
    && i <= |sizes| && Prefix(sizes, i) + j == k
    && j <= if i < |sizes| then sizes[i] else 0
  }

  /** Where the task for the flat range from `k` on starts: behind an element of its array, or at the very beginning. */
  ghost predicate TaskStart(sizes: seq<nat>, i: nat, j: nat, k: nat) {
    StartsAt(sizes, i, j, k) && if k == 0 then i == 0 && j == 0 else 0 < j
  }

  /** The number of tasks: at least one. */
  function NumTasks(sizes: seq<nat>, minStepSize: nat, threadCount: nat): (tasks: nat)
    requires 0 < minStepSize
    ensures 0 < tasks <= MAX_TASKS
  {
    var numBlocks := TaskCount(Total(sizes), minStepSize, threadCount, MAX_TASKS);
    if numBlocks == 0 then 1 else numBlocks
  }

  class State {
    var i0: array<nat>
    var j0: array<nat>
    var taskCount: nat
    var N: nat

    ghost predicate Valid(sizes: seq<nat>)
      reads this, i0, j0
    {
      && i0 != j0 && i0.Length == j0.Length == MAX_TASKS && 0 < taskCount <= MAX_TASKS && N == Total(sizes)
      && forall t :: 0 <= t < taskCount ==> TaskStart(sizes, i0[t], j0[t], Cut(N, taskCount, t))
    }

    constructor (sizes: seq<nat>, minStepSize: nat, threadCount: nat)
      requires 0 < minStepSize && 0 < threadCount
      ensures Valid(sizes) && taskCount == NumTasks(sizes, minStepSize, threadCount) && fresh(i0) && fresh(j0)
    {
      i0, j0 := new nat[MAX_TASKS], new nat[MAX_TASKS];
      taskCount, N := 1, 0;
      new;
      Init(sizes, minStepSize, threadCount);
    }

    /** `init`: where every task starts. */
    method Init(sizes: seq<nat>, minStepSize: nat, threadCount: nat)
      requires 0 < minStepSize && 0 < threadCount
      requires i0 != j0 && i0.Length == j0.Length == MAX_TASKS
      modifies this`taskCount, this`N, i0, j0
      ensures Valid(sizes) && taskCount == NumTasks(sizes, minStepSize, threadCount)
    {
      hide Cut;
      N := SumSizes(sizes);
      var numBlocks := TaskCount(N, minStepSize, threadCount, MAX_TASKS);
      taskCount := if numBlocks == 0 then 1 else numBlocks;
      ghost var n, tasks := N, taskCount;
      i0[0], j0[0] := 0, 0;
      CutEnds(N, taskCount);
      var taskIndex, k0 := 1, Cut(N, taskCount, 1);
      if 1 < taskCount { CutStrict(N, taskCount, 0, 1); }
      var i, k := 0, 0;
      while taskIndex < taskCount
        invariant N == n && taskCount == tasks
        invariant 1 <= taskIndex <= taskCount && i <= |sizes| && k == Prefix(sizes, i)
        invariant k0 == Cut(N, taskCount, taskIndex) && (taskIndex < taskCount ==> k < k0 <= N)
        invariant forall t :: 0 <= t < taskIndex ==> TaskStart(sizes, i0[t], j0[t], Cut(N, taskCount, t))
        decreases |sizes| - i
      {
        taskIndex, k0 := CutArray(sizes, i, k, taskIndex, k0);
        k := k + sizes[i];
        i := i + 1;
      }
    }

    /** The inner loop: the tasks that start in array `i`. */
    method CutArray(sizes: seq<nat>, i: nat, first: nat, taskIndex0: nat, next: nat) returns (taskIndex: nat, k0: nat)
      requires i0 != j0 && i0.Length == j0.Length == MAX_TASKS && 0 < taskCount <= MAX_TASKS && N == Total(sizes)
      requires 1 < taskCount ==> taskCount <= N
      requires i < |sizes| && first == Prefix(sizes, i) && 1 <= taskIndex0 < taskCount
      requires next == Cut(N, taskCount, taskIndex0) && first < next <= N
      requires forall t :: 0 <= t < taskIndex0 ==> TaskStart(sizes, i0[t], j0[t], Cut(N, taskCount, t))
      modifies i0, j0
      ensures taskIndex0 <= taskIndex <= taskCount && k0 == Cut(N, taskCount, taskIndex)
      ensures taskIndex < taskCount ==> Prefix(sizes, i + 1) < k0 <= N
      ensures forall t :: 0 <= t < taskIndex ==> TaskStart(sizes, i0[t], j0[t], Cut(N, taskCount, t))
    {
      hide Cut;
      taskIndex, k0 := taskIndex0, next;
      var j, k, M := 0, first, sizes[i];
      while j < M && k + M - j >= k0 && taskIndex < taskCount
        invariant taskIndex0 <= taskIndex <= taskCount && 0 <= j <= M && k == first + j
        invariant k0 == Cut(N, taskCount, taskIndex) && (taskIndex < taskCount ==> k < k0 <= N)
        invariant forall t :: 0 <= t < taskIndex ==> TaskStart(sizes, i0[t], j0[t], Cut(N, taskCount, t))
        decreases taskCount - taskIndex
      {
        i0[taskIndex] := i;
        j := j + k0 - k;
        j0[taskIndex] := j;
        k := k0;
        CutStrict(N, taskCount, taskIndex, taskIndex + 1);
        taskIndex := taskIndex + 1;
        k0 := Cut(N, taskCount, taskIndex);
      }
    }
  }

  method SumSizes(sizes: seq<nat>) returns (n: nat)
    ensures n == Total(sizes)
  {
    n := 0;
    for i := 0 to |sizes|
      invariant n == Prefix(sizes, i)
    {
      n := n + sizes[i];
    }
  }

  /** The value after the calls: `acc = reduction(acc, func(call, acc))` for each of them. */
  function Accumulate<V>(calls: seq<Call>, func: (Call, V) -> V, red: (V, V) -> V, acc: V): V {
    if calls == [] then acc else
      var before := Accumulate(calls[..|calls| - 1], func, red, acc);
      red(before, func(calls[|calls| - 1], before))
  }

  lemma AccumulateSnoc<V>(calls: seq<Call>, c: Call, func: (Call, V) -> V, red: (V, V) -> V, acc: V)
    ensures Accumulate(calls + [c], func, red, acc)
         == red(Accumulate(calls, func, red, acc), func(c, Accumulate(calls, func, red, acc)))
  {
    assert (calls + [c])[..|calls|] == calls;
  }

  /** `befores[n]` is the accumulated value that call `n` is given. */
  ghost predicate Befores<V>(calls: seq<Call>, befores: seq<V>, func: (Call, V) -> V, red: (V, V) -> V, acc: V) {
    |befores| == |calls| && forall n :: 0 <= n < |calls| ==> befores[n] == Accumulate(calls[..n], func, red, acc)
  }

  lemma BeforesSnoc<V>(calls: seq<Call>, c: Call, befores: seq<V>, func: (Call, V) -> V, red: (V, V) -> V, acc: V)
    requires Befores(calls, befores, func, red, acc)
    ensures Befores(calls + [c], befores + [Accumulate(calls, func, red, acc)], func, red, acc)
  {
    forall n | 0 <= n <= |calls| ensures (calls + [c])[..n] == calls[..n] {}
    assert calls[..|calls|] == calls;
  }

  /** Call `n` begins with its array unless it is the first one, and ends with it unless it is the last one. */
  ghost predicate LongCall(sizes: seq<nat>, calls: seq<Call>, n: nat)
    requires n < |calls|
  {
    && (0 < n ==> calls[n].r0 == 0)
    && (n < |calls| - 1 ==> calls[n].i < |sizes| && calls[n].r1 == sizes[calls[n].i])
  }

  /** The calls are as long as the arrays allow. */
  ghost predicate LongCalls(sizes: seq<nat>, calls: seq<Call>) {
    forall n: nat :: n < |calls| ==> LongCall(sizes, calls, n)
  }

  lemma LongSnoc(sizes: seq<nat>, calls: seq<Call>, c: Call)
    requires LongCalls(sizes, calls)
    requires calls != [] ==> c.r0 == 0 && EndsArray(sizes, calls[|calls| - 1])
    ensures LongCalls(sizes, calls + [c])
  {
    forall n: nat | n < |calls| + 1 ensures LongCall(sizes, calls + [c], n) {
      if n < |calls| { assert LongCall(sizes, calls, n); }
    }
  }

  ghost predicate EndsArray(sizes: seq<nat>, c: Call) {
    c.i < |sizes| && c.r1 == sizes[c.i]
  }

  /** The body of a task: iterates over the arrays from `(i0, j0)` until the flat range `[k0, k1)` is used up. */
  method Walk<V>(sizes: seq<nat>, i0: nat, j: nat, k0: nat, k1: nat, func: (Call, V) -> V, red: (V, V) -> V, acc0: V)
      returns (calls: seq<Call>, befores: seq<V>, acc: V)
    requires k0 <= k1 <= Total(sizes) && StartsAt(sizes, i0, j, k0)
    ensures Tiles(sizes, calls, k0, k1) && acc == Accumulate(calls, func, red, acc0)
    ensures Befores(calls, befores, func, red, acc0) && LongCalls(sizes, calls)
  {
    calls, befores, acc := [], [], acc0;
    var k: nat, i: nat, j0: nat := k0, i0, j;
    while k < k1
      invariant k <= k1 && i <= |sizes| && (k < k1 ==> StartsAt(sizes, i, j0, k))
      invariant Tiles(sizes, calls, k0, k) && acc == Accumulate(calls, func, red, acc0)
      invariant Befores(calls, befores, func, red, acc0) && LongCalls(sizes, calls)
      invariant calls != [] ==> j0 == 0 && (k < k1 ==> EndsArray(sizes, calls[|calls| - 1]))
      decreases |sizes| - i
    {
      var size, r0 := sizes[i], j0;
      var r1 := Min(size, r0 + k1 - k);
      if r1 > r0 {
        var c := Call(i, r0, r1, k);
        TilesSnoc(sizes, calls, k0, k, c);
        AccumulateSnoc(calls, c, func, red, acc0);
        BeforesSnoc(calls, c, befores, func, red, acc0);
        LongSnoc(sizes, calls, c);
        befores := befores + [acc];
        acc := red(acc, func(c, acc));
        calls := calls + [c];
      }
      k := k + r1 - r0;
      j0 := 0;
      i := i + 1;
    }
  }

  /** `sequential_for_for`: every array that is not empty, as a whole. */
  method SequentialForFor(sizes: seq<nat>) returns (calls: seq<Call>)
    ensures Tiles(sizes, calls, 0, Total(sizes))
    ensures forall n :: 0 <= n < |calls| ==>
      calls[n].r0 == 0 && calls[n].i < |sizes| && calls[n].r1 == sizes[calls[n].i]
  {
    calls := [];
    var k := 0;
    for i := 0 to |sizes|
      invariant k == Prefix(sizes, i) && Tiles(sizes, calls, 0, k)
      invariant forall n :: 0 <= n < |calls| ==>
        calls[n].r0 == 0 && calls[n].i < |sizes| && calls[n].r1 == sizes[calls[n].i]
    {
      if sizes[i] != 0 {
        TilesSnoc(sizes, calls, 0, k, Call(i, 0, sizes[i], k));
        calls := calls + [Call(i, 0, sizes[i], k)];
      }
      k := k + sizes[i];
    }
  }

  // ------------------------------------------------------------ all tasks

  /** What task `t` has called and returned. */
  datatype Log<V> = Log(calls: seq<Call>, befores: seq<V>, value: V)

  ghost predicate TaskLog<V>(sizes: seq<nat>, tasks: nat, t: nat, log: Log<V>, func: (Call, V) -> V, red: (V, V) -> V,
                             identity: V)
    requires t < tasks
  {
    && Tiles(sizes, log.calls, Cut(Total(sizes), tasks, t), Cut(Total(sizes), tasks, t + 1))
    && log.value == Accumulate(log.calls, func, red, identity)
    && Befores(log.calls, log.befores, func, red, identity)
    && LongCalls(sizes, log.calls)
  }

  /** The bodies of all tasks, one after the other in any order; `func` may depend on the task. */
  method RunTasks<V>(state: State, sizes: seq<nat>, func: (nat, Call, V) -> V, red: (V, V) -> V, identity: V)
      returns (logs: seq<Log<V>>)
    requires state.Valid(sizes)
    ensures |logs| == state.taskCount
    ensures forall t: nat :: t < state.taskCount ==>
      TaskLog(sizes, state.taskCount, t, logs[t], OfTask(func, t), red, identity)
  {
    var tasks := state.taskCount;
    logs := seq(tasks, _ => Log([], [], identity));
    var todo := AllTasks(tasks);
    while todo != {}
      invariant todo <= AllTasks(tasks) && |logs| == tasks
      invariant forall t: nat :: t < tasks && t !in todo ==>
        TaskLog(sizes, tasks, t, logs[t], OfTask(func, t), red, identity)
      decreases todo
    {
      var t: nat :| t in todo;
      CutMono(state.N, tasks, t, t + 1);
      var k0, k1 := Cut(state.N, tasks, t), Cut(state.N, tasks, t + 1);
      var calls, befores, value := Walk(sizes, state.i0[t], state.j0[t], k0, k1, OfTask(func, t), red, identity);
      logs := logs[t := Log(calls, befores, value)];
      todo := todo - {t};
    }
  }

  function OfTask<V>(func: (nat, Call, V) -> V, t: nat): (Call, V) -> V {
    (c: Call, v: V) => func(t, c, v)
  }

  /** All calls of tasks `0..t`, in task order. */
  function CallsOf<V>(logs: seq<Log<V>>, t: nat): seq<Call>
    requires t <= |logs|
  {
    if t == 0 then [] else CallsOf(logs, t - 1) + logs[t - 1].calls
  }

  lemma {:induction false} TilesJoin(sizes: seq<nat>, a: seq<Call>, b: seq<Call>, from: nat, mid: nat, to: nat)
    requires Tiles(sizes, a, from, mid) && Tiles(sizes, b, mid, to)
    ensures Tiles(sizes, a + b, from, to)
  {
    if b == [] {
      assert a + b == a;
    } else {
      var m := |b| - 1;
      TilesJoin(sizes, a, b[..m], from, mid, b[m].k);
      assert (a + b)[..|a + b| - 1] == a + b[..m];
    }
  }

  /** Together the tasks tile the whole index space, however many there are. */
  lemma {:induction false} TasksTile<V>(sizes: seq<nat>, logs: seq<Log<V>>, t: nat)
    requires 0 < |logs| && t <= |logs|
    requires forall u: nat :: u < |logs| ==>
      Tiles(sizes, logs[u].calls, Cut(Total(sizes), |logs|, u), Cut(Total(sizes), |logs|, u + 1))
    ensures Tiles(sizes, CallsOf(logs, t), 0, Cut(Total(sizes), |logs|, t))
  {
    if t == 0 {
      CutEnds(Total(sizes), |logs|);
    } else {
      TasksTile(sizes, logs, t - 1);
      TilesJoin(sizes, CallsOf(logs, t - 1), logs[t - 1].calls, 0, Cut(Total(sizes), |logs|, t - 1),
                Cut(Total(sizes), |logs|, t));
    }
  }

  /** The call ends where its array or a task does, starts likewise, and belongs to one task alone. */
  ghost predicate CutCall(sizes: seq<nat>, tasks: nat, c: Call)
    requires 0 < tasks
  {
    && ValidCall(sizes, c)
    && (c.r0 == 0 || IsCut(Total(sizes), tasks, c.k))
    && (c.r1 == sizes[c.i] || IsCut(Total(sizes), tasks, End(c)))
    && forall t: nat :: t <= tasks ==> Cut(Total(sizes), tasks, t) <= c.k || End(c) <= Cut(Total(sizes), tasks, t)
  }

  ghost predicate IsCut(n: nat, tasks: nat, k: int)
    requires 0 < tasks
  {
    exists t: nat :: t <= tasks && k == Cut(n, tasks, t)
  }

  lemma TaskCalls(sizes: seq<nat>, tasks: nat, t: nat, calls: seq<Call>, n: nat)
    requires t < tasks && n < |calls| && LongCalls(sizes, calls)
    requires Tiles(sizes, calls, Cut(Total(sizes), tasks, t), Cut(Total(sizes), tasks, t + 1))
    ensures CutCall(sizes, tasks, calls[n])
  {
    hide Cut, Tiles;
    var from, to := Cut(Total(sizes), tasks, t), Cut(Total(sizes), tasks, t + 1);
    TilesCalls(sizes, calls, from, to);
    TilesNext(sizes, calls, from, to, n);
    assert LongCall(sizes, calls, n);
    forall u: nat | u <= tasks
      ensures Cut(Total(sizes), tasks, u) <= calls[n].k || End(calls[n]) <= Cut(Total(sizes), tasks, u)
    {
      if u <= t {
        CutMono(Total(sizes), tasks, u, t);
      } else {
        CutMono(Total(sizes), tasks, t + 1, u);
      }
    }
  }

  lemma {:induction false} AllTaskCalls<V>(sizes: seq<nat>, logs: seq<Log<V>>, t: nat)
    requires 0 < |logs| && t <= |logs|
    requires forall u: nat :: u < |logs| ==> LongCalls(sizes, logs[u].calls)
    requires forall u: nat :: u < |logs| ==>
      Tiles(sizes, logs[u].calls, Cut(Total(sizes), |logs|, u), Cut(Total(sizes), |logs|, u + 1))
    ensures forall n :: 0 <= n < |CallsOf(logs, t)| ==> CutCall(sizes, |logs|, CallsOf(logs, t)[n])
  {
    if t != 0 {
      AllTaskCalls(sizes, logs, t - 1);
      var before := |CallsOf(logs, t - 1)|;
      hide CutCall;
      forall n | 0 <= n < |CallsOf(logs, t)| ensures CutCall(sizes, |logs|, CallsOf(logs, t)[n]) {
        if before <= n { TaskCalls(sizes, |logs|, t - 1, logs[t - 1].calls, n - before); }
      }
    }
  }

  /** `parallel_for_for`: taken together the calls visit every element of every array exactly once. */
  method ParallelForFor(sizes: seq<nat>, minStepSize: nat, threadCount: nat) returns (calls: seq<Call>)
    requires 0 < minStepSize && 0 < threadCount
    ensures Tiles(sizes, calls, 0, Total(sizes))
    ensures forall n :: 0 <= n < |calls| ==> ValidCall(sizes, calls[n]) && calls[n].r0 <= calls[n].r1
    ensures Visits(calls) == AllElements(sizes)
    ensures forall n :: 0 <= n < |calls| ==> CutCall(sizes, NumTasks(sizes, minStepSize, threadCount), calls[n])
  {
    var state := new State(sizes, minStepSize, threadCount);
    var logs := RunTasks<()>(state, sizes, (t, c, v) => (), (v, w) => (), ());
    calls := CallsOf(logs, |logs|);
    CutEnds(Total(sizes), |logs|);
    TasksTile(sizes, logs, |logs|);
    AllTaskCalls(sizes, logs, |logs|);
    TilesCalls(sizes, calls, 0, Total(sizes));
    TilesVisits(sizes, calls, 0, Total(sizes));
    assert AllElements(sizes)[0..Total(sizes)] == AllElements(sizes);
  }

  // ------------------------------------------------------------ reductions

  /** `func` of a range is the reduction of `func` of its two parts. */
  ghost predicate Splits<V(!new)>(sizes: seq<nat>, func: Call -> V, red: (V, V) -> V) {
    forall c: Call, m: nat :: ValidCall(sizes, c) && c.r0 < m < c.r1 ==>
      func(c) == red(func(Call(c.i, c.r0, m, c.k)), func(Call(c.i, m, c.r1, c.k + m - c.r0)))
  }

  /** The call for the single element with flat index `k`. */
  function UnitCall(sizes: seq<nat>, k: nat): Call
    requires k < Total(sizes)
  {
    var e := AllElements(sizes)[k];
    Call(e.0, e.1, e.1 + 1, k)
  }

  /** The values of the single elements, by flat index. */
  function Leaves<V>(sizes: seq<nat>, func: Call -> V): (r: seq<V>)
    ensures |r| == Total(sizes)
  {
    seq(Total(sizes), k requires 0 <= k < Total(sizes) => func(UnitCall(sizes, k)))
  }

  lemma LastLeaf<V>(sizes: seq<nat>, func: Call -> V, c: Call)
    requires ValidCall(sizes, c)
    ensures End(c) <= Total(sizes) && Leaves(sizes, func)[End(c) - 1] == func(Call(c.i, c.r1 - 1, c.r1, End(c) - 1))
  {
    CallInside(sizes, c);
    ElementAt(sizes, |sizes|, c.i, c.r1 - 1);
    assert UnitCall(sizes, End(c) - 1) == Call(c.i, c.r1 - 1, c.r1, End(c) - 1);
  }

  /** A splitting `func` is the fold over the values of the single elements. */
  lemma {:induction false} CallIsFold<V(!new)>(sizes: seq<nat>, func: Call -> V, red: (V, V) -> V, identity: V, c: Call)
    requires Monoid(red, identity) && Splits(sizes, func, red) && ValidCall(sizes, c)
    ensures End(c) <= Total(sizes)
    ensures func(c) == Fold(red, identity, Leaves(sizes, func)[c.k..End(c)])
    decreases c.r1
  {
    hide Fold, Leaves;
    var s := Leaves(sizes, func);
    var last := Call(c.i, c.r1 - 1, c.r1, End(c) - 1);
    LastLeaf(sizes, func, c);
    SliceSnoc(s, c.k, End(c));
    FoldLast(red, identity, s[c.k..End(c) - 1], func(last));
    if c.r0 + 1 < c.r1 {
      var rest := Call(c.i, c.r0, c.r1 - 1, c.k);
      CallIsFold(sizes, func, red, identity, rest);
      assert func(c) == red(func(rest), func(last));
    } else {
      assert c == last;
      FoldEmpty(red, identity, s);
      assert s[c.k..c.k] == s[..0];
    }
  }

  function Plain<V>(func: Call -> V): (Call, V) -> V {
    (c: Call, v: V) => func(c)
  }

  /** Accumulating over calls that tile a flat range folds the values of its elements. */
  lemma {:induction false} AccumulateIsFold<V(!new)>(sizes: seq<nat>, calls: seq<Call>, func: Call -> V,
                                                     red: (V, V) -> V, identity: V,
                                                     from: nat, to: nat)
    requires Monoid(red, identity) && Splits(sizes, func, red) && Tiles(sizes, calls, from, to) && to <= Total(sizes)
    ensures from <= to
    ensures Accumulate(calls, Plain(func), red, identity) == Fold(red, identity, Leaves(sizes, func)[from..to])
  {
    TilesCalls(sizes, calls, from, to);
    if calls != [] {
      var m, c := |calls| - 1, calls[|calls| - 1];
      TilesCalls(sizes, calls[..m], from, c.k);
      AccumulateIsFold(sizes, calls[..m], func, red, identity, from, c.k);
      CallIsFold(sizes, func, red, identity, c);
      SliceJoin(Leaves(sizes, func), from, c.k, to);
      FoldConcat(red, identity, Leaves(sizes, func)[from..c.k], Leaves(sizes, func)[c.k..to]);
    }
  }

  lemma {:induction false} AccumulateExt<V>(calls: seq<Call>, f: (Call, V) -> V, g: (Call, V) -> V, red: (V, V) -> V,
                                            acc: V)
    requires forall n, v :: 0 <= n < |calls| ==> f(calls[n], v) == g(calls[n], v)
    ensures Accumulate(calls, f, red, acc) == Accumulate(calls, g, red, acc)
  {
    if calls != [] {
      var m := |calls| - 1;
      forall n, v | 0 <= n < m ensures f(calls[..m][n], v) == g(calls[..m][n], v) { assert calls[..m][n] == calls[n]; }
      AccumulateExt(calls[..m], f, g, red, acc);
    }
  }

  /** What a task returns is the fold over the values of its own elements. */
  lemma TaskValue<V(!new)>(sizes: seq<nat>, tasks: nat, t: nat, log: Log<V>, func: Call -> V, f: (Call, V) -> V,
                           red: (V, V) -> V, identity: V)
    requires Monoid(red, identity) && Splits(sizes, func, red) && t < tasks
    requires TaskLog(sizes, tasks, t, log, f, red, identity)
    requires forall c, v :: f(c, v) == func(c)
    ensures Cut(Total(sizes), tasks, t) <= Cut(Total(sizes), tasks, t + 1) <= Total(sizes)
    ensures log.value == Fold(red, identity,
                              Leaves(sizes, func)[Cut(Total(sizes), tasks, t)..Cut(Total(sizes), tasks, t + 1)])
  {
    CutMono(Total(sizes), tasks, t, t + 1);
    AccumulateExt(log.calls, f, Plain(func), red, identity);
    AccumulateIsFold(sizes, log.calls, func, red, identity, Cut(Total(sizes), tasks, t),
                     Cut(Total(sizes), tasks, t + 1));
  }

  /** `parallel_for_for_reduce`: the fold over all elements, as the sequential loop computes it. */
  method ParallelForForReduce<V(!new)>(sizes: seq<nat>, minStepSize: nat, threadCount: nat, identity: V,
                                       func: Call -> V, red: (V, V) -> V)
      returns (ret: V)
    requires 0 < minStepSize && 0 < threadCount
    ensures Monoid(red, identity) && Splits(sizes, func, red) ==> ret == Fold(red, identity, Leaves(sizes, func))
  {
    var state := new State(sizes, minStepSize, threadCount);
    var f := (t: nat, c: Call, v: V) => func(c);
    var temp := RunTasks(state, sizes, f, red, identity);
    ret := identity;
    ghost var s, tasks := Leaves(sizes, func), |temp|;
    CutEnds(|s|, tasks);
    for i := 0 to |temp|
      invariant Cut(|s|, tasks, i) <= |s|
      invariant Monoid(red, identity) && Splits(sizes, func, red) ==>
        ret == Fold(red, identity, s[..Cut(|s|, tasks, i)])
    {
      CutMono(|s|, tasks, i, i + 1);
      if Monoid(red, identity) && Splits(sizes, func, red) {
        TaskValue(sizes, tasks, i, temp[i], func, OfTask(f, i), red, identity);
        FoldSlice(red, identity, s, Cut(|s|, tasks, i), Cut(|s|, tasks, i + 1));
      }
      ret := red(ret, temp[i].value);
    }
    assert s[..|s|] == s;
  }
}

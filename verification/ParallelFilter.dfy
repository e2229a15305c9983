/** Keeping the items that satisfy a predicate, in place: block by block, then filling the holes from the back. */
module ParallelFilter {
  import opened Cuts
  import opened HoleFilling
  import opened Interleavings
  import opened Misplaced
  import opened Rearranging
  import opened Seqs
  import opened Tasks

  const MAX_TASKS: nat := 64

  /** `sequential_filter`: compacts `data[first..last]`, in order. */
  method SequentialFilter<T>(data: array<T>, first: nat, last: nat, predicate_: T -> bool) returns (j: nat)
    requires first <= last <= data.Length
    modifies data
    ensures first <= j <= last && data[first..j] == Filter(old(data[first..last]), predicate_)
    ensures forall k :: 0 <= k < data.Length && (k < first || j <= k) ==> data[k] == old(data[k])
  {
    hide Filter;
    ghost var s := data[first..last];
    FilterNone(s[..0], predicate_);
    j := first;
    for i := first to last
      invariant first <= j <= i && data[first..j] == Filter(s[..i - first], predicate_)
      invariant forall k :: 0 <= k < data.Length && (k < first || j <= k) ==> data[k] == old(data[k])
    {
      assert data[i] == s[i - first];
      FilterSnoc(s, i - first, predicate_);
      if predicate_(data[i]) {
        ghost var kept := data[first..j];
        data[j] := data[i];
        assert data[first..j + 1] == kept + [data[j]];
        j := j + 1;
      }
    }
    assert s[..last - first] == s;
  }

  // ------------------------------------------------------------ what the blocks look like

  /** The first `used` items of block `t` are flagged, the others are not. */
  ghost predicate BlockFlags(f: seq<bool>, tasks: nat, t: nat, used: nat)
    requires t < tasks
  {
    var c, e := Cut(|f|, tasks, t), Cut(|f|, tasks, t + 1);
    && c + used <= e <= |f|
    && (forall k :: c <= k < c + used ==> f[k])
    && (forall k :: c + used <= k < e ==> !f[k])
  }

  /** Block `t` starts with the kept items of the original block, and is unchanged behind them. */
  ghost predicate BlockFiltered<T>(s0: seq<T>, s: seq<T>, tasks: nat, t: nat, used: nat, p: T -> bool)
    requires t < tasks && |s0| == |s|
  {
    var c, e := Cut(|s0|, tasks, t), Cut(|s0|, tasks, t + 1);
    && c + used <= e <= |s0|
    && s[c..c + used] == Filter(s0[c..e], p)
    && forall k :: c + used <= k < e ==> s[k] == s0[k]
  }

  /** Item `i` is among the first `used[t]` items of block `t`. */
  ghost predicate InUsed(n: nat, tasks: nat, used: seq<nat>, t: nat, i: nat)
    requires t < tasks == |used|
  {
    Cut(n, tasks, t) <= i < Cut(n, tasks, t) + used[t]
  }

  ghost predicate FlagOf(n: nat, tasks: nat, used: seq<nat>, i: nat)
    requires tasks == |used|
  {
    exists t: nat :: t < tasks && InUsed(n, tasks, used, t, i)
  }

  lemma Flags(n: nat, tasks: nat, used: seq<nat>) returns (f: seq<bool>)
    requires 0 < tasks == |used|
    requires forall t: nat :: t < tasks ==> FitsBlock(n, tasks, used, t)
    ensures |f| == n && forall t: nat :: t < tasks ==> BlockFlags(f, tasks, t, used[t])
  {
    f := seq(n, i requires 0 <= i < n => FlagOf(n, tasks, used, i));
    forall t: nat | t < tasks ensures BlockFlags(f, tasks, t, used[t]) {
      BlockFlagsOf(n, tasks, used, t, f);
    }
  }

  ghost predicate FitsBlock(n: nat, tasks: nat, used: seq<nat>, t: nat)
    requires t < tasks == |used|
  {
    Cut(n, tasks, t) + used[t] <= Cut(n, tasks, t + 1)
  }

  lemma BlockFlagsOf(n: nat, tasks: nat, used: seq<nat>, t: nat, f: seq<bool>)
    requires t < tasks == |used| && |f| == n && forall i: nat :: i < n ==> f[i] == FlagOf(n, tasks, used, i)
    requires forall u: nat :: u < tasks ==> FitsBlock(n, tasks, used, u)
    ensures BlockFlags(f, tasks, t, used[t])
  {
    CutMono(n, tasks, t, t + 1);
    assert FitsBlock(n, tasks, used, t);
    var c, e := Cut(n, tasks, t), Cut(n, tasks, t + 1);
    forall k | c <= k < c + used[t] ensures f[k] {
      assert InUsed(n, tasks, used, t, k);
    }
    forall k | c + used[t] <= k < e ensures !f[k] {
      if f[k] {
        var u: nat :| u < tasks && InUsed(n, tasks, used, u, k);
        assert FitsBlock(n, tasks, used, u);
        OwnerUnique(n, tasks, t, u, k);
      }
    }
  }

  lemma RunBag<T>(s: seq<T>, f: seq<bool>, c: nat, m: nat, e: nat)
    requires c <= m <= e <= |s| == |f| && (forall k :: c <= k < m ==> f[k]) && (forall k :: m <= k < e ==> !f[k])
    ensures Bag(s, f, c, e, KEPT) == multiset(s[c..m]) && Count(f[c..e], KEPT) == m - c
  {
    hide Filter, Bag;
    BagSplit(s, f, c, m, e, KEPT);
    BagKept(s, f, c, m);
    BagKept(s, f, m, e);
    SliceJoin(f, c, m, e);
    FilterAppend(f[c..m], f[m..e], KEPT);
    FilterAll(f[c..m], KEPT);
    FilterNone(f[m..e], KEPT);
  }

  lemma BlockBag<T>(s0: seq<T>, s: seq<T>, f: seq<bool>, tasks: nat, t: nat, used: nat, p: T -> bool)
    requires t < tasks && |s0| == |s| == |f| && BlockFiltered(s0, s, tasks, t, used, p) && BlockFlags(f, tasks, t, used)
    ensures var c, e := Cut(|f|, tasks, t), Cut(|f|, tasks, t + 1);
            Bag(s, f, c, e, KEPT) == multiset(Filter(s0[c..e], p)) && Count(f[c..e], KEPT) == Count(s0[c..e], p)
  {
    hide Filter, Bag;
    var c, e := Cut(|f|, tasks, t), Cut(|f|, tasks, t + 1);
    RunBag(s, f, c, c + used, e);
  }

  ghost predicate AllFiltered<T>(s0: seq<T>, s: seq<T>, f: seq<bool>, tasks: nat, used: seq<nat>, p: T -> bool) {
    && 0 < tasks == |used| && |s0| == |s| == |f|
    && forall t: nat :: t < tasks ==> BlockFiltered(s0, s, tasks, t, used[t], p) && BlockFlags(f, tasks, t, used[t])
  }

  /** The flagged items of the first `t` blocks are the kept ones of the original. */
  lemma {:induction false} KeptBag<T>(s0: seq<T>, s: seq<T>, f: seq<bool>, tasks: nat, used: seq<nat>, p: T -> bool,
                                      t: nat)
    requires AllFiltered(s0, s, f, tasks, used, p) && t <= tasks
    ensures Cut(|f|, tasks, t) <= |f|
    ensures Bag(s, f, 0, Cut(|f|, tasks, t), KEPT) == multiset(Filter(s0[..Cut(|f|, tasks, t)], p))
    ensures Count(f[..Cut(|f|, tasks, t)], KEPT) == Count(s0[..Cut(|f|, tasks, t)], p)
  {
    hide Filter, Bag, BlockFiltered, BlockFlags;
    NothingKept(s0, s, f, p);
    CutEnds(|f|, tasks);
    if t != 0 {
      CutMono(|f|, tasks, t - 1, t);
      KeptBag(s0, s, f, tasks, used, p, t - 1);
      assert BlockFiltered(s0, s, tasks, t - 1, used[t - 1], p) && BlockFlags(f, tasks, t - 1, used[t - 1]);
      KeptBagStep(s0, s, f, tasks, t - 1, used[t - 1], p);
    }
  }

  lemma NothingKept<T>(s0: seq<T>, s: seq<T>, f: seq<bool>, p: T -> bool)
    requires |s| == |f|
    ensures Bag(s, f, 0, 0, KEPT) == multiset(Filter(s0[..0], p)) && Count(f[..0], KEPT) == Count(s0[..0], p)
  {}

  lemma KeptBagStep<T>(s0: seq<T>, s: seq<T>, f: seq<bool>, tasks: nat, t: nat, used: nat, p: T -> bool)
    requires t < tasks && |s0| == |s| == |f| && BlockFiltered(s0, s, tasks, t, used, p) && BlockFlags(f, tasks, t, used)
    requires Bag(s, f, 0, Cut(|f|, tasks, t), KEPT) == multiset(Filter(s0[..Cut(|f|, tasks, t)], p))
    requires Count(f[..Cut(|f|, tasks, t)], KEPT) == Count(s0[..Cut(|f|, tasks, t)], p)
    ensures Bag(s, f, 0, Cut(|f|, tasks, t + 1), KEPT) == multiset(Filter(s0[..Cut(|f|, tasks, t + 1)], p))
    ensures Count(f[..Cut(|f|, tasks, t + 1)], KEPT) == Count(s0[..Cut(|f|, tasks, t + 1)], p)
  {
    var c, e := Cut(|f|, tasks, t), Cut(|f|, tasks, t + 1);
    BlockBag(s0, s, f, tasks, t, used, p);
    BagSplit(s, f, 0, c, e, KEPT);
    FilterSlice(s0, c, e, p);
    FilterSlice(f, c, e, KEPT);
  }

  // ------------------------------------------------------------ which hole a task fills, and from where

  /** The number of the hole at `q` in block `t`. */
  lemma HoleIndex(f: seq<bool>, tasks: nat, t: nat, used: nat, sused: nat, q: nat)
    requires t < tasks && BlockFlags(f, tasks, t, used) && sused <= |f|
    requires Cut(|f|, tasks, t) + used <= q < Cut(|f|, tasks, t + 1) && q < sused
    ensures var c := Cut(|f|, tasks, t);
            var k := |Positions(f, 0, c, HOLE)| + (q - c - used);
            k < |Holes(f, sused)| && Holes(f, sused)[k] == q
  {
    var c := Cut(|f|, tasks, t);
    PositionsNone(f, 0, c, c + used, HOLE);
    PositionsAll(f, 0, c + used, q + 1, HOLE);
    PositionsPrefix(f, 0, q + 1, sused, HOLE);
  }

  /** The `k`-th kept item from the back, when block `i` is the one that holds it. */
  lemma FillerIndex(f: seq<bool>, tasks: nat, i: nat, used: nat, sused: nat, k: nat)
    requires i < tasks && BlockFlags(f, tasks, i, used) && sused <= |f| && k < |Fillers(f, sused)|
    ensures var c, e := Cut(|f|, tasks, i), Cut(|f|, tasks, i + 1);
            var k0 := |Descending(f, e, |f|, KEPT)|;
            && |Descending(f, c, |f|, KEPT)| == k0 + used
            && (k0 <= k < k0 + used ==> Fillers(f, sused)[k] == c + used - 1 - (k - k0))
  {
    var c, e := Cut(|f|, tasks, i), Cut(|f|, tasks, i + 1);
    DescendingRun(f, c, c + used, e, |f|);
    DescendingPrefix(f, 0, c, |f|, KEPT);
    DescendingPrefix(f, 0, sused, |f|, KEPT);
  }

  /** The kept items of block 0 are never moved: the other blocks hold all fillers. */
  lemma FillersSuffice(f: seq<bool>, tasks: nat, used: nat, sused: nat)
    requires 0 < tasks && BlockFlags(f, tasks, 0, used) && used <= sused <= |f|
    ensures |Fillers(f, sused)| <= |Descending(f, Cut(|f|, tasks, 1), |f|, KEPT)|
  {
    CutEnds(|f|, tasks);
    var e := Cut(|f|, tasks, 1);
    if sused < e {
      DescendingRun(f, sused, sused, e, |f|);
    } else {
      DescendingPrefix(f, e, sused, |f|, KEPT);
    }
  }

  // ------------------------------------------------------------ the tasks

  /** What the second phase knows: `s` is the compacted window, `f` flags its kept items. */
  ghost predicate Compacted<T>(s: seq<T>, f: seq<bool>, tasks: nat, nused: seq<nat>, sused: nat) {
    && 0 < tasks == |nused| && |s| == |f| && sused == Count(f, KEPT) <= |f|
    && forall t: nat :: t < tasks ==> BlockFlags(f, tasks, t, nused[t]) && nused[t] <= sused
  }

  /** The copies from one source block: its kept items, last one first, into the next holes of the task. */
  method CopyRun<T>(data: array<T>, begin: nat, n: nat, dst0: nat, from: nat, to: nat, src: nat, k0: nat,
                    ghost base: seq<T>, ghost s: seq<T>, ghost t0: seq<T>, ghost holes: seq<int>,
                    ghost fillers: seq<int>,
                    ghost used: nat, ghost done: set<int>) returns (dst: nat, ghost t: seq<T>)
    requires begin + n <= data.Length && |s| == n && Window(data[..], base, begin, begin + n, t0)
    requires Filled(s, t0, holes, fillers, used, done)
    requires k0 <= from && to <= |holes|
    requires forall k :: from <= k < to ==>
      holes[k] == dst0 + (k - from) && k < |fillers| && fillers[k] == src - 1 - (k - k0)
    modifies data
    ensures Window(data[..], base, begin, begin + n, t)
    ensures Filled(s, t, holes, fillers, used, done + IntSet(from, to))
    ensures dst == if from <= to then dst0 + (to - from) else dst0
  {
    hide Filled;
    dst, t := dst0, t0;
    var i := from;
    assert done + IntSet(from, from) == done;
    while i < to
      invariant from <= i && (i == from || i <= to) && dst == dst0 + (i - from)
      invariant Window(data[..], base, begin, begin + n, t)
      invariant Filled(s, t, holes, fillers, used, done + IntSet(from, i))
    {
      FillOne(s, t, holes, fillers, used, done + IntSet(from, i), i);
      var isrc := src - i + k0 - 1;
      assert isrc == fillers[i] && dst == holes[i];
      WindowRead(data[..], base, begin, begin + n, t, isrc);
      WindowUpdate(data[..], base, begin, begin + n, t, dst, t[isrc]);
      Put(data, begin + dst, data[begin + isrc]);
      t := t[dst := t[isrc]];
      assert done + IntSet(from, i) + {i} == done + IntSet(from, i + 1);
      dst, i := dst + 1, i + 1;
    }
    assert IntSet(from, i) == IntSet(from, to);
  }

  /** The holes of block `t` before `sused` are the ones numbered from `pfree[t]` on. */
  lemma HolesOfBlock(f: seq<bool>, tasks: nat, used: nat, sused: nat, t: nat, c: nat, e: nat, r0: nat, k: nat)
    requires t < tasks && BlockFlags(f, tasks, t, used) && sused <= |f|
    requires c == Cut(|f|, tasks, t) && e == Cut(|f|, tasks, t + 1) && c <= e <= |f| && r0 == |Positions(f, 0, c, HOLE)|
    requires r0 <= k < r0 + (Min(e, sused) - (c + used))
    ensures k < |Holes(f, sused)| && Holes(f, sused)[k] == c + used + (k - r0)
  {
    HoleIndex(f, tasks, t, used, sused, c + used + (k - r0));
  }

  lemma HolesOnlyOfBlock(f: seq<bool>, tasks: nat, used: nat, sused: nat, t: nat, c: nat, e: nat, r0: nat, k: nat)
    requires t < tasks && BlockFlags(f, tasks, t, used) && sused == Count(f, KEPT) <= |f|
    requires c == Cut(|f|, tasks, t) && e == Cut(|f|, tasks, t + 1) && c <= e <= |f| && r0 == |Positions(f, 0, c, HOLE)|
    requires k < |Holes(f, sused)| && c <= Holes(f, sused)[k] < e
    ensures r0 <= k < r0 + (Min(e, sused) - (c + used))
  {
    hide Filter, Positions, Holes, Descending;
    HolesMatchFillers(f, sused);
    HoleFlag(f, sused, k);
    HoleIndex(f, tasks, t, used, sused, Holes(f, sused)[k]);
  }

  /** Everything a task needs to know about its holes. */
  lemma HolesOfTask<T>(s: seq<T>, f: seq<bool>, tasks: nat, nused: seq<nat>, sused: nat, t: nat, c: nat, e: nat,
                       r0: nat)
    requires t < tasks == |nused| && sused <= |f|
    requires Compacted(s, f, tasks, nused, sused)
    requires c == Cut(|f|, tasks, t) && e == Cut(|f|, tasks, t + 1) && c <= e <= |f| && r0 == |Positions(f, 0, c, HOLE)|
    ensures |Holes(f, sused)| == |Fillers(f, sused)|
    ensures c + nused[t] < Min(e, sused) ==> r0 + (Min(e, sused) - (c + nused[t])) <= |Holes(f, sused)|
    ensures forall k :: r0 <= k < |Holes(f, sused)| && k < r0 + (Min(e, sused) - (c + nused[t])) ==>
      Holes(f, sused)[k] == c + nused[t] + (k - r0)
    ensures forall k :: 0 <= k < |Holes(f, sused)| && c <= Holes(f, sused)[k] < e ==>
      r0 <= k < r0 + (Min(e, sused) - (c + nused[t]))
  {
    hide Filter, Positions, Holes, Fillers, Descending, Cut, BlockFlags;
    assert BlockFlags(f, tasks, t, nused[t]);
    HolesMatchFillers(f, sused);
    if c + nused[t] < Min(e, sused) {
      HolesOfBlock(f, tasks, nused[t], sused, t, c, e, r0, r0 + (Min(e, sused) - (c + nused[t])) - 1);
    }
    forall k | r0 <= k < |Holes(f, sused)| && k < r0 + (Min(e, sused) - (c + nused[t]))
      ensures Holes(f, sused)[k] == c + nused[t] + (k - r0)
    {
      HolesOfBlock(f, tasks, nused[t], sused, t, c, e, r0, k);
    }
    forall k | 0 <= k < |Holes(f, sused)| && c <= Holes(f, sused)[k] < e
      ensures r0 <= k < r0 + (Min(e, sused) - (c + nused[t]))
    {
      HolesOnlyOfBlock(f, tasks, nused[t], sused, t, c, e, r0, k);
    }
  }

  lemma HoleFlag(f: seq<bool>, sused: nat, k: nat)
    requires sused <= |f| && k < |Holes(f, sused)|
    ensures 0 <= Holes(f, sused)[k] < sused && !f[Holes(f, sused)[k]]
  {
    PositionsSound(f, 0, sused, HOLE);
  }

  lemma FillStart(f: seq<bool>, tasks: nat)
    requires 0 < tasks
    ensures |Descending(f, Cut(|f|, tasks, tasks), |f|, KEPT)| == 0
  {
    CutEnds(|f|, tasks);
  }

  /** What source block `i` gives to a task that fills holes `r0..r1`, `k0` kept items standing behind the block. */
  lemma RunOfBlock<T>(s: seq<T>, f: seq<bool>, tasks: nat, nused: seq<nat>, sused: nat, i: nat, r0: nat, r1: nat,
                      k0: nat)
    requires i < tasks == |nused| && sused <= |f|
    requires Compacted(s, f, tasks, nused, sused) && r0 <= r1 <= |Fillers(f, sused)|
    requires k0 == |Descending(f, Cut(|f|, tasks, i + 1), |f|, KEPT)|
    ensures |Descending(f, Cut(|f|, tasks, i), |f|, KEPT)| == k0 + nused[i]
    ensures forall k :: r0 <= k < r1 && k0 <= k < k0 + nused[i] ==>
      Fillers(f, sused)[k] == Cut(|f|, tasks, i) + nused[i] - 1 - (k - k0)
  {
    hide Fillers, Descending;
    assert BlockFlags(f, tasks, i, nused[i]);
    DescendingRun(f, Cut(|f|, tasks, i), Cut(|f|, tasks, i) + nused[i], Cut(|f|, tasks, i + 1), |f|);
    forall k | r0 <= k < r1 && k0 <= k < k0 + nused[i]
      ensures Fillers(f, sused)[k] == Cut(|f|, tasks, i) + nused[i] - 1 - (k - k0)
    {
      FillerIndex(f, tasks, i, nused[i], sused, k);
    }
  }

  lemma RunsSuffice<T>(s: seq<T>, f: seq<bool>, tasks: nat, nused: seq<nat>, sused: nat)
    requires Compacted(s, f, tasks, nused, sused)
    ensures |Fillers(f, sused)| <= |Descending(f, Cut(|f|, tasks, 1), |f|, KEPT)|
  {
    assert BlockFlags(f, tasks, 0, nused[0]) && nused[0] <= sused;
    FillersSuffice(f, tasks, nused[0], sused);
  }

  /** One second-phase task: fills the holes of block `t` that lie before `sused`. */
  method FillTask<T>(data: array<T>, begin: nat, n: nat, tasks: nat, t: nat, nused: seq<nat>, nfree: seq<nat>,
                     pfree: seq<nat>, sused: nat,
                     ghost base: seq<T>, ghost s: seq<T>, ghost f: seq<bool>, ghost u0: seq<T>, ghost done0: set<int>)
      returns (ghost u: seq<T>, ghost done: set<int>)
    requires begin + n <= data.Length && |s| == |f| == n && sused <= n && t < tasks == |nused| == |nfree| == |pfree|
    requires Compacted(s, f, tasks, nused, sused)
    requires Cut(n, tasks, t) + nused[t] + nfree[t] == Cut(n, tasks, t + 1) <= n
    requires pfree[t] == |Positions(f, 0, Cut(n, tasks, t), HOLE)|
    requires Window(data[..], base, begin, begin + n, u0)
    requires Filled(s, u0, Holes(f, sused), Fillers(f, sused), sused, done0)
    modifies data
    ensures Window(data[..], base, begin, begin + n, u) && Filled(s, u, Holes(f, sused), Fillers(f, sused), sused, done)
    ensures done0 <= done
    ensures forall k :: 0 <= k < |Holes(f, sused)| && Cut(n, tasks, t) <= Holes(f, sused)[k] < Cut(n, tasks, t + 1) ==>
      k in done
  {
    hide Window, Filled, Compacted, Cut, Holes, Fillers, Positions, Descending;
    var dst := Cut(n, tasks, t) + nused[t];
    var dst_end := Min(dst + nfree[t], sused);
    u, done := u0, done0;
    HolesOfTask(s, f, tasks, nused, sused, t, Cut(n, tasks, t), Cut(n, tasks, t + 1), pfree[t]);
    if dst_end <= dst { return; }
    var r0 := pfree[t];
    var r1 := r0 + dst_end - dst;
    u := FillFromBack(data, begin, n, tasks, nused, sused, dst, r0, r1, base, s, f, u0, done0);
    done := done0 + IntSet(r0, r1);
  }

  /** The loop over the source blocks, last one first. */
  method FillFromBack<T>(data: array<T>, begin: nat, n: nat, tasks: nat, nused: seq<nat>, sused: nat, dst0: nat,
                         r0: nat, r1: nat,
                         ghost base: seq<T>, ghost s: seq<T>, ghost f: seq<bool>, ghost u0: seq<T>,
                         ghost done0: set<int>) returns (ghost u: seq<T>)
    requires begin + n <= data.Length && |s| == |f| == n && sused <= n && 0 < tasks == |nused|
    requires Compacted(s, f, tasks, nused, sused)
    requires r0 <= r1 <= |Holes(f, sused)| == |Fillers(f, sused)|
    requires forall k :: r0 <= k < r1 ==> Holes(f, sused)[k] == dst0 + (k - r0)
    requires Window(data[..], base, begin, begin + n, u0)
    requires Filled(s, u0, Holes(f, sused), Fillers(f, sused), sused, done0)
    modifies data
    ensures Window(data[..], base, begin, begin + n, u)
    ensures Filled(s, u, Holes(f, sused), Fillers(f, sused), sused, done0 + IntSet(r0, r1))
  {
    hide Window, Filled, Compacted, Cut, Holes, Fillers, Descending;
    ghost var done := done0;
    u := u0;
    var dst, k0, i := dst0, 0, tasks - 1;
    FillStart(f, tasks);
    RunsSuffice(s, f, tasks, nused, sused);
    assert done == done0 + IntSet(r0, r0);
    while i > 0 && k0 <= r1
      invariant 0 <= i < tasks && k0 == |Descending(f, Cut(n, tasks, i + 1), n, KEPT)|
      invariant dst == dst0 + Clamp(r0, r1, k0) - r0
      invariant Window(data[..], base, begin, begin + n, u)
      invariant Filled(s, u, Holes(f, sused), Fillers(f, sused), sused, done)
      invariant done == done0 + IntSet(r0, Clamp(r0, r1, k0))
      decreases i
    {
      var k1 := k0 + nused[i];
      var src := Cut(n, tasks, i) + nused[i];
      var from, to := if r0 < k0 then k0 else r0, Min(r1, k1);
      RunOfBlock(s, f, tasks, nused, sused, i, r0, r1, k0);
      ClampStep(r0, r1, k0, k1, from, to, done0);
      dst, u := CopyRun(data, begin, n, dst, from, to, src, k0, base, s, u, Holes(f, sused), Fillers(f, sused), sused,
                        done);
      done := done + IntSet(from, to);
      k0 := k1;
      i := i - 1;
    }
  }

  lemma ClampStep(r0: nat, r1: nat, k0: nat, k1: nat, from: nat, to: nat, done: set<int>)
    requires r0 <= r1 && k0 <= r1 && k0 <= k1 && from == (if r0 < k0 then k0 else r0) && to == Min(r1, k1)
    ensures from == Clamp(r0, r1, k0)
    ensures (if from <= to then to - from else 0) == Clamp(r0, r1, k1) - Clamp(r0, r1, k0)
    ensures done + IntSet(r0, Clamp(r0, r1, k0)) + IntSet(from, to) == done + IntSet(r0, Clamp(r0, r1, k1))
  {
    assert IntSet(r0, Clamp(r0, r1, k0)) + IntSet(from, to) == IntSet(r0, Clamp(r0, r1, k1));
    assert done + IntSet(r0, Clamp(r0, r1, k0)) + IntSet(from, to) ==
      done + (IntSet(r0, Clamp(r0, r1, k0)) + IntSet(from, to));
  }

  /** `x` brought into `[lo, hi]`. */
  function Clamp(lo: nat, hi: nat, x: nat): nat {
    if x < lo then lo else if hi < x then hi else x
  }

  // ------------------------------------------------------------ both phases

  ghost predicate SameBlock<T>(s0: seq<T>, s: seq<T>, tasks: nat, t: nat)
    requires t < tasks && |s0| == |s|
  {
    forall k :: Cut(|s0|, tasks, t) <= k < Cut(|s0|, tasks, t + 1) && k < |s| ==> s[k] == s0[k]
  }

  /** `t` differs from `s` in block `b` only. */
  ghost predicate OnlyBlock<T>(s: seq<T>, t: seq<T>, tasks: nat, b: nat)
    requires b < tasks
  {
    && |t| == |s|
    && forall k :: 0 <= k < |s| && (k < Cut(|s|, tasks, b) || Cut(|s|, tasks, b + 1) <= k) ==> t[k] == s[k]
  }

  /** One first-phase task. */
  method FilterBlock<T>(data: array<T>, begin: nat, n: nat, tasks: nat, t: nat, p: T -> bool,
                        ghost base: seq<T>, ghost s0: seq<T>, ghost s: seq<T>)
            returns (used: nat, free: nat, ghost u: seq<T>)
    requires begin + n <= data.Length && t < tasks && |s0| == |s| == n && SameBlock(s0, s, tasks, t)
    requires Window(data[..], base, begin, begin + n, s)
    modifies data
    ensures Window(data[..], base, begin, begin + n, u) && |u| == n && OnlyBlock(s, u, tasks, t)
    ensures BlockFiltered(s0, u, tasks, t, used, p) && Cut(n, tasks, t) + used + free == Cut(n, tasks, t + 1)
  {
    hide Cut, Filter, Window;
    CutMono(n, tasks, t, t + 1);
    var i0, i1 := Cut(n, tasks, t), Cut(n, tasks, t + 1);
    ghost var a := data[..];
    WindowPart(a, base, begin, begin + n, s, i0, i1);
    assert s[i0..i1] == s0[i0..i1];
    var i2 := SequentialFilter(data, begin + i0, begin + i1, p);
    u := data[begin..begin + n];
    used, free := i2 - (begin + i0), begin + i1 - i2;
    FilteredBlock(a, data[..], base, begin, n, s, u, i0, i1, i2);
  }

  lemma FilteredBlock<T>(a: seq<T>, b: seq<T>, base: seq<T>, begin: nat, n: nat, s: seq<T>, u: seq<T>, i0: nat,
                         i1: nat, i2: nat)
    requires begin + n <= |a| == |b| && i0 <= i1 <= n && begin + i0 <= i2 <= begin + i1
    requires Window(a, base, begin, begin + n, s) && u == b[begin..begin + n]
    requires forall k :: 0 <= k < |a| && (k < begin + i0 || i2 <= k) ==> b[k] == a[k]
    ensures Window(b, base, begin, begin + n, u)
    ensures u[i0..i2 - begin] == b[begin + i0..i2]
    ensures forall k :: i2 - begin <= k < i1 ==> u[k] == s[k]
    ensures forall k :: 0 <= k < n && (k < i0 || i1 <= k) ==> u[k] == s[k]
  {}

  lemma OtherBlock<T>(s0: seq<T>, s: seq<T>, u: seq<T>, tasks: nat, t: nat, v: nat, used: nat, p: T -> bool)
    requires t < tasks && v < tasks && t != v && |s0| == |s| == |u| && OnlyBlock(s, u, tasks, t)
    ensures BlockFiltered(s0, s, tasks, v, used, p) ==> BlockFiltered(s0, u, tasks, v, used, p)
    ensures SameBlock(s0, s, tasks, v) ==> SameBlock(s0, u, tasks, v)
  {
    var n := |s|;
    if v < t { CutMono(n, tasks, v + 1, t); } else { CutMono(n, tasks, t + 1, v); }
    CutMono(n, tasks, v, v + 1);
    var c, e := Cut(n, tasks, v), Cut(n, tasks, v + 1);
    if c + used <= e <= n { assert s[c..c + used] == u[c..c + used]; }
  }

  ghost predicate BlockDone<T>(s0: seq<T>, s: seq<T>, tasks: nat, t: nat, used: nat, free: nat, p: T -> bool)
    requires t < tasks && |s0| == |s|
  {
    BlockFiltered(s0, s, tasks, t, used, p) && Cut(|s0|, tasks, t) + used + free == Cut(|s0|, tasks, t + 1)
  }

  /** Every block compacted: `nused` and `nfree` items of each. */
  ghost predicate Blocks<T>(s0: seq<T>, s: seq<T>, tasks: nat, nused: seq<nat>, nfree: seq<nat>, p: T -> bool) {
    && 0 < tasks == |nused| == |nfree| && |s0| == |s|
    && forall t: nat :: t < tasks ==> BlockDone(s0, s, tasks, t, nused[t], nfree[t], p)
  }

  /** All first-phase tasks, in any order. */
  method FilterBlocks<T>(data: array<T>, begin: nat, n: nat, tasks: nat, p: T -> bool, ghost base: seq<T>,
                         ghost s0: seq<T>)
      returns (nused: seq<nat>, nfree: seq<nat>, ghost s: seq<T>)
    requires begin + n <= data.Length && 0 < tasks && |s0| == n && Window(data[..], base, begin, begin + n, s0)
    modifies data
    ensures Window(data[..], base, begin, begin + n, s) && Blocks(s0, s, tasks, nused, nfree, p)
  {
    nused, nfree, s := seq(tasks, _ => 0), seq(tasks, _ => 0), s0;
    var todo := AllTasks(tasks);
    while todo != {}
      invariant Window(data[..], base, begin, begin + n, s) && |s| == n && |nused| == |nfree| == tasks
      invariant forall t: nat :: t in todo ==> t < tasks && SameBlock(s0, s, tasks, t)
      invariant forall t: nat :: t < tasks && t !in todo ==> BlockDone(s0, s, tasks, t, nused[t], nfree[t], p)
      decreases todo
    {
      var t: nat :| t in todo;
      ghost var u;
      var used, free;
      used, free, u := FilterBlock(data, begin, n, tasks, t, p, base, s0, s);
      forall v: nat | v < tasks && v != t
        ensures v in todo ==> SameBlock(s0, u, tasks, v)
        ensures v !in todo ==> BlockDone(s0, u, tasks, v, nused[v], nfree[v], p)
      {
        OtherBlock(s0, s, u, tasks, t, v, nused[v], p);
      }
      nused, nfree, s := nused[t := used], nfree[t := free], u;
      todo := todo - {t};
    }
  }

  lemma BlocksFlags<T>(s0: seq<T>, s: seq<T>, tasks: nat, nused: seq<nat>, nfree: seq<nat>, p: T -> bool)
      returns (f: seq<bool>)
    requires Blocks(s0, s, tasks, nused, nfree, p)
    ensures AllFiltered(s0, s, f, tasks, nused, p)
  {
    forall t: nat | t < tasks ensures FitsBlock(|s0|, tasks, nused, t) {
      assert BlockDone(s0, s, tasks, t, nused[t], nfree[t], p);
    }
    f := Flags(|s0|, tasks, nused);
    forall t: nat | t < tasks ensures BlockFiltered(s0, s, tasks, t, nused[t], p) {
      assert BlockDone(s0, s, tasks, t, nused[t], nfree[t], p);
    }
  }

  /** `sused` and `pfree[i]` by running sums. */
  method Offsets<T>(n: nat, tasks: nat, nused: seq<nat>, nfree: seq<nat>, p: T -> bool, ghost s0: seq<T>,
                    ghost s: seq<T>, ghost f: seq<bool>)
      returns (sused: nat, sfree: nat, pfree: seq<nat>)
    requires |s0| == n && Blocks(s0, s, tasks, nused, nfree, p) && AllFiltered(s0, s, f, tasks, nused, p)
    ensures sused == Count(s0, p) && sused + sfree == n && |pfree| == tasks
    ensures Compacted(s, f, tasks, nused, sused)
    ensures forall t: nat :: t < tasks ==>
      Cut(n, tasks, t) <= n && pfree[t] == |Positions(f, 0, Cut(n, tasks, t), HOLE)|
  {
    hide Filter, Positions, Bag;
    CutEnds(n, tasks);
    NothingKept(s0, s, f, p);
    sused, sfree, pfree := 0, 0, [];
    for i := 0 to tasks
      invariant Cut(n, tasks, i) <= n && |pfree| == i
      invariant sused == Count(s0[..Cut(n, tasks, i)], p) && sused + sfree == Cut(n, tasks, i)
      invariant forall t: nat :: t < i ==> nused[t] <= sused
      invariant forall t: nat :: t < i ==>
        Cut(n, tasks, t) <= n && pfree[t] == |Positions(f, 0, Cut(n, tasks, t), HOLE)|
    {
      assert BlockDone(s0, s, tasks, i, nused[i], nfree[i], p);
      CutMono(n, tasks, i, i + 1);
      FilterSlice(s0, Cut(n, tasks, i), Cut(n, tasks, i + 1), p);
      HolesBefore(s0, s, f, tasks, nused, p, i);
      sused := sused + nused[i];
      pfree := pfree + [sfree];
      sfree := sfree + nfree[i];
    }
    assert s0[..n] == s0;
    FlagCount(s0, s, f, tasks, nused, p);
  }

  lemma HolesBefore<T>(s0: seq<T>, s: seq<T>, f: seq<bool>, tasks: nat, nused: seq<nat>, p: T -> bool, t: nat)
    requires AllFiltered(s0, s, f, tasks, nused, p) && t < tasks
    ensures Cut(|f|, tasks, t) <= |f|
    ensures |Positions(f, 0, Cut(|f|, tasks, t), HOLE)| == Cut(|f|, tasks, t) - Count(s0[..Cut(|f|, tasks, t)], p)
  {
    KeptBag(s0, s, f, tasks, nused, p, t);
    var c := Cut(|f|, tasks, t);
    PositionsCount(f, 0, c, HOLE);
    assert f[0..c] == f[..c];
    CountSplit(f[..c], KEPT);
    FilterExt(f[..c], Not(KEPT), HOLE);
  }

  lemma FlagCount<T>(s0: seq<T>, s: seq<T>, f: seq<bool>, tasks: nat, nused: seq<nat>, p: T -> bool)
    requires AllFiltered(s0, s, f, tasks, nused, p)
    ensures Count(f, KEPT) == Count(s0, p) <= |f|
    ensures Bag(s, f, 0, |f|, KEPT) == multiset(Filter(s0, p))
  {
    KeptBag(s0, s, f, tasks, nused, p, tasks);
    CutEnds(|f|, tasks);
    assert f[..|f|] == f && s0[..|f|] == s0;
  }

  /** Task `t` makes the copies from number `pfree[t]` up to this one. */
  function FillEnd(n: nat, tasks: nat, t: nat, nused: seq<nat>, pfree: seq<nat>, sused: nat): nat
    requires t < tasks == |nused| == |pfree|
  {
    var dst, dst_end := Cut(n, tasks, t) + nused[t], Min(Cut(n, tasks, t + 1), sused);
    if dst_end <= dst then pfree[t] else pfree[t] + (dst_end - dst)
  }

  function FillEnds(n: nat, tasks: nat, nused: seq<nat>, pfree: seq<nat>, sused: nat): (r: seq<nat>)
    requires tasks == |nused| == |pfree|
    ensures |r| == tasks && forall t :: 0 <= t < tasks ==> r[t] == FillEnd(n, tasks, t, nused, pfree, sused)
  {
    seq(tasks, t requires 0 <= t < tasks => FillEnd(n, tasks, t, nused, pfree, sused))
  }

  /** `pfree[t]` is the number of the first hole of block `t`. */
  ghost predicate HoleStarts(f: seq<bool>, tasks: nat, pfree: seq<nat>) {
    && |pfree| == tasks
    && forall t: nat :: t < tasks ==> HoleStart(f, tasks, t, pfree[t])
  }

  ghost predicate HoleStart(f: seq<bool>, tasks: nat, t: nat, r0: nat)
    requires t < tasks
  {
    Cut(|f|, tasks, t) <= Cut(|f|, tasks, t + 1) <= |f| && r0 == |Positions(f, 0, Cut(|f|, tasks, t), HOLE)|
  }

  /** The copies of all tasks are exactly the copies there are to make. */
  lemma CopiesOfTasks<T>(s: seq<T>, f: seq<bool>, tasks: nat, nused: seq<nat>, pfree: seq<nat>, sused: nat, k: int)
    requires tasks == |nused| == |pfree| && sused <= |f| && Compacted(s, f, tasks, nused, sused)
    requires HoleStarts(f, tasks, pfree)
    ensures 0 <= k < |Holes(f, sused)| <==>
      exists t: nat :: t < tasks && Between(pfree[t], k, FillEnd(|f|, tasks, t, nused, pfree, sused))
  {
    hide Cut, Holes, Fillers, Positions, Compacted;
    if t: nat :| t < tasks && Between(pfree[t], k, FillEnd(|f|, tasks, t, nused, pfree, sused)) {
      assert HoleStart(f, tasks, t, pfree[t]);
      HolesOfTask(s, f, tasks, nused, sused, t, Cut(|f|, tasks, t), Cut(|f|, tasks, t + 1), pfree[t]);
    }
    if 0 <= k < |Holes(f, sused)| {
      var t := OwnerOfHole(s, f, tasks, nused, sused, k);
      assert HoleStart(f, tasks, t, pfree[t]);
      HolesOfTask(s, f, tasks, nused, sused, t, Cut(|f|, tasks, t), Cut(|f|, tasks, t + 1), pfree[t]);
      assert Between(pfree[t], k, FillEnd(|f|, tasks, t, nused, pfree, sused));
    }
  }

  lemma OwnerOfHole<T>(s: seq<T>, f: seq<bool>, tasks: nat, nused: seq<nat>, sused: nat, k: nat) returns (t: nat)
    requires sused <= |f| && Compacted(s, f, tasks, nused, sused) && k < |Holes(f, sused)|
    ensures t < tasks && Cut(|f|, tasks, t) <= Holes(f, sused)[k] < Cut(|f|, tasks, t + 1)
  {
    HoleFlag(f, sused, k);
    CutEnds(|f|, tasks);
    t := OwnerExists(|f|, tasks, tasks, Holes(f, sused)[k]);
  }

  /** However the fill tasks take turns, copy by copy: the outcome is the same. */
  lemma AnySchedule<T>(s: seq<T>, u: seq<T>, f: seq<bool>, tasks: nat, nused: seq<nat>, pfree: seq<nat>, sused: nat,
                       done: set<int>)
    requires tasks == |nused| == |pfree| && sused <= |f| && Compacted(s, f, tasks, nused, sused)
    requires HoleStarts(f, tasks, pfree)
    requires Filled(s, u, Holes(f, sused), Fillers(f, sused), sused, done)
    requires forall k :: 0 <= k < |Holes(f, sused)| ==> k in done
    ensures forall schedule :: Complete(schedule, pfree, FillEnds(|f|, tasks, nused, pfree, sused)) ==>
      FilledBy(s, u, Holes(f, sused), Fillers(f, sused), RunOf(schedule, pfree))
  {
    hide Filled, FilledBy, Holes, Fillers, Compacted, RunOf, HoleStarts, FillEnd;
    var last := FillEnds(|f|, tasks, nused, pfree, sused);
    forall schedule | Complete(schedule, pfree, last)
      ensures FilledBy(s, u, Holes(f, sused), Fillers(f, sused), RunOf(schedule, pfree))
    {
      CompleteRunFills(s, u, f, tasks, nused, pfree, sused, done, schedule);
    }
  }

  lemma CompleteRunFills<T>(s: seq<T>, u: seq<T>, f: seq<bool>, tasks: nat, nused: seq<nat>, pfree: seq<nat>,
                            sused: nat,
                            done: set<int>, schedule: seq<nat>)
    requires tasks == |nused| == |pfree| && sused <= |f| && Compacted(s, f, tasks, nused, sused)
    requires HoleStarts(f, tasks, pfree)
    requires Filled(s, u, Holes(f, sused), Fillers(f, sused), sused, done)
    requires forall k :: 0 <= k < |Holes(f, sused)| ==> k in done
    requires Complete(schedule, pfree, FillEnds(|f|, tasks, nused, pfree, sused))
    ensures FilledBy(s, u, Holes(f, sused), Fillers(f, sused), RunOf(schedule, pfree))
  {
    hide Filled, FilledBy, Holes, Fillers, Compacted, RunOf, HoleStarts, FillEnd;
    var last := FillEnds(|f|, tasks, nused, pfree, sused);
    var run := RunOf(schedule, pfree);
    NoneFilled(s, f, tasks, nused, sused);
    forall k: int ensures k in run <==> 0 <= k < |Holes(f, sused)| {
      RunComplete(schedule, pfree, last, k);
      CopiesOfTasks(s, f, tasks, nused, pfree, sused, k);
    }
    forall i | 0 <= i < |run| ensures 0 <= run[i] < |Holes(f, sused)| {
      assert run[i] in run;
    }
    EveryRunFills(s, u, Holes(f, sused), Fillers(f, sused), sused, done, run);
  }

  /**
   * All second-phase tasks, in any order. The outcome is that of every schedule in which they take turns, copy by
   * copy.
   */
  method FillHoles<T>(data: array<T>, begin: nat, n: nat, tasks: nat, nused: seq<nat>, nfree: seq<nat>,
                      pfree: seq<nat>, sused: nat,
                      ghost base: seq<T>, ghost s0: seq<T>, ghost s: seq<T>, ghost f: seq<bool>, p: T -> bool)
      returns (ghost u: seq<T>, ghost done: set<int>)
    requires begin + n <= data.Length && |s0| == |s| == |f| == n && sused <= n
    requires 0 < tasks == |nused| == |nfree| == |pfree|
    requires Window(data[..], base, begin, begin + n, s)
    requires Blocks(s0, s, tasks, nused, nfree, p) && Compacted(s, f, tasks, nused, sused)
    requires forall t: nat :: t < tasks ==>
      Cut(n, tasks, t) <= n && pfree[t] == |Positions(f, 0, Cut(n, tasks, t), HOLE)|
    modifies data
    ensures Window(data[..], base, begin, begin + n, u) && Filled(s, u, Holes(f, sused), Fillers(f, sused), sused, done)
    ensures forall k :: 0 <= k < |Holes(f, sused)| ==> k in done
    ensures forall schedule :: Complete(schedule, pfree, FillEnds(n, tasks, nused, pfree, sused)) ==>
      FilledBy(s, u, Holes(f, sused), Fillers(f, sused), RunOf(schedule, pfree))
  {
    hide Window, Filled, Compacted, Holes, Fillers, Positions, Filter;
    u, done := s, {};
    NoneFilled(s, f, tasks, nused, sused);
    var todo := AllTasks(tasks);
    while todo != {}
      invariant todo <= AllTasks(tasks)
      invariant Window(data[..], base, begin, begin + n, u)
      invariant Filled(s, u, Holes(f, sused), Fillers(f, sused), sused, done)
      invariant forall t: nat :: t < tasks && t !in todo ==> BlockFull(f, tasks, sused, t, done)
      decreases todo
    {
      var t: nat :| t in todo;
      CutMono(n, tasks, t, t + 1);
      assert BlockDone(s0, s, tasks, t, nused[t], nfree[t], p);
      u, done := FillTask(data, begin, n, tasks, t, nused, nfree, pfree, sused, base, s, f, u, done);
      todo := todo - {t};
    }
    AllHoles(f, tasks, sused, done);
    forall t: nat | t < tasks ensures HoleStart(f, tasks, t, pfree[t]) {
      CutMono(n, tasks, t, t + 1);
    }
    AnySchedule(s, u, f, tasks, nused, pfree, sused, done);
  }

  /** Task `t` has filled its holes. */
  ghost predicate BlockFull(f: seq<bool>, tasks: nat, sused: nat, t: nat, done: set<int>)
    requires t < tasks && sused <= |f|
  {
    forall k :: 0 <= k < |Holes(f, sused)| && Cut(|f|, tasks, t) <= Holes(f, sused)[k] < Cut(|f|, tasks, t + 1) ==>
      k in done
  }

  lemma NoneFilled<T>(s: seq<T>, f: seq<bool>, tasks: nat, nused: seq<nat>, sused: nat)
    requires sused <= |f| && Compacted(s, f, tasks, nused, sused)
    ensures Filled(s, s, Holes(f, sused), Fillers(f, sused), sused, {})
  {
    HolesMatchFillers(f, sused);
  }

  lemma AllHoles(f: seq<bool>, tasks: nat, sused: nat, done: set<int>)
    requires 0 < tasks && sused <= |f| && forall t: nat :: t < tasks ==> BlockFull(f, tasks, sused, t, done)
    ensures forall k :: 0 <= k < |Holes(f, sused)| ==> k in done
  {
    forall k | 0 <= k < |Holes(f, sused)| ensures k in done {
      HoleFlag(f, sused, k);
      CutEnds(|f|, tasks);
      var t := OwnerExists(|f|, tasks, tasks, Holes(f, sused)[k]);
      assert BlockFull(f, tasks, sused, t, done);
    }
  }

  /** `parallel_filter`: the kept items, in some order, at the front; the position behind them. */
  method ParallelFilter<T>(data: array<T>, begin: nat, end: nat, minStepSize: nat, threadCount: nat, p: T -> bool)
      returns (r: nat)
    requires begin <= end <= data.Length && (begin < end ==> 0 < minStepSize) && 0 < threadCount
    modifies data
    ensures r == begin + Count(old(data[begin..end]), p) <= end
    ensures multiset(data[begin..r]) == multiset(Filter(old(data[begin..end]), p))
    ensures forall k :: 0 <= k < data.Length && (k < begin || end <= k) ==> data[k] == old(data[k])
    ensures end - begin <= minStepSize ==> data[begin..r] == Filter(old(data[begin..end]), p)
    ensures end - begin <= minStepSize ==> forall k :: r <= k < end ==> data[k] == old(data[k])
    ensures minStepSize < end - begin ==>
      Outcome(old(data[begin..end]), data[begin..end], TaskCount(end - begin, minStepSize, threadCount, MAX_TASKS), p)
    ensures (forall k :: begin <= k < end ==> p(old(data[k]))) ==> data[..] == old(data[..])
  {
    hide Filter, Cut, Window, Filled, Compacted, Blocks, AllFiltered, Positions, Holes, Fillers, Bag, Complete;
    hide Outcome, FilledByRank;
    ghost var all := data[..];
    if end - begin <= minStepSize {
      r := SequentialFilter(data, begin, end, p);
      SequentialKeepsAll(all, data[..], begin, end, r, p);
      return;
    }
    var n := end - begin;
    var taskCount := TaskCount(n, minStepSize, threadCount, MAX_TASKS);
    ghost var base, s0 := data[..], data[begin..end];
    WindowSelf(base, begin, end);
    ghost var s;
    var nused, nfree;
    nused, nfree, s := FilterBlocks(data, begin, n, taskCount, p, base, s0);
    ghost var f := BlocksFlags(s0, s, taskCount, nused, nfree, p);
    var sused, sfree, pfree := Offsets(n, taskCount, nused, nfree, p, s0, s, f);
    FlagCount(s0, s, f, taskCount, nused, p);
    ghost var u, done := s, {};
    if sused != n {
      u, done := FillHoles(data, begin, n, taskCount, nused, nfree, pfree, sused, base, s0, s, f, p);
    } else {
      NoneFilled(s, f, taskCount, nused, sused);
      AllKept(f, sused);
    }
    r := begin + sused;
    FilterDone(data[..], base, begin, end, s, u, f, sused, done);
    FilterOutcome(data[..], base, begin, end, s0, s, f, u, taskCount, nused, p, sused, done);
  }

  lemma FilterOutcome<T>(a: seq<T>, base: seq<T>, begin: nat, end: nat, s0: seq<T>, s: seq<T>, f: seq<bool>, u: seq<T>,
                         tasks: nat, used: seq<nat>, p: T -> bool, sused: nat, done: set<int>)
    requires Window(a, base, begin, end, u) && begin <= end <= |base| && s0 == base[begin..end] && 0 < tasks
    requires AllFiltered(s0, s, f, tasks, used, p) && sused == Count(f, KEPT) == Count(s0, p) <= |f|
    requires Filled(s, u, Holes(f, sused), Fillers(f, sused), sused, done)
    requires forall k :: 0 <= k < |Holes(f, sused)| ==> k in done
    ensures begin <= end <= |a| && Outcome(s0, a[begin..end], tasks, p)
    ensures (forall k :: begin <= k < end ==> p(base[k])) ==> a == base
  {
    hide Filter, Filled, Holes, Fillers, Outcome, AllFiltered, FilledByRank, Window;
    FilteredLengths(s0, s, f, tasks, used, p);
    FilledIsByRank(s, u, f, sused, done);
    OutcomeIs(s0, s, f, u, tasks, used, p, sused);
    WindowWhole(a, base, begin, end, u);
    if forall k :: begin <= k < end ==> p(base[k]) {
      NothingFiltered(s0, s, f, u, tasks, used, p, sused);
      WindowSame(a, base, begin, end, u);
    }
  }

  /** A compacted block: its kept items in front, in order, and behind them the items that stood there before. */
  function CompactBlock<T>(block: seq<T>, p: T -> bool): (r: seq<T>)
    ensures |r| == |block|
  {
    Filter(block, p) + block[Count(block, p)..]
  }

  /** Which of its items are the kept ones. */
  function BlockMarks<T>(block: seq<T>, p: T -> bool): (r: seq<bool>)
    ensures |r| == |block|
  {
    seq(|block|, i => i < Count(block, p))
  }

  /** The first `t` blocks of `s0`, compacted one by one. */
  function CompactAll<T>(s0: seq<T>, tasks: nat, p: T -> bool, t: nat): (r: seq<T>)
    requires 0 < tasks && t <= tasks
    ensures |r| == Cut(|s0|, tasks, t) <= |s0|
  {
    CutEnds(|s0|, tasks);
    if t == 0 then [] else
      CutMono(|s0|, tasks, t - 1, t);
      CompactAll(s0, tasks, p, t - 1) + CompactBlock(s0[Cut(|s0|, tasks, t - 1)..Cut(|s0|, tasks, t)], p)
  }

  function AllMarks<T>(s0: seq<T>, tasks: nat, p: T -> bool, t: nat): (r: seq<bool>)
    requires 0 < tasks && t <= tasks
    ensures |r| == Cut(|s0|, tasks, t) <= |s0|
  {
    CutEnds(|s0|, tasks);
    if t == 0 then [] else
      CutMono(|s0|, tasks, t - 1, t);
      AllMarks(s0, tasks, p, t - 1) + BlockMarks(s0[Cut(|s0|, tasks, t - 1)..Cut(|s0|, tasks, t)], p)
  }

  /** What comes out of `s0` with this many tasks: all blocks compacted, then each hole in front filled by its rank. */
  ghost predicate Outcome<T>(s0: seq<T>, t: seq<T>, tasks: nat, p: T -> bool)
    requires 0 < tasks
  {
    FilledByRank(CompactAll(s0, tasks, p, tasks), t, AllMarks(s0, tasks, p, tasks), Count(s0, p))
  }

  lemma BlockIs<T>(s0: seq<T>, s: seq<T>, f: seq<bool>, tasks: nat, t: nat, used: nat, p: T -> bool)
    requires t < tasks && |s0| == |s| == |f| && BlockFiltered(s0, s, tasks, t, used, p) && BlockFlags(f, tasks, t, used)
    ensures var c, e := Cut(|s0|, tasks, t), Cut(|s0|, tasks, t + 1);
      c <= e <= |s0| && s[c..e] == CompactBlock(s0[c..e], p) && f[c..e] == BlockMarks(s0[c..e], p)
  {
    hide Cut, Filter;
    var c, e := Cut(|s0|, tasks, t), Cut(|s0|, tasks, t + 1);
    assert |s[c..c + used]| == used;
    assert s[c..e] == s[c..c + used] + s[c + used..e];
    assert s[c + used..e] == s0[c..e][used..];
  }

  lemma {:induction false} BlocksAre<T>(s0: seq<T>, s: seq<T>, f: seq<bool>, tasks: nat, used: seq<nat>, p: T -> bool,
                                        t: nat)
    requires AllFiltered(s0, s, f, tasks, used, p) && t <= tasks
    ensures Cut(|s0|, tasks, t) <= |s0|
    ensures s[..Cut(|s0|, tasks, t)] == CompactAll(s0, tasks, p, t)
    ensures f[..Cut(|s0|, tasks, t)] == AllMarks(s0, tasks, p, t)
  {
    hide Cut, Filter, CompactBlock, BlockMarks, BlockFiltered, BlockFlags;
    CutEnds(|s0|, tasks);
    if t != 0 {
      BlocksAre(s0, s, f, tasks, used, p, t - 1);
      assert BlockFiltered(s0, s, tasks, t - 1, used[t - 1], p) && BlockFlags(f, tasks, t - 1, used[t - 1]);
      BlockIs(s0, s, f, tasks, t - 1, used[t - 1], p);
      var c, e := Cut(|s0|, tasks, t - 1), Cut(|s0|, tasks, t);
      assert s[..e] == s[..c] + s[c..e] && f[..e] == f[..c] + f[c..e];
    }
  }

  lemma OutcomeIs<T>(s0: seq<T>, s: seq<T>, f: seq<bool>, t: seq<T>, tasks: nat, used: seq<nat>, p: T -> bool,
                     sused: nat)
    requires 0 < tasks && AllFiltered(s0, s, f, tasks, used, p) && FilledByRank(s, t, f, sused)
    requires sused == Count(s0, p)
    ensures Outcome(s0, t, tasks, p)
  {
    hide AllFiltered, FilledByRank, Filter, CompactAll, AllMarks;
    BlocksAre(s0, s, f, tasks, used, p, tasks);
    CutEnds(|s0|, tasks);
    FilteredLengths(s0, s, f, tasks, used, p);
    assert s[..|s0|] == s && f[..|s0|] == f;
  }

  lemma FilteredLengths<T>(s0: seq<T>, s: seq<T>, f: seq<bool>, tasks: nat, used: seq<nat>, p: T -> bool)
    requires AllFiltered(s0, s, f, tasks, used, p)
    ensures 0 < tasks && |s0| == |s| == |f|
  {}

  lemma SequentialKeepsAll<T>(a: seq<T>, b: seq<T>, begin: nat, end: nat, r: nat, p: T -> bool)
    requires begin <= r <= end <= |a| == |b| && b[begin..r] == Filter(a[begin..end], p)
    requires forall k :: 0 <= k < |a| && (k < begin || r <= k) ==> b[k] == a[k]
    ensures (forall k :: begin <= k < end ==> p(a[k])) ==> b == a
  {
    if forall k :: begin <= k < end ==> p(a[k]) {
      FilterAll(a[begin..end], p);
      forall k | begin <= k < r ensures b[k] == a[k] {
        assert b[begin..r][k - begin] == a[begin..end][k - begin];
      }
    }
    hide Filter;
  }

  /** If all items are kept, both phases leave everything as it was. */
  lemma NothingFiltered<T>(s0: seq<T>, s: seq<T>, f: seq<bool>, t: seq<T>, tasks: nat, used: seq<nat>, p: T -> bool,
                           sused: nat)
    requires AllFiltered(s0, s, f, tasks, used, p) && FilledByRank(s, t, f, sused)
    requires forall k :: 0 <= k < |s0| ==> p(s0[k])
    ensures t == s0
  {
    forall i: nat | i < |s0| ensures t[i] == s0[i] {
      CutEnds(|s0|, tasks);
      var b := OwnerExists(|s0|, tasks, tasks, i);
      assert BlockFiltered(s0, s, tasks, b, used[b], p) && BlockFlags(f, tasks, b, used[b]);
      WholeBlock(s0, s, f, tasks, b, used[b], p, i);
    }
  }

  lemma WholeBlock<T>(s0: seq<T>, s: seq<T>, f: seq<bool>, tasks: nat, b: nat, used: nat, p: T -> bool, i: nat)
    requires b < tasks && |s0| == |s| == |f| && BlockFiltered(s0, s, tasks, b, used, p) && BlockFlags(f, tasks, b, used)
    requires Cut(|s0|, tasks, b) <= i < Cut(|s0|, tasks, b + 1) && forall k :: 0 <= k < |s0| ==> p(s0[k])
    ensures s[i] == s0[i] && f[i]
  {
    hide Cut;
    var c, e := Cut(|s0|, tasks, b), Cut(|s0|, tasks, b + 1);
    FilterAll(s0[c..e], p);
    assert |s[c..c + used]| == |s0[c..e]|;
    assert s[c..c + used][i - c] == s0[c..e][i - c];
    hide Filter;
  }

  lemma WindowWhole<T>(a: seq<T>, base: seq<T>, lo: nat, hi: nat, w: seq<T>)
    requires Window(a, base, lo, hi, w)
    ensures lo <= hi <= |a| && a[lo..hi] == w
  {}

  lemma WindowSame<T>(a: seq<T>, base: seq<T>, lo: nat, hi: nat, w: seq<T>)
    requires Window(a, base, lo, hi, w) && w == base[lo..hi]
    ensures a == base
  {}

  /** What the window holds when all holes are filled. */
  lemma FilterDone<T>(a: seq<T>, base: seq<T>, begin: nat, end: nat, s: seq<T>, u: seq<T>, f: seq<bool>, sused: nat,
                      done: set<int>)
    requires Window(a, base, begin, end, u) && |s| == |f| == end - begin && sused == Count(f, KEPT) <= |f|
    requires Filled(s, u, Holes(f, sused), Fillers(f, sused), sused, done)
    requires forall k :: 0 <= k < |Holes(f, sused)| ==> k in done
    ensures begin + sused <= |a| == |base| && multiset(a[begin..begin + sused]) == Bag(s, f, 0, |s|, KEPT)
    ensures forall k :: 0 <= k < |a| && (k < begin || end <= k) ==> a[k] == base[k]
  {
    hide Filter, Holes, Fillers, Bag;
    FilledBag(s, u, f, sused, done);
    WindowPart(a, base, begin, end, u, 0, sused);
    assert a[begin..begin + sused] == u[..sused];
  }

  lemma AllKept(f: seq<bool>, sused: nat)
    requires sused == Count(f, KEPT) == |f|
    ensures Holes(f, sused) == []
  {
    HolesMatchFillers(f, sused);
  }
}

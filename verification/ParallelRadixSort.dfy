/** The multi-task LSD radix sort. */
module ParallelRadixSort {
  import opened Cuts
  import opened Digits
  import opened QuickSort
  import opened Rearranging
  import opened Seqs
  import opened StablePass
  import opened Tasks

  const MAX_TASKS: nat := 64

  lemma CountDigitSnoc<V>(s: seq<Item<V>>, x: Item<V>, shift: nat, b: nat)
    ensures Count(s + [x], HasDigit(shift, b)) ==
      Count(s, HasDigit(shift, b)) + if Digit(x.key, shift) == b then 1 else 0
  {
    assert (s + [x])[..|s|] == s;
  }

  /** A task's running write positions when it is about to copy item `i`. */
  ghost predicate OffsetsAt<V>(offset: seq<nat>, s: seq<Item<V>>, shift: nat, i: nat)
    requires i <= |s|
  {
    && |offset| == BUCKETS
    && forall b :: 0 <= b < BUCKETS ==> offset[b] == BucketStart(s, shift, b) + Count(s[..i], HasDigit(shift, b))
  }

  lemma OffsetsStep<V>(offset: seq<nat>, s: seq<Item<V>>, shift: nat, i: nat, d: nat)
    requires i < |s| && OffsetsAt(offset, s, shift, i) && d == Digit(s[i].key, shift)
    ensures d < |offset| && offset[d] == Rank(s, shift, i) && OffsetsAt(offset[d := offset[d] + 1], s, shift, i + 1)
  {
    hide Digit, Filter, HasDigit, BucketStart;
    var next := offset[d := offset[d] + 1];
    assert s[..i + 1] == s[..i] + [s[i]];
    forall b | 0 <= b < BUCKETS ensures next[b] == BucketStart(s, shift, b) + Count(s[..i + 1], HasDigit(shift, b)) {
      CountDigitSnoc(s[..i], s[i], shift, b);
    }
  }

  /**
   * A second-phase task between two of its steps: the item it copies next, and its write positions (none before it
   * starts).
   */
  datatype Copier = Copier(next: nat, offset: seq<nat>)

  function Advance(c: Copier, d: nat): Copier
    requires d < |c.offset|
  {
    Copier(c.next + 1, c.offset[d := c.offset[d] + 1])
  }

  lemma AdvanceAt<V>(c: Copier, s: seq<Item<V>>, shift: nat, d: nat)
    requires c.next < |s| && OffsetsAt(c.offset, s, shift, c.next) && d == Digit(s[c.next].key, shift)
    ensures d < |c.offset| && Rank(s, shift, c.next) < |s|
    ensures c.offset[d] == Rank(s, shift, c.next)
    ensures Advance(c, d).next == c.next + 1 && OffsetsAt(Advance(c, d).offset, s, shift, c.next + 1)
  {
    hide OffsetsAt, Rank, Digit;
    OffsetsStep(c.offset, s, shift, c.next, d);
    RankIsPlace(s, shift, c.next);
  }

  /** `left` counts the steps task `t` still has to make. */
  ghost predicate CopierAt<V>(c: Copier, left: nat, s: seq<Item<V>>, shift: nat, t: nat, tasks: nat)
    requires t < tasks
  {
    var first, end := Cut(|s|, tasks, t), Cut(|s|, tasks, t + 1);
    && first <= c.next <= end <= |s|
    && if c.offset == [] then c.next == first && left == end - first + 1
       else left == end - c.next && OffsetsAt(c.offset, s, shift, c.next)
  }

  /** The items already copied stand at their stable ranks. */
  ghost predicate Placed<V>(to: seq<Item<V>>, s: seq<Item<V>>, shift: nat, copied: set<nat>) {
    && |to| == |s|
    && forall i :: i in copied ==> i < |s| && Rank(s, shift, i) < |s| && to[Rank(s, shift, i)] == s[i]
  }

  lemma PlaceOne<V>(to: seq<Item<V>>, s: seq<Item<V>>, shift: nat, copied: set<nat>, i: nat)
    requires Placed(to, s, shift, copied) && i < |s|
    ensures Rank(s, shift, i) < |s|
    ensures Placed(to[Rank(s, shift, i) := s[i]], s, shift, copied + {i})
  {
    RankIsPlace(s, shift, i);
    forall j | j in copied && j != i ensures Rank(s, shift, j) != Rank(s, shift, i) {
      RankInjective(s, shift, i, j);
    }
  }

  /** Once every item is copied the destination is the distribution, whatever the order was. */
  lemma PlacedAll<V>(to: seq<Item<V>>, s: seq<Item<V>>, shift: nat, copied: set<nat>)
    requires Placed(to, s, shift, copied)
    requires forall i: nat :: i < |s| ==> i in copied
    ensures to == Pass(s, shift)
  {
    PassLength(s, shift);
    forall q | 0 <= q < |s| ensures to[q] == Pass(s, shift)[q] {
      var i := RankOnto(s, shift, q);
      RankIsPlace(s, shift, i);
    }
  }

  ghost predicate CopiersAt<V>(cs: seq<Copier>, left: seq<nat>, s: seq<Item<V>>, shift: nat) {
    && |cs| == |left|
    && forall t :: 0 <= t < |cs| ==> CopierAt(cs[t], left[t], s, shift, t, |cs|)
  }

  ghost predicate CopiedBy(cs: seq<Copier>, n: nat, copied: set<nat>) {
    forall t, i: nat :: 0 <= t < |cs| && Cut(n, |cs|, t) <= i < cs[t].next ==> i in copied
  }

  lemma AllCopied<V>(cs: seq<Copier>, left: seq<nat>, s: seq<Item<V>>, shift: nat, copied: set<nat>)
    requires CopiersAt(cs, left, s, shift) && CopiedBy(cs, |s|, copied) && 0 < |cs|
    requires forall t :: 0 <= t < |left| ==> left[t] == 0
    ensures forall i: nat :: i < |s| ==> i in copied
  {
    forall i: nat | i < |s| ensures i in copied {
      CutEnds(|s|, |cs|);
      var t := OwnerExists(|s|, |cs|, |cs|, i);
      assert CopierAt(cs[t], left[t], s, shift, t, |cs|);
    }
  }

  lemma EmptyCount<V>(s: seq<Item<V>>, shift: nat)
    ensures forall b: nat :: Count(s[..0], HasDigit(shift, b)) == 0
  {}

  class Sorter<V(!new)> {
    const src: array<Item<V>>
    const tmp: array<Item<V>>
    const N: nat
    var radixCount: array2?<nat>

    ghost predicate Valid()
      reads this
    {
      && src != tmp && src.Length == tmp.Length == N
      && radixCount != null && radixCount.Length0 == MAX_TASKS && radixCount.Length1 == BUCKETS
    }

    constructor (src: array<Item<V>>, tmp: array<Item<V>>)
      requires src != tmp && src.Length == tmp.Length
      ensures this.src == src && this.tmp == tmp && N == src.Length && radixCount == null
    {
      this.src, this.tmp, N := src, tmp, src.Length;
      radixCount := null;
    }

    /** Clears row `t`, then counts the digits of `from[startID..endID]` in it. */
    method CountPiece(shift: nat, from: array<Item<V>>, t: nat, startID: nat, endID: nat)
      requires Valid() && t < MAX_TASKS && startID <= endID <= from.Length
      modifies radixCount
      ensures forall b :: 0 <= b < BUCKETS ==> radixCount[t, b] == Count(from[startID..endID], HasDigit(shift, b))
      ensures forall u, b :: 0 <= u < MAX_TASKS && 0 <= b < BUCKETS && u != t ==>
        radixCount[u, b] == old(radixCount[u, b])
    {
      for i := 0 to BUCKETS
        invariant forall b :: 0 <= b < i ==> radixCount[t, b] == 0
        invariant forall u, b :: 0 <= u < MAX_TASKS && 0 <= b < BUCKETS && u != t ==>
          radixCount[u, b] == old(radixCount[u, b])
      {
        radixCount[t, i] := 0;
      }
      ghost var s := from[..];
      for i := startID to endID
        invariant from[..] == s
        invariant forall b :: 0 <= b < BUCKETS ==> radixCount[t, b] == Count(s[startID..i], HasDigit(shift, b))
        invariant forall u, b :: 0 <= u < MAX_TASKS && 0 <= b < BUCKETS && u != t ==>
          radixCount[u, b] == old(radixCount[u, b])
      {
        var index := Digit(from[i].key, shift);
        radixCount[t, index] := radixCount[t, index] + 1;
        assert s[startID..i + 1] == s[startID..i] + [s[i]];
        forall b | 0 <= b < BUCKETS
          ensures radixCount[t, b] == Count(s[startID..i + 1], HasDigit(shift, b))
        {
          CountDigitSnoc(s[startID..i], s[i], shift, b);
        }
      }
    }

    /** Task `t` counts the digits of its own piece, in its own row. */
    method Iteration0(shift: nat, from: array<Item<V>>, t: nat, tasks: nat)
      requires Valid() && from.Length == N && t < tasks <= MAX_TASKS
      modifies radixCount
      ensures RowCounted(from[..], shift, t, tasks)
      ensures forall u, b :: 0 <= u < MAX_TASKS && 0 <= b < BUCKETS && u != t ==>
        radixCount[u, b] == old(radixCount[u, b])
    {
      CutMono(N, tasks, t, t + 1);
      CountPiece(shift, from, t, Cut(N, tasks, t), Cut(N, tasks, t + 1));
    }

    /** Adds the counts of one row to `acc`, bucket by bucket. */
    method AddRow(acc: array<nat>, i: nat)
      requires Valid() && acc.Length == BUCKETS && i < MAX_TASKS
      modifies acc
      ensures forall j :: 0 <= j < BUCKETS ==> acc[j] == old(acc[j]) + radixCount[i, j]
    {
      for j := 0 to BUCKETS
        invariant forall k :: 0 <= k < j ==> acc[k] == old(acc[k]) + radixCount[i, k]
        invariant forall k :: j <= k < BUCKETS ==> acc[k] == old(acc[k])
      {
        acc[j] := acc[j] + radixCount[i, j];
      }
    }

    /** Row `t` holds the digit counts of task `t`'s piece. */
    ghost predicate RowCounted(s: seq<Item<V>>, shift: nat, t: nat, tasks: nat)
      requires Valid() && |s| == N && t < tasks <= MAX_TASKS
      reads this, radixCount
    {
      && Cut(N, tasks, t) <= Cut(N, tasks, t + 1) <= N
      && forall b :: 0 <= b < BUCKETS ==>
        radixCount[t, b] == Count(s[Cut(N, tasks, t)..Cut(N, tasks, t + 1)], HasDigit(shift, b))
    }

    ghost predicate Counted(s: seq<Item<V>>, shift: nat, tasks: nat)
      requires Valid() && |s| == N && 0 < tasks <= MAX_TASKS
      reads this, radixCount
    {
      forall t :: 0 <= t < tasks ==> RowCounted(s, shift, t, tasks)
    }

    /** Adds the rows of tasks `0..t` to `acc`: the digit counts of everything those tasks own. */
    method AddRows(acc: array<nat>, ghost s: seq<Item<V>>, shift: nat, t: nat, tasks: nat)
      requires Valid() && |s| == N && 0 < tasks <= MAX_TASKS && t <= tasks && Counted(s, shift, tasks)
      requires acc.Length == BUCKETS
      modifies acc
      ensures Cut(N, tasks, t) <= N
      ensures forall b :: 0 <= b < BUCKETS ==> acc[b] == old(acc[b]) + Count(s[..Cut(N, tasks, t)], HasDigit(shift, b))
    {
      CutEnds(N, tasks);
      EmptyCount(s, shift);
      for i := 0 to t
        invariant Counted(s, shift, tasks)
        invariant Cut(N, tasks, i) <= N
        invariant forall b :: 0 <= b < BUCKETS ==>
          acc[b] == old(acc[b]) + Count(s[..Cut(N, tasks, i)], HasDigit(shift, b))
      {
        ghost var before := acc[..];
        AddRow(acc, i);
        CutMono(N, tasks, i, i + 1);
        forall b | 0 <= b < BUCKETS
          ensures acc[b] == old(acc[b]) + Count(s[..Cut(N, tasks, i + 1)], HasDigit(shift, b))
        {
          assert acc[b] == before[b] + radixCount[i, b];
          assert RowCounted(s, shift, i, tasks);
          FilterSlice(s, Cut(N, tasks, i), Cut(N, tasks, i + 1), HasDigit(shift, b));
        }
      }
    }

    /** Where task `t` writes its first item of every bucket. */
    method StartOffsets(shift: nat, from: array<Item<V>>, t: nat, tasks: nat) returns (offset: seq<nat>)
      requires Valid() && from.Length == N && t < tasks <= MAX_TASKS && Counted(from[..], shift, tasks)
      ensures Cut(N, tasks, t) <= N && OffsetsAt(offset, from[..], shift, Cut(N, tasks, t))
    {
      ghost var s := from[..];
      CutEnds(N, tasks);
      var total := new nat[BUCKETS](_ => 0);
      AddRows(total, s, shift, tasks, tasks);
      assert s[..N] == s;
      var offsets := BucketOffsets(total, s, shift);
      AddRows(offsets, s, shift, t, tasks);
      offset := offsets[..];
    }

    /** The next item of one task goes to the write position of its bucket, which moves on. */
    method CopyOne(shift: nat, from: array<Item<V>>, to: array<Item<V>>, c: Copier) returns (next: Copier)
      requires from != to && from.Length == to.Length
      requires c.next < from.Length && OffsetsAt(c.offset, from[..], shift, c.next)
      modifies to
      ensures Rank(from[..], shift, c.next) < to.Length
      ensures to[..] == old(to[..])[Rank(from[..], shift, c.next) := from[c.next]]
      ensures next.next == c.next + 1 && OffsetsAt(next.offset, from[..], shift, next.next)
    {
      ghost var s := from[..];
      var elt := from[c.next];
      var index := Digit(elt.key, shift);
      AdvanceAt(c, s, shift, index);
      var slot := c.offset[index];
      next := Advance(c, index);
      Put(to, slot, elt);
      assert from[..] == s;
    }

    /** The next step of one task: its offsets first, then an item at a time. */
    method Step(shift: nat, from: array<Item<V>>, to: array<Item<V>>, t: nat, tasks: nat, c: Copier,
                ghost left: nat, ghost copied: set<nat>) returns (next: Copier, ghost copied': set<nat>)
      requires Valid() && from != to && from.Length == to.Length == N && t < tasks <= MAX_TASKS
      requires Counted(from[..], shift, tasks)
      requires 0 < left && CopierAt(c, left, from[..], shift, t, tasks) && Placed(to[..], from[..], shift, copied)
      modifies to
      ensures from[..] == old(from[..])
      ensures CopierAt(next, left - 1, from[..], shift, t, tasks) && Placed(to[..], from[..], shift, copied')
      ensures copied <= copied' && forall i: nat :: c.next <= i < next.next ==> i in copied'
    {
      hide Cut, OffsetsAt, Rank;
      ghost var s := from[..];
      if c.offset == [] {
        var offset := StartOffsets(shift, from, t, tasks);
        OffsetsNonempty(offset, s, shift, c.next);
        next, copied' := Copier(c.next, offset), copied;
      } else {
        PlaceOne(to[..], s, shift, copied, c.next);
        next := CopyOne(shift, from, to, c);
        copied' := copied + {c.next};
        OffsetsNonempty(next.offset, s, shift, next.next);
      }
    }

    /** The second phase, its tasks interleaved step by step in any order. */
    method Iteration1(shift: nat, from: array<Item<V>>, to: array<Item<V>>, tasks: nat)
      requires Valid() && from != to && from.Length == to.Length == N && 0 < tasks <= MAX_TASKS
      requires Counted(from[..], shift, tasks)
      modifies to
      ensures from[..] == old(from[..]) && to[..] == Pass(from[..], shift)
    {
      ghost var s := from[..];
      ghost var copied: set<nat> := {};
      var cs, left := Start(N, tasks, s, shift);
      hide Cut, CopierAt, Placed, CopiedBy, Pass;
      NonePlaced(to[..], s, shift);
      while exists t :: 0 <= t < tasks && 0 < left[t]
        invariant from[..] == s && Counted(s, shift, tasks)
        invariant |cs| == tasks && CopiersAt(cs, left, s, shift)
        invariant Placed(to[..], s, shift, copied) && CopiedBy(cs, N, copied)
        decreases Work(left)
      {
        var t: nat :| t < tasks && 0 < left[t];
        WorkStep(left, t);
        var c, copied' := Step(shift, from, to, t, tasks, cs[t], left[t], copied);
        CopiedByStep(cs, N, copied, t, c, copied');
        cs, left, copied := cs[t := c], left[t := left[t] - 1], copied';
      }
      AllCopied(cs, left, s, shift, copied);
      PlacedAll(to[..], s, shift, copied);
    }

    /** The first phase: the counting tasks, one by one in any order. */
    method CountAll(shift: nat, from: array<Item<V>>, tasks: nat)
      requires Valid() && from.Length == N && 0 < tasks <= MAX_TASKS
      modifies radixCount
      ensures Counted(from[..], shift, tasks)
    {
      ghost var s := from[..];
      var todo := AllTasks(tasks);
      while todo != {}
        invariant forall t: nat :: t in todo ==> t < tasks
        invariant from[..] == s
        invariant forall t: nat :: t < tasks && t !in todo ==> RowCounted(s, shift, t, tasks)
        decreases todo
      {
        var t :| t in todo;
        Iteration0(shift, from, t, tasks);
        todo := todo - {t};
      }
    }

    /** Both phases of one pass. */
    method Iteration(shift: nat, from: array<Item<V>>, to: array<Item<V>>, tasks: nat)
      requires Valid() && from != to && from.Length == to.Length == N && 0 < tasks <= MAX_TASKS
      modifies to, radixCount
      ensures to[..] == Pass(old(from[..]), shift)
    {
      ghost var s := from[..];
      CountAll(shift, from, tasks);
      assert from[..] == s;
      Iteration1(shift, from, to, tasks);
    }

    /** All passes over keys of 4 or 8 bytes, ping-ponging between `src` and `tmp`. */
    method RadixSort(keyBytes: nat, tasks: nat)
      requires keyBytes == 4 || keyBytes == 8
      requires src != tmp && src.Length == tmp.Length == N && 0 < tasks <= MAX_TASKS
      modifies this, src, tmp
      ensures src[..] == Passes(old(src[..]), keyBytes)
    {
      ghost var s := src[..];
      radixCount := new nat[MAX_TASKS, BUCKETS];
      EightPasses(s);
      FourIterations(0, tasks);
      if keyBytes == 8 {
        FourIterations(4, tasks);
      }
    }

    /** Passes `first..first+4`: `src` to `tmp` and back, twice. */
    method FourIterations(first: nat, tasks: nat)
      requires Valid() && 0 < tasks <= MAX_TASKS
      modifies src, tmp, radixCount
      ensures src[..] == FourMore(old(src[..]), first)
    {
      Iteration((first + 0) * BITS, src, tmp, tasks);
      Iteration((first + 1) * BITS, tmp, src, tasks);
      Iteration((first + 2) * BITS, src, tmp, tasks);
      Iteration((first + 3) * BITS, tmp, src, tasks);
    }

    /** Small inputs go to `std::sort`, larger ones to the radix passes. */
    method Sort(blockSize: nat, threadCount: nat, keyBytes: nat)
      requires 0 < blockSize && 0 < threadCount && (keyBytes == 4 || keyBytes == 8)
      requires src != tmp && src.Length == tmp.Length == N
      requires forall i :: 0 <= i < N ==> src[i].key < Pow2(keyBytes * BITS)
      modifies this, src, tmp
      ensures SortedByKey(src[..]) && multiset(src[..]) == multiset(old(src[..]))
      ensures blockSize < N ==> StableSortOf(src[..], old(src[..]))
    {
      ghost var s := src[..];
      if N <= blockSize {
        StdSort(src);
      } else {
        var numThreads := TaskCount(N, blockSize, threadCount, MAX_TASKS);
        RadixSort(keyBytes, numThreads);
        PassesSort(s, keyBytes);
        StableIsPerm(src[..], s);
      }
    }
  }

  function FourMore<V>(s: seq<Item<V>>, n: nat): seq<Item<V>> {
    Pass(Pass(Pass(Pass(s, n * BITS), (n + 1) * BITS), (n + 2) * BITS), (n + 3) * BITS)
  }

  lemma EightPasses<V>(s: seq<Item<V>>)
    ensures Passes(s, 4) == FourMore(s, 0)
    ensures Passes(s, 8) == FourMore(FourMore(s, 0), 4)
  {
    hide Pass, Passes, FourMore;
    FourPasses(s, 0);
    FourPasses(s, 4);
  }

  lemma FourPasses<V>(s: seq<Item<V>>, n: nat)
    ensures Passes(s, n + 4) == FourMore(Passes(s, n), n)
    ensures Passes(s, 0) == s
  {
    assert Passes(s, n + 4) == Pass(Passes(s, n + 3), (n + 3) * BITS);
    assert Passes(s, n + 3) == Pass(Passes(s, n + 2), (n + 2) * BITS);
    assert Passes(s, n + 2) == Pass(Passes(s, n + 1), (n + 1) * BITS);
  }

  lemma NonePlaced<V>(to: seq<Item<V>>, s: seq<Item<V>>, shift: nat)
    requires |to| == |s|
    ensures Placed(to, s, shift, {})
  {}

  lemma CopiedByStep(cs: seq<Copier>, n: nat, copied: set<nat>, t: nat, c: Copier, copied': set<nat>)
    requires t < |cs| && CopiedBy(cs, n, copied) && copied <= copied'
    requires forall i: nat :: cs[t].next <= i < c.next ==> i in copied'
    ensures CopiedBy(cs[t := c], n, copied')
  {
  }

  lemma OffsetsNonempty<V>(offset: seq<nat>, s: seq<Item<V>>, shift: nat, i: nat)
    requires i <= |s| && OffsetsAt(offset, s, shift, i)
    ensures offset != []
  {}

  /** Steps of task `t`: computing its offsets, and one copy for each of its items. */
  function Steps(n: nat, tasks: nat, t: nat): nat
    requires t < tasks
  {
    CutMono(n, tasks, t, t + 1);
    1 + Cut(n, tasks, t + 1) - Cut(n, tasks, t)
  }

  method Start<V>(n: nat, tasks: nat, ghost s: seq<Item<V>>, ghost shift: nat) returns (cs: seq<Copier>, left: seq<nat>)
    requires 0 < tasks && n == |s|
    ensures |cs| == tasks && CopiersAt(cs, left, s, shift) && CopiedBy(cs, n, {})
  {
    cs := seq(tasks, t requires 0 <= t < tasks => Copier(Cut(n, tasks, t), []));
    left := seq(tasks, t requires 0 <= t < tasks => Steps(n, tasks, t));
    forall t | 0 <= t < tasks ensures CopierAt(cs[t], left[t], s, shift, t, tasks) {
      CutMono(n, tasks, t, t + 1);
    }
  }

  /** Prefix sums of the bucket sizes. */
  method BucketOffsets<V>(total: array<nat>, ghost s: seq<Item<V>>, shift: nat) returns (offset: array<nat>)
    requires total.Length == BUCKETS
    requires forall b :: 0 <= b < BUCKETS ==> total[b] == Count(s, HasDigit(shift, b))
    ensures fresh(offset) && offset.Length == BUCKETS
    ensures forall b :: 0 <= b < BUCKETS ==> offset[b] == BucketStart(s, shift, b)
  {
    offset := new nat[BUCKETS];
    offset[0] := 0;
    BucketStartZero(s, shift);
    for i := 1 to BUCKETS
      invariant forall b :: 0 <= b < BUCKETS ==> total[b] == Count(s, HasDigit(shift, b))
      invariant forall b :: 0 <= b < i ==> offset[b] == BucketStart(s, shift, b)
    {
      offset[i] := offset[i - 1] + total[i - 1];
      BucketStartStep(s, shift, i - 1);
    }
  }
}

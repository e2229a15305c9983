/** Partitioning in blocks by many tasks, then exchanging what ended up on the wrong side. */
module ParallelPartition {
  import opened Cuts
  import opened Interleavings
  import opened Misplaced
  import opened Ranks
  import opened Rearranging
  import opened Seqs
  import opened SerialPartition
  import opened Tasks

  const MAX_TASKS: nat := 64

  /** What a first-phase task leaves behind: `counter_start`, `counter_left` and its two reductions. */
  datatype Block<V> = Block(start: nat, left: nat, leftReduction: V, rightReduction: V)

  /** Joining two reductions adds to the first what the second collected from the identity. */
  ghost predicate Joins<V(!new), T(!new)>(join: (V, V) -> V, op: (V, T) -> V, identity: V) {
    && (forall v :: join(v, identity) == v)
    && (forall v, w, x :: join(v, op(w, x)) == op(join(v, w), x))
  }

  lemma {:induction false} JoinFold<V(!new), T(!new)>(join: (V, V) -> V, op: (V, T) -> V, identity: V, v: V, s: seq<T>)
    requires Joins(join, op, identity)
    ensures join(v, Fold(op, identity, s)) == Fold(op, v, s)
  {
    if s != [] { JoinFold(join, op, identity, v, s[..|s| - 1]); }
  }

  lemma JoinPiece<V(!new), T(!new)>(join: (V, V) -> V, op: (V, T) -> V, identity: V, v: V, s: seq<T>, i: nat, j: nat,
                                    p: T -> bool)
    requires Joins(join, op, identity) && i <= j <= |s|
    ensures join(Fold(op, v, Filter(s[..i], p)), Fold(op, identity, Filter(s[i..j], p))) ==
      Fold(op, v, Filter(s[..j], p))
  {
    FilterSlice(s, i, j, p);
    JoinFold(join, op, identity, Fold(op, v, Filter(s[..i], p)), Filter(s[i..j], p));
    FoldAppend(op, v, Filter(s[..i], p), Filter(s[i..j], p));
  }

  /** Right of the point, left of the point: both lists of misplaced indices grow by one range a block. */
  lemma LeftStep<T>(s: seq<T>, mid: nat, c: nat, m: nat, e: nat, isLeft: T -> bool)
    requires c <= m <= e <= |s| && mid <= |s|
    requires (forall k :: c <= k < m ==> isLeft(s[k])) && (forall k :: m <= k < e ==> !isLeft(s[k]))
    ensures Positions(s, 0, Min(mid, e), Not(isLeft)) ==
      Positions(s, 0, Min(mid, c), Not(isLeft)) + Interval(m, Min(mid, e))
  {
    PositionsNone(s, 0, Min(mid, c), Min(mid, m), Not(isLeft));
    PositionsAll(s, 0, Min(mid, m), Min(mid, e), Not(isLeft));
  }

  lemma RightStep<T>(s: seq<T>, mid: nat, c: nat, m: nat, e: nat, isLeft: T -> bool)
    requires c <= m <= e <= |s| && mid <= |s|
    requires (forall k :: c <= k < m ==> isLeft(s[k])) && (forall k :: m <= k < e ==> !isLeft(s[k]))
    ensures Positions(s, mid, e, isLeft) == Positions(s, mid, c, isLeft) + Interval(if mid < c then c else mid, m)
  {
    var from := if mid < c then c else mid;
    PositionsAll(s, mid, from, m, isLeft);
    PositionsNone(s, mid, if from < m then m else from, e, isLeft);
  }

  /** As many items are misplaced on the left as on the right, when `mid` is the number of left items. */
  lemma Balanced<T>(s: seq<T>, mid: nat, isLeft: T -> bool)
    requires mid == Count(s, isLeft) <= |s|
    ensures |Positions(s, 0, mid, Not(isLeft))| == |Positions(s, mid, |s|, isLeft)|
    ensures Pairs(Positions(s, 0, mid, Not(isLeft)), Positions(s, mid, |s|, isLeft), |s|)
  {
    PositionsCount(s, 0, mid, Not(isLeft));
    PositionsCount(s, mid, |s|, isLeft);
    assert s[0..mid] == s[..mid] && s[mid..|s|] == s[mid..];
    CountSplit(s[..mid], isLeft);
    FilterSplit(s, mid, isLeft);
    PositionsSound(s, 0, mid, Not(isLeft));
    PositionsSound(s, mid, |s|, isLeft);
  }

  /** Exchanging all misplaced pairs partitions at `mid`. */
  lemma ExchangedSplits<T>(s: seq<T>, t: seq<T>, mid: nat, isLeft: T -> bool, l: seq<int>, r: seq<int>, done: set<int>)
    requires mid <= |s| && l == Positions(s, 0, mid, Not(isLeft)) && r == Positions(s, mid, |s|, isLeft)
    requires Pairs(l, r, |s|) && Exchanged(s, t, l, r, done) && forall k :: 0 <= k < |l| ==> k in done
    ensures forall q :: 0 <= q < mid ==> isLeft(t[q])
    ensures forall q :: mid <= q < |s| ==> !isLeft(t[q])
  {
    PositionsSound(s, 0, mid, Not(isLeft));
    PositionsSound(s, mid, |s|, isLeft);
    forall q | 0 <= q < mid ensures isLeft(t[q]) {
      ExchangedLeft(s, t, mid, isLeft, l, r, done, q);
    }
    forall q | mid <= q < |s| ensures !isLeft(t[q]) {
      ExchangedRight(s, t, mid, isLeft, l, r, done, q);
    }
  }

  lemma ExchangedLeft<T>(s: seq<T>, t: seq<T>, mid: nat, isLeft: T -> bool, l: seq<int>, r: seq<int>, done: set<int>,
                         q: nat)
    requires q < mid <= |s| && l == Positions(s, 0, mid, Not(isLeft))
    requires Pairs(l, r, |s|) && Exchanged(s, t, l, r, done) && forall k :: 0 <= k < |l| ==> k in done
    requires forall k :: 0 <= k < |r| ==> mid <= r[k] && isLeft(s[r[k]])
    ensures isLeft(t[q])
  {
    if isLeft(s[q]) {
      PositionsSound(s, 0, mid, Not(isLeft));
    } else {
      PositionsComplete(s, 0, mid, Not(isLeft), q);
      var k :| 0 <= k < |l| && l[k] == q;
      assert t[q] == s[r[k]];
    }
  }

  lemma ExchangedRight<T>(s: seq<T>, t: seq<T>, mid: nat, isLeft: T -> bool, l: seq<int>, r: seq<int>, done: set<int>,
                          q: nat)
    requires mid <= q < |s| && r == Positions(s, mid, |s|, isLeft)
    requires Pairs(l, r, |s|) && Exchanged(s, t, l, r, done) && forall k :: 0 <= k < |l| ==> k in done
    requires forall k :: 0 <= k < |l| ==> l[k] < mid && !isLeft(s[l[k]])
    ensures !isLeft(t[q])
  {
    if isLeft(s[q]) {
      PositionsComplete(s, mid, |s|, isLeft, q);
      var k :| 0 <= k < |r| && r[k] == q;
      assert t[q] == s[l[k]];
    } else {
      PositionsSound(s, mid, |s|, isLeft);
    }
  }

  /** The first misplaced range with unseen items after the first `index0` misplaced items. */
  method FindStartRange(index0: nat, r: Ranges) returns (i: nat, index: nat)
    requires index0 < |Flatten(r)|
    ensures i < |r| && index < r[i].Size()
    ensures CursorAt(r, index0, i, r[i].begin + index, r[i].Size() - index)
  {
    i, index := 0, index0;
    assert r[..|r|] == r;
    while index >= r[i].Size()
      invariant i < |r| && |Flatten(r[..i])| + index == index0
      decreases |r| - i
    {
      FlattenSnoc(r, i);
      index := index - r[i].Size();
      i := i + 1;
    }
    FlattenSnoc(r, i);
  }

  class PartitionTask<V(!new), T(!new)> {
    const data: array<T>
    const first: nat
    const N: nat
    const numTasks: nat
    const isLeft: T -> bool
    const op: (V, T) -> V
    const join: (V, V) -> V
    const identity: V
    var blocks: seq<Block<V>>
    var leftMisplaced: Ranges
    var rightMisplaced: Ranges

    ghost predicate Valid()
      reads this
    {
      numTasks <= N && (0 < N ==> 0 < numTasks) && first + N <= data.Length && |blocks| == numTasks
    }

    constructor (data: array<T>, first: nat, N: nat, identity: V, isLeft: T -> bool, op: (V, T) -> V, join: (V, V) -> V,
                 blockSize: nat, threadCount: nat)
      requires first + N <= data.Length && 0 < blockSize && 0 < threadCount
      ensures Valid() && this.data == data && this.first == first && this.N == N
      ensures numTasks == TaskCount(N, blockSize, threadCount, MAX_TASKS)
      ensures this.isLeft == isLeft && this.op == op && this.join == join && this.identity == identity
    {
      this.data, this.first, this.N := data, first, N;
      this.isLeft, this.op, this.join, this.identity := isLeft, op, join, identity;
      var tasks := TaskCount(N, blockSize, threadCount, MAX_TASKS);
      numTasks := tasks;
      blocks := seq(tasks, _ => Block(0, 0, identity, identity));
      leftMisplaced, rightMisplaced := [], [];
    }

    // ---------------------------------------------------------- first phase

    /** Block `t` of `s` is partitioned, and `b` says how; `s0` is what it held before. */
    ghost predicate BlockDone(s0: seq<T>, s: seq<T>, t: nat, b: Block<V>)
      requires 0 < numTasks && t < numTasks && |s0| == |s| == N
    {
      var c, e := Cut(N, numTasks, t), Cut(N, numTasks, t + 1);
      && c <= c + b.left <= e <= N && b.start == c
      && b.left == Count(s0[c..e], isLeft)
      && (forall k :: c <= k < c + b.left ==> isLeft(s[k]))
      && (forall k :: c + b.left <= k < e ==> !isLeft(s[k]))
      && (Commutes(op) ==> b.leftReduction == Fold(op, identity, Filter(s0[c..e], isLeft)))
      && (Commutes(op) ==> b.rightReduction == Fold(op, identity, Filter(s0[c..e], Not(isLeft))))
      && PartitionedAt(s0, s, c, e, c + b.left, isLeft)
    }

    ghost predicate Untouched(s0: seq<T>, s: seq<T>, t: nat)
      requires 0 < numTasks && t < numTasks && |s0| == |s| == N
    {
      forall k :: Cut(N, numTasks, t) <= k < Cut(N, numTasks, t + 1) && k < N ==> s[k] == s0[k]
    }

    /** One first-phase task. */
    method PartitionBlock(t: nat, ghost base: seq<T>, ghost s0: seq<T>, ghost s: seq<T>) returns (ghost u: seq<T>)
      requires Valid() && 0 < numTasks && t < numTasks && |s0| == |s| == N && Untouched(s0, s, t)
      requires Window(data[..], base, first, first + N, s)
      modifies data, this`blocks
      ensures Valid() && Window(data[..], base, first, first + N, u) && |u| == N
      ensures Rearranged(s, u, Cut(N, numTasks, t), Cut(N, numTasks, t + 1))
      ensures blocks == old(blocks)[t := blocks[t]] && BlockDone(s0, u, t, blocks[t])
    {
      hide Window, Filter, Fold, FoldBack, PartitionedAt, Cut, BlockDone, Commutes, Rearranged, Untouched;
      CutMono(N, numTasks, t, t + 1);
      var startID, endID := Cut(N, numTasks, t), Cut(N, numTasks, t + 1);
      ghost var a := data[..];
      var mid, left, right := SerialPartitioning(data, first + startID, first + endID, identity, identity, isLeft, op);
      u := RearrangedInWindow(a, data[..], base, first, first + N, s, startID, endID);
      var b := Block(startID, mid - (first + startID), left, right);
      BlockIs(s0, s, u, a, data[..], base, t, startID, endID, mid, b);
      blocks := blocks[t := b];
    }

    /** What the serial partitioning of block `t`, from `c` to `e`, has done. */
    lemma BlockIs(s0: seq<T>, s: seq<T>, u: seq<T>, a: seq<T>, a': seq<T>, base: seq<T>, t: nat, c: nat, e: nat,
                  mid: nat,
                  b: Block<V>)
      requires 0 < numTasks && t < numTasks && |s0| == |s| == |u| == N && Untouched(s0, s, t)
      requires c == Cut(N, numTasks, t) <= e == Cut(N, numTasks, t + 1) <= N
      requires Window(a, base, first, first + N, s) && first + N <= |a| == |a'|
      requires forall k :: c <= k < e ==> u[k] == a'[first + k]
      requires first + c <= mid <= first + e && b.start == c && b.left == mid - (first + c)
      requires mid == first + c + Count(a[first + c..first + e], isLeft)
      requires forall k :: first + c <= k < mid ==> isLeft(a'[k])
      requires forall k :: mid <= k < first + e ==> !isLeft(a'[k])
      requires Commutes(op) ==> b.leftReduction == Fold(op, identity, Filter(a[first + c..first + e], isLeft))
      requires Commutes(op) ==> b.rightReduction == Fold(op, identity, Filter(a[first + c..first + e], Not(isLeft)))
      requires PartitionedAt(a, a', first + c, first + e, mid, isLeft)
      ensures BlockDone(s0, u, t, b)
    {
      hide Filter, Fold, PartitionedAt, Cut, Commutes;
      WindowPart(a, base, first, first + N, s, c, e);
      assert s[c..e] == s0[c..e];
      PartitionedInWindow(a, a', s0, u, first, c, e, c + b.left, isLeft);
    }

    /** The blocks do not overlap. */
    lemma OtherBlock(s: seq<T>, u: seq<T>, s0: seq<T>, t: nat, v: nat, b: Block<V>)
      requires 0 < numTasks && t < numTasks && v < numTasks && t != v && |s0| == |s| == |u| == N
      requires Rearranged(s, u, Cut(N, numTasks, t), Cut(N, numTasks, t + 1))
      ensures BlockDone(s0, s, v, b) ==> BlockDone(s0, u, v, b)
      ensures Untouched(s0, s, v) ==> Untouched(s0, u, v)
    {
      if v < t { CutMono(N, numTasks, v + 1, t); } else { CutMono(N, numTasks, t + 1, v); }
      CutMono(N, numTasks, v, v + 1);
      var c, e := Cut(N, numTasks, v), Cut(N, numTasks, v + 1);
      hide PartitionedAt, Filter, Fold, Cut;
      PartitionedElsewhere(s0, s, u, c, e, c + b.left, isLeft);
    }

    ghost predicate AllDone(s0: seq<T>, s: seq<T>, bs: seq<Block<V>>)
      requires 0 < numTasks && |s0| == |s| == N && |bs| == numTasks
    {
      && Rearranged(s0, s, 0, N)
      && forall t :: 0 <= t < numTasks ==> BlockDone(s0, s, t, bs[t])
    }

    /** All first-phase tasks, in any order. */
    method PartitionBlocks(ghost base: seq<T>, ghost s0: seq<T>) returns (ghost s: seq<T>)
      requires Valid() && 0 < numTasks && |s0| == N && Window(data[..], base, first, first + N, s0)
      modifies data, this`blocks
      ensures Valid() && Window(data[..], base, first, first + N, s) && |s| == N
      ensures AllDone(s0, s, blocks)
    {
      s := s0;
      var todo := AllTasks(numTasks);
      while todo != {}
        invariant Valid() && Window(data[..], base, first, first + N, s) && |s| == N
        invariant Rearranged(s0, s, 0, N)
        invariant forall t: nat :: t in todo ==> t < numTasks && Untouched(s0, s, t)
        invariant forall t: nat :: t < numTasks && t !in todo ==> BlockDone(s0, s, t, blocks[t])
        decreases todo
      {
        var t :| t in todo;
        ghost var bs := blocks;
        ghost var u := PartitionBlock(t, base, s0, s);
        forall v: nat | v < numTasks && v != t
          ensures v in todo ==> Untouched(s0, u, v)
          ensures v !in todo ==> BlockDone(s0, u, v, blocks[v])
        {
          OtherBlock(s, u, s0, t, v, blocks[v]);
        }
        CutMono(N, numTasks, t, t + 1);
        Trans(s0, s, u, 0, N, Cut(N, numTasks, t), Cut(N, numTasks, t + 1));
        s := u;
        todo := todo - {t};
      }
    }

    // ---------------------------------------------------------- between the phases

    /** The reductions over all blocks, and the number of left items. */
    method Combine(left0: V, right0: V, ghost s0: seq<T>, ghost s: seq<T>) returns (mid: nat, left: V, right: V)
      requires Valid() && 0 < numTasks && |s0| == |s| == N && AllDone(s0, s, blocks)
      ensures mid == Count(s0, isLeft)
      ensures Commutes(op) && Joins(join, op, identity) ==> left == Fold(op, left0, Filter(s0, isLeft))
      ensures Commutes(op) && Joins(join, op, identity) ==> right == Fold(op, right0, Filter(s0, Not(isLeft)))
    {
      hide PartitionedAt;
      left, right, mid := left0, right0, 0;
      CutEnds(N, numTasks);
      assert s0[..N] == s0;
      for i := 0 to numTasks
        invariant Cut(N, numTasks, i) <= N && mid == Count(s0[..Cut(N, numTasks, i)], isLeft)
        invariant Commutes(op) && Joins(join, op, identity) ==>
          left == Fold(op, left0, Filter(s0[..Cut(N, numTasks, i)], isLeft))
        invariant Commutes(op) && Joins(join, op, identity) ==>
          right == Fold(op, right0, Filter(s0[..Cut(N, numTasks, i)], Not(isLeft)))
      {
        CutMono(N, numTasks, i, i + 1);
        CombineStep(left0, left, s0, i, isLeft);
        CombineStep(right0, right, s0, i, Not(isLeft));
        assert BlockDone(s0, s, i, blocks[i]);
        left := join(left, blocks[i].leftReduction);
        right := join(right, blocks[i].rightReduction);
        mid := mid + blocks[i].left;
      }
    }

    lemma CombineStep(v0: V, v: V, s0: seq<T>, i: nat, p: T -> bool)
      requires 0 < numTasks && i < numTasks && |s0| == N
      ensures Cut(N, numTasks, i) <= Cut(N, numTasks, i + 1) <= N
      ensures Count(s0[..Cut(N, numTasks, i + 1)], p)
           == Count(s0[..Cut(N, numTasks, i)], p) + Count(s0[Cut(N, numTasks, i)..Cut(N, numTasks, i + 1)], p)
      ensures Joins(join, op, identity) ==>
        join(Fold(op, v0, Filter(s0[..Cut(N, numTasks, i)], p)),
             Fold(op, identity, Filter(s0[Cut(N, numTasks, i)..Cut(N, numTasks, i + 1)], p)))
        == Fold(op, v0, Filter(s0[..Cut(N, numTasks, i + 1)], p))
    {
      CutMono(N, numTasks, i, i + 1);
      FilterSlice(s0, Cut(N, numTasks, i), Cut(N, numTasks, i + 1), p);
      if Joins(join, op, identity) {
        JoinPiece(join, op, identity, v0, s0, Cut(N, numTasks, i), Cut(N, numTasks, i + 1), p);
      }
    }

    /** The misplaced indices, on the left and on the right of `mid`, of the first `n` items. */
    ghost predicate Listed(s: seq<T>, mid: nat, n: nat, l: Ranges, r: Ranges)
      requires |s| == N && mid <= N && n <= N
    {
      && Flatten(l) == Positions(s, 0, Min(mid, n), Not(isLeft))
      && Flatten(r) == Positions(s, mid, n, isLeft)
    }

    lemma ListBlock(s: seq<T>, mid: nat, c: nat, m: nat, e: nat, l: Ranges, r: Ranges, lm: Range, rm: Range,
                    l': Ranges, r': Ranges)
      requires |s| == N && mid <= N && c <= m <= e <= N && Listed(s, mid, c, l, r)
      requires (forall k :: c <= k < m ==> isLeft(s[k])) && (forall k :: m <= k < e ==> !isLeft(s[k]))
      requires lm == Range(0, mid).Intersect(Range(m, e)) && l' == if lm.Empty() then l else l + [lm]
      requires rm == Range(mid, N).Intersect(Range(c, m)) && r' == if rm.Empty() then r else r + [rm]
      ensures Listed(s, mid, e, l', r')
    {
      hide Flatten, Positions, Interval;
      LeftStep(s, mid, c, m, e, isLeft);
      RightStep(s, mid, c, m, e, isLeft);
      FlattenAdd(l, lm);
      FlattenAdd(r, rm);
    }

    lemma NoneListed(s: seq<T>, mid: nat)
      requires |s| == N && mid <= N
      ensures Listed(s, mid, 0, [], []) && Flatten([]) == []
    {}

    /** Lists, block by block, what stands on the other side of the partition point than it belongs to. */
    method FindMisplaced(mid: nat, ghost s0: seq<T>, ghost s: seq<T>) returns (itemsLeft: nat, itemsRight: nat)
      requires Valid() && 0 < numTasks && |s0| == |s| == N && AllDone(s0, s, blocks) && mid <= N
      modifies this`leftMisplaced, this`rightMisplaced
      ensures Listed(s, mid, N, leftMisplaced, rightMisplaced)
      ensures itemsLeft == |Flatten(leftMisplaced)| && itemsRight == |Flatten(rightMisplaced)|
    {
      hide Flatten, Positions, Listed, Filter, Fold;
      leftMisplaced, rightMisplaced, itemsLeft, itemsRight := [], [], 0, 0;
      CutEnds(N, numTasks);
      NoneListed(s, mid);
      for i := 0 to numTasks
        invariant Cut(N, numTasks, i) <= N
        invariant Listed(s, mid, Cut(N, numTasks, i), leftMisplaced, rightMisplaced)
        invariant itemsLeft == |Flatten(leftMisplaced)| && itemsRight == |Flatten(rightMisplaced)|
      {
        assert BlockDone(s0, s, i, blocks[i]);
        itemsLeft, itemsRight := AddMisplaced(mid, Cut(N, numTasks, i), Cut(N, numTasks, i) + blocks[i].left,
                                              Cut(N, numTasks, i + 1), itemsLeft, itemsRight, s);
      }
    }

    method AddMisplaced(mid: nat, c: nat, m: nat, e: nat, itemsLeft0: nat, itemsRight0: nat, ghost s: seq<T>)
        returns (itemsLeft: nat, itemsRight: nat)
      requires |s| == N && mid <= N && c <= m <= e <= N && Listed(s, mid, c, leftMisplaced, rightMisplaced)
      requires (forall k :: c <= k < m ==> isLeft(s[k])) && (forall k :: m <= k < e ==> !isLeft(s[k]))
      requires itemsLeft0 == |Flatten(leftMisplaced)| && itemsRight0 == |Flatten(rightMisplaced)|
      modifies this`leftMisplaced, this`rightMisplaced
      ensures Listed(s, mid, e, leftMisplaced, rightMisplaced)
      ensures itemsLeft == |Flatten(leftMisplaced)| && itemsRight == |Flatten(rightMisplaced)|
    {
      hide Flatten, Positions, Interval;
      ghost var l, r := leftMisplaced, rightMisplaced;
      var globalLeft, globalRight := Range(0, mid), Range(mid, N);
      var lm, rm := globalLeft.Intersect(Range(m, e)), globalRight.Intersect(Range(c, m));
      itemsLeft, itemsRight := itemsLeft0, itemsRight0;
      FlattenAdd(l, lm);
      FlattenAdd(r, rm);
      if !lm.Empty() {
        itemsLeft := itemsLeft + lm.Size();
        leftMisplaced := leftMisplaced + [lm];
      }
      if !rm.Empty() {
        itemsRight := itemsRight + rm.Size();
        rightMisplaced := rightMisplaced + [rm];
      }
      ListBlock(s, mid, c, m, e, l, r, lm, rm, leftMisplaced, rightMisplaced);
    }

    // ---------------------------------------------------------- second phase

    /** Exchanges the two items of misplaced pair `k`. */
    method ExchangePair(l: int, r: int, ghost base: seq<T>, ghost s: seq<T>, ghost t: seq<T>, ghost ls: seq<int>,
                        ghost rs: seq<int>,
                        ghost done: set<int>, ghost k: nat) returns (ghost u: seq<T>)
      requires first + N <= data.Length && |s| == |t| == N && Pairs(ls, rs, N)
      requires Window(data[..], base, first, first + N, t) && Exchanged(s, t, ls, rs, done)
      requires k < |ls| && l == ls[k] && r == rs[k] && k !in done
      modifies data
      ensures |u| == N && Window(data[..], base, first, first + N, u) && Exchanged(s, u, ls, rs, done + {k})
    {
      hide Window;
      ExchangeOne(s, t, ls, rs, done, k);
      u := Swapped(t, l, r);
      WindowSwap(data[..], base, first, first + N, t, l, r);
      Swap(data, first + l, first + r);
    }

    /** One second-phase task: exchanges the misplaced pairs `startID..endID`. */
    method SwapItems(startID: nat, endID: nat, ghost base: seq<T>, ghost s: seq<T>, ghost t0: seq<T>,
                     ghost done: set<int>)
        returns (ghost t: seq<T>)
      requires first + N <= data.Length && |s| == |t0| == N
      requires Pairs(Flatten(leftMisplaced), Flatten(rightMisplaced), N)
      requires startID <= endID <= |Flatten(leftMisplaced)| && startID < |Flatten(leftMisplaced)|
      requires Window(data[..], base, first, first + N, t0)
      requires Exchanged(s, t0, Flatten(leftMisplaced), Flatten(rightMisplaced), done)
      requires forall k :: startID <= k < endID ==> k !in done
      modifies data
      ensures |t| == N && Window(data[..], base, first, first + N, t)
      ensures Exchanged(s, t, Flatten(leftMisplaced), Flatten(rightMisplaced), done + IntSet(startID, endID))
    {
      hide Window, Exchanged, Pairs, CursorAt, Flatten;
      var li, leftLocalIndex := FindStartRange(startID, leftMisplaced);
      PairsLength(Flatten(leftMisplaced), Flatten(rightMisplaced), N);
      var ri, rightLocalIndex := FindStartRange(startID, rightMisplaced);
      var lLeft := leftMisplaced[li].Size() - leftLocalIndex;
      var rLeft := rightMisplaced[ri].Size() - rightLocalIndex;
      var l, r := leftMisplaced[li].begin + leftLocalIndex, rightMisplaced[ri].begin + rightLocalIndex;
      var size: nat := endID - startID;
      t := t0;
      assert done + IntSet(startID, startID) == done;
      while size != 0
        invariant size <= endID - startID && |t| == N && Window(data[..], base, first, first + N, t)
        invariant li < |leftMisplaced| && ri < |rightMisplaced| && 0 <= lLeft && 0 <= rLeft
        invariant CursorAt(leftMisplaced, endID - size, li, l, lLeft)
        invariant CursorAt(rightMisplaced, endID - size, ri, r, rLeft)
        invariant Exchanged(s, t, Flatten(leftMisplaced), Flatten(rightMisplaced), done + IntSet(startID, endID - size))
        decreases size
      {
        if lLeft == 0 {
          CursorNext(leftMisplaced, endID - size, li, l);
          li := li + 1;
          lLeft := leftMisplaced[li].Size();
          l := leftMisplaced[li].begin;
        }
        if rLeft == 0 {
          CursorNext(rightMisplaced, endID - size, ri, r);
          ri := ri + 1;
          rLeft := rightMisplaced[ri].Size();
          r := rightMisplaced[ri].begin;
        }
        var items := Min(size, Min(lLeft, rLeft));
        t := SwapRun(startID, endID, items, size, li, l, lLeft, ri, r, rLeft, base, s, t, done);
        size, lLeft, rLeft, l, r := size - items, lLeft - items, rLeft - items, l + items, r + items;
      }
    }

    /** As many pairs one after the other as both current ranges still have. */
    method SwapRun(ghost startID: nat, ghost endID: nat, items0: nat, ghost size: nat, ghost li: nat, l0: int,
                   ghost lLeft: nat,
                   ghost ri: nat, r0: int, ghost rLeft: nat, ghost base: seq<T>, ghost s: seq<T>, ghost t0: seq<T>,
                   ghost done: set<int>)
        returns (ghost t: seq<T>)
      requires first + N <= data.Length && |s| == |t0| == N && startID + size <= endID
      requires items0 <= size && items0 <= lLeft && items0 <= rLeft
      requires Pairs(Flatten(leftMisplaced), Flatten(rightMisplaced), N)
      requires CursorAt(leftMisplaced, endID - size, li, l0, lLeft)
      requires CursorAt(rightMisplaced, endID - size, ri, r0, rLeft)
      requires Window(data[..], base, first, first + N, t0)
      requires Exchanged(s, t0, Flatten(leftMisplaced), Flatten(rightMisplaced), done + IntSet(startID, endID - size))
      requires forall k :: startID <= k < endID ==> k !in done
      modifies data
      ensures |t| == N && Window(data[..], base, first, first + N, t)
      ensures Exchanged(s, t, Flatten(leftMisplaced), Flatten(rightMisplaced),
                        done + IntSet(startID, endID - size + items0))
      ensures CursorAt(leftMisplaced, endID - size + items0, li, l0 + items0, lLeft - items0)
      ensures CursorAt(rightMisplaced, endID - size + items0, ri, r0 + items0, rLeft - items0)
    {
      var items, l, r := items0, l0, r0;
      ghost var k := endID - size;
      t := t0;
      hide Window, Exchanged, Pairs, CursorAt, Flatten;
      while items != 0
        invariant 0 <= items <= items0 && k == endID - size + (items0 - items) && l == l0 + (items0 - items)
        invariant r == r0 + (items0 - items)
        invariant |t| == N && Window(data[..], base, first, first + N, t)
        invariant CursorAt(leftMisplaced, k, li, l, lLeft - (items0 - items))
        invariant CursorAt(rightMisplaced, k, ri, r, rLeft - (items0 - items))
        invariant Exchanged(s, t, Flatten(leftMisplaced), Flatten(rightMisplaced), done + IntSet(startID, k))
        decreases items
      {
        CursorIndex(leftMisplaced, k, li, l, lLeft - (items0 - items));
        CursorIndex(rightMisplaced, k, ri, r, rLeft - (items0 - items));
        t := ExchangePair(l, r, base, s, t, Flatten(leftMisplaced), Flatten(rightMisplaced),
                          done + IntSet(startID, k), k);
        assert done + IntSet(startID, k) + {k} == done + IntSet(startID, k + 1);
        items, k, l, r := items - 1, k + 1, l + 1, r + 1;
      }
    }

    /**
     * All second-phase tasks, in any order. The outcome is that of every schedule in which they take turns, pair by
     * pair.
     */
    method SwapAll(items: nat, ghost base: seq<T>, ghost s: seq<T>) returns (ghost t: seq<T>, ghost done: set<int>)
      requires Valid() && 0 < numTasks && |s| == N && Window(data[..], base, first, first + N, s)
      requires 0 < items == |Flatten(leftMisplaced)| && Pairs(Flatten(leftMisplaced), Flatten(rightMisplaced), N)
      modifies data
      ensures |t| == N && Window(data[..], base, first, first + N, t)
      ensures Exchanged(s, t, Flatten(leftMisplaced), Flatten(rightMisplaced), done)
      ensures forall k :: 0 <= k < items ==> k in done
      ensures forall schedule :: Complete(schedule, Starts(items, numTasks), Ends(items, numTasks)) ==>
        ExchangedBy(s, t, Flatten(leftMisplaced), Flatten(rightMisplaced), RunOf(schedule, Starts(items, numTasks)))
    {
      hide Window, Exchanged, Pairs, Flatten, Progress, Cut;
      t, done := s, {};
      NoneExchanged(s, Flatten(leftMisplaced), Flatten(rightMisplaced));
      var todo := AllTasks(numTasks);
      ProgressStart(items, numTasks);
      while todo != {}
        invariant |t| == N && Window(data[..], base, first, first + N, t)
        invariant Exchanged(s, t, Flatten(leftMisplaced), Flatten(rightMisplaced), done)
        invariant todo <= AllTasks(numTasks) && Progress(items, numTasks, todo, done)
        decreases todo
      {
        var v: nat :| v in todo;
        CutMono(items, numTasks, v, v + 1);
        CutBelow(items, numTasks, v);
        ProgressOwn(items, numTasks, todo, done, v);
        ProgressStep(items, numTasks, todo, done, v);
        var startID, endID := Cut(items, numTasks, v), Cut(items, numTasks, v + 1);
        t := SwapItems(startID, endID, base, s, t, done);
        done := done + IntSet(startID, endID);
        todo := todo - {v};
      }
      ProgressEnd(items, numTasks, done);
      AnySchedule(items, numTasks, s, t, Flatten(leftMisplaced), Flatten(rightMisplaced), done);
    }

    /** `partition`: returns the number of left items, and the two extended reductions. */
    method Partition(left0: V, right0: V) returns (mid: nat, left: V, right: V)
      requires Valid()
      modifies this, data
      ensures mid <= N && mid == Count(old(data[first..first + N]), isLeft)
      ensures forall k :: first <= k < first + mid ==> isLeft(data[k])
      ensures forall k :: first + mid <= k < first + N ==> !isLeft(data[k])
      ensures Rearranged(old(data[..]), data[..], first, first + N)
      ensures Commutes(op) && Joins(join, op, identity) ==>
        left == Fold(op, left0, Filter(old(data[first..first + N]), isLeft))
      ensures Commutes(op) && Joins(join, op, identity) ==>
        right == Fold(op, right0, Filter(old(data[first..first + N]), Not(isLeft)))
      ensures Outcome(old(data[first..first + N]), data[first..first + N], numTasks, mid, isLeft)
    {
      if numTasks == 0 {
        NothingToDo(data[..], left0, right0);
        NothingComesOut(data[first..first + N], isLeft);
        return 0, left0, right0;
      }
      ghost var base := data[..];
      ghost var s0 := data[first..first + N];
      WindowSelf(base, first, first + N);
      ghost var s := PartitionBlocks(base, s0);
      mid, left, right := Combine(left0, right0, s0, s);
      DoneCount(s0, s, blocks, mid);
      var itemsLeft, itemsRight := FindMisplaced(mid, s0, s);
      MisplacedPairs(s, mid, leftMisplaced, rightMisplaced);
      assert itemsLeft == itemsRight;
      ghost var t, done := s, {};
      if itemsLeft == 0 {
        NoneExchanged(s, Flatten(leftMisplaced), Flatten(rightMisplaced));
      } else {
        t, done := SwapAll(itemsLeft, base, s);
      }
      Finish(data[..], base, s0, s, t, blocks, mid, leftMisplaced, rightMisplaced, done);
      FinishOutcome(data[..], base, s0, s, t, blocks, mid, leftMisplaced, rightMisplaced, done);
    }

    /** Without items there are no tasks, and no loop does anything. */
    lemma NothingToDo(a: seq<T>, v: V, w: V)
      requires N == 0 && first <= |a|
      ensures Count(a[first..first + N], isLeft) == 0 && Rearranged(a, a, first, first + N)
      ensures v == Fold(op, v, Filter(a[first..first + N], isLeft))
      ensures w == Fold(op, w, Filter(a[first..first + N], Not(isLeft)))
    {}

    lemma DoneCount(s0: seq<T>, s: seq<T>, bs: seq<Block<V>>, mid: nat)
      requires 0 < numTasks && |s0| == |s| == N && |bs| == numTasks && AllDone(s0, s, bs) && mid == Count(s0, isLeft)
      ensures mid == Count(s, isLeft) <= N
    {
      CountSame(s0, s, isLeft);
    }

    lemma MisplacedPairs(s: seq<T>, mid: nat, l: Ranges, r: Ranges)
      requires |s| == N && mid == Count(s, isLeft) <= N && Listed(s, mid, N, l, r)
      ensures |Flatten(l)| == |Flatten(r)| && Pairs(Flatten(l), Flatten(r), N)
    {
      Balanced(s, mid, isLeft);
    }

    lemma Finish(a: seq<T>, base: seq<T>, s0: seq<T>, s: seq<T>, t: seq<T>, bs: seq<Block<V>>, mid: nat, l: Ranges,
                 r: Ranges, done: set<int>)
      requires 0 < numTasks && |s0| == |s| == |t| == N && |bs| == numTasks && AllDone(s0, s, bs)
      requires first + N <= |base| && s0 == base[first..first + N] && Window(a, base, first, first + N, t)
      requires mid <= N && Listed(s, mid, N, l, r) && Pairs(Flatten(l), Flatten(r), N)
      requires Exchanged(s, t, Flatten(l), Flatten(r), done) && forall k :: 0 <= k < |Flatten(l)| ==> k in done
      ensures forall k :: first <= k < first + mid ==> isLeft(a[k])
      ensures forall k :: first + mid <= k < first + N ==> !isLeft(a[k])
      ensures Rearranged(base, a, first, first + N)
    {
      hide PartitionedAt, Filter, Cut, Flatten, Positions, Pairs, BlockDone;
      ExchangedSplits(s, t, mid, isLeft, Flatten(l), Flatten(r), done);
      WindowRearranged(a, base, first, first + N, t);
    }

    lemma FinishOutcome(a: seq<T>, base: seq<T>, s0: seq<T>, s: seq<T>, t: seq<T>, bs: seq<Block<V>>, mid: nat,
                        l: Ranges,
                        r: Ranges, done: set<int>)
      requires 0 < numTasks && |s0| == |s| == |t| == N && |bs| == numTasks && AllDone(s0, s, bs)
      requires first + N <= |base| && s0 == base[first..first + N] && Window(a, base, first, first + N, t)
      requires mid <= N && Listed(s, mid, N, l, r) && Pairs(Flatten(l), Flatten(r), N)
      requires Exchanged(s, t, Flatten(l), Flatten(r), done) && forall k :: 0 <= k < |Flatten(l)| ==> k in done
      ensures Outcome(s0, a[first..first + N], numTasks, mid, isLeft)
    {
      hide PartitionedAt, PairedAt, Exchanged, Filter, Cut, Flatten, Positions, Pairs;
      ExchangedIsPaired(s, t, mid, isLeft, done);
      forall b: nat | b < numTasks ensures BlockPartitioned(s0, s, numTasks, b, isLeft) {
        assert BlockDone(s0, s, b, bs[b]);
      }
      assert a[first..first + N] == t;
      assert BlocksPartitioned(s0, s, numTasks, isLeft);
    }
  }

  /**
   * What comes out of `s0` with this many tasks: every block partitioned, then the wrong items of both sides paired.
   */
  ghost predicate Outcome<T(!new)>(s0: seq<T>, t: seq<T>, tasks: nat, mid: nat, isLeft: T -> bool) {
    exists s: seq<T> :: BlocksPartitioned(s0, s, tasks, isLeft) && PairedAt(s, t, mid, isLeft)
  }

  ghost predicate BlocksPartitioned<T>(s0: seq<T>, s: seq<T>, tasks: nat, isLeft: T -> bool) {
    |s| == |s0| && forall t: nat :: t < tasks ==> BlockPartitioned(s0, s, tasks, t, isLeft)
  }

  ghost predicate BlockPartitioned<T>(s0: seq<T>, s: seq<T>, tasks: nat, t: nat, isLeft: T -> bool)
    requires t < tasks
  {
    var c, e := Cut(|s0|, tasks, t), Cut(|s0|, tasks, t + 1);
    c <= e <= |s0| && PartitionedAt(s0, s, c, e, c + Count(s0[c..e], isLeft), isLeft)
  }

  lemma NothingComesOut<T(!new)>(s: seq<T>, isLeft: T -> bool)
    requires s == []
    ensures Outcome(s, s, 0, 0, isLeft)
  {
    assert BlocksPartitioned(s, s, 0, isLeft) && PairedAt(s, s, 0, isLeft);
  }

  /** Items outside of the block do not matter to it. */
  lemma PartitionedElsewhere<T>(s0: seq<T>, s: seq<T>, u: seq<T>, c: int, e: int, m: int, isLeft: T -> bool)
    requires 0 <= c <= e <= |s| == |u| == |s0| && forall k :: c <= k < e ==> u[k] == s[k]
    ensures PartitionedAt(s0, s, c, e, m, isLeft) ==> PartitionedAt(s0, u, c, e, m, isLeft)
  {
    if PartitionedAt(s0, s, c, e, m, isLeft) {
      PartitionedInWindow(s0, s, s0, u, 0, c, e, m, isLeft);
    }
  }

  /** However the swap tasks take turns, pair by pair: the outcome is the same. */
  lemma AnySchedule<T>(items: nat, tasks: nat, s: seq<T>, t: seq<T>, l: seq<int>, r: seq<int>, done: set<int>)
    requires 0 < tasks && Pairs(l, r, |s|) && |l| == items && Exchanged(s, t, l, r, done)
    requires forall k :: 0 <= k < items ==> k in done
    ensures forall schedule :: Complete(schedule, Starts(items, tasks), Ends(items, tasks)) ==>
      ExchangedBy(s, t, l, r, RunOf(schedule, Starts(items, tasks)))
  {
    hide Exchanged, ExchangedBy, RunOf, AllOnce, Pairs;
    forall schedule | Complete(schedule, Starts(items, tasks), Ends(items, tasks))
      ensures ExchangedBy(s, t, l, r, RunOf(schedule, Starts(items, tasks)))
    {
      PiecesRun(items, tasks, schedule);
      EveryRunExchanges(s, t, l, r, done, RunOf(schedule, Starts(items, tasks)));
    }
  }

  /** `parallel_partitioning`: serial below the threshold, in parallel blocks otherwise. */
  method ParallelPartitioning<V(!new), T(!new)>(data: array<T>, begin: nat, end: nat, identity: V, left0: V, right0: V,
      isLeft: T -> bool, op: (V, T) -> V, join: (V, V) -> V, blockSize: nat, threshold: nat, threadCount: nat)
      returns (mid: nat, left: V, right: V)
    requires begin <= end <= data.Length && 0 < blockSize && 0 < threadCount
    modifies data
    ensures begin <= mid <= end && mid == begin + Count(old(data[begin..end]), isLeft)
    ensures forall k :: begin <= k < mid ==> isLeft(data[k])
    ensures forall k :: mid <= k < end ==> !isLeft(data[k])
    ensures Rearranged(old(data[..]), data[..], begin, end)
    ensures Commutes(op) && Joins(join, op, identity) ==> left == Fold(op, left0, Filter(old(data[begin..end]), isLeft))
    ensures Commutes(op) && Joins(join, op, identity) ==>
      right == Fold(op, right0, Filter(old(data[begin..end]), Not(isLeft)))
    ensures end - begin < threshold ==>
      PartitionedAt(old(data[..]), data[..], begin, end, mid, isLeft)
      && left == Fold(op, left0, data[begin..mid]) && right == FoldBack(op, right0, data[mid..end])
    ensures threshold <= end - begin ==>
      Outcome(old(data[begin..end]), data[begin..end], TaskCount(end - begin, blockSize, threadCount, MAX_TASKS),
              mid - begin, isLeft)
  {
    if end - begin < threshold {
      mid, left, right := SerialPartitioning(data, begin, end, left0, right0, isLeft, op);
    } else {
      var task := new PartitionTask(data, begin, end - begin, identity, isLeft, op, join, blockSize, threadCount);
      mid, left, right := task.Partition(left0, right0);
      mid := begin + mid;
    }
  }

  lemma PairsLength(l: seq<int>, r: seq<int>, n: nat)
    requires Pairs(l, r, n)
    ensures |l| == |r|
  {}

  /** Appending a range if it is not empty appends its indices. */
  lemma FlattenAdd(rs: Ranges, r: Range)
    ensures !r.Empty() ==> Flatten(rs + [r]) == Flatten(rs) + Interval(r.begin, r.end)
    ensures !r.Empty() ==> |Flatten(rs + [r])| == |Flatten(rs)| + r.Size()
    ensures r.Empty() ==> Flatten(rs) == Flatten(rs) + Interval(r.begin, r.end)
  {
    if !r.Empty() { assert (rs + [r])[..|rs|] == rs; }
  }
}

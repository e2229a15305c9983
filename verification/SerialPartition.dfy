/** The single-threaded partitioning loop, with its two reductions. */
module SerialPartition {
  import opened Ranks
  import opened Rearranging
  import opened Seqs

  /** Fold from the back of the sequence to its front. */
  function FoldBack<V, T>(op: (V, T) -> V, v: V, s: seq<T>): V {
    if s == [] then v else op(FoldBack(op, v, s[1..]), s[0])
  }

  lemma {:induction false} FoldBackAppend<V, T>(op: (V, T) -> V, v: V, s: seq<T>, t: seq<T>)
    ensures FoldBack(op, v, s + t) == FoldBack(op, FoldBack(op, v, t), s)
  {
    if s == [] {
      assert s + t == t;
    } else {
      assert (s + t)[1..] == s[1..] + t;
      FoldBackAppend(op, v, s[1..], t);
    }
  }

  lemma {:induction false} FoldBackIsFold<V(!new), T(!new)>(op: (V, T) -> V, v: V, s: seq<T>)
    requires Commutes(op)
    ensures FoldBack(op, v, s) == Fold(op, v, s)
  {
    if s != [] {
      FoldBackIsFold(op, v, s[1..]);
      FoldMiddle(op, v, [], s[0], s[1..]);
      assert [] + [s[0]] + s[1..] == s && [] + s[1..] == s[1..];
    }
  }

  /** Everything left of `l` is left, everything right of `r` is not. */
  ghost predicate Split<T>(s: seq<T>, begin: int, end: int, l: int, r: int, isLeft: T -> bool) {
    && 0 <= begin <= l <= r + 1 <= end <= |s|
    && (forall k :: begin <= k < l ==> isLeft(s[k]))
    && (forall k :: r < k < end ==> !isLeft(s[k]))
  }

  /** The left pointer passes over left items, adding them to their reduction. */
  method AdvanceLeft<V, T>(a: array<T>, l0: nat, r: int, v: V, isLeft: T -> bool, op: (V, T) -> V)
      returns (l: nat, red: V)
    requires l0 <= r + 1 <= a.Length
    ensures l0 <= l <= r + 1
    ensures (forall k :: l0 <= k < l ==> isLeft(a[k])) && (l <= r ==> !isLeft(a[l]))
    ensures red == Fold(op, v, a[l0..l])
  {
    l, red := l0, v;
    while l <= r && isLeft(a[l])
      invariant l0 <= l <= r + 1
      invariant forall k :: l0 <= k < l ==> isLeft(a[k])
      invariant red == Fold(op, v, a[l0..l])
    {
      assert a[l0..l + 1] == a[l0..l] + [a[l]];
      red := op(red, a[l]);
      l := l + 1;
    }
  }

  /** The right pointer passes over right items, adding them to their reduction. */
  method RetreatRight<V, T>(a: array<T>, l: nat, r0: int, v: V, isLeft: T -> bool, op: (V, T) -> V)
      returns (r: int, red: V)
    requires l <= r0 + 1 <= a.Length
    ensures l - 1 <= r <= r0
    ensures (forall k :: r < k <= r0 ==> !isLeft(a[k])) && (l <= r ==> isLeft(a[r]))
    ensures red == FoldBack(op, v, a[r + 1..r0 + 1])
  {
    r, red := r0, v;
    while l <= r && !isLeft(a[r])
      invariant l - 1 <= r <= r0
      invariant forall k :: r < k <= r0 ==> !isLeft(a[k])
      invariant red == FoldBack(op, v, a[r + 1..r0 + 1])
    {
      assert a[r..r0 + 1] == [a[r]] + a[r + 1..r0 + 1];
      red := op(red, a[r]);
      r := r - 1;
    }
  }

  /** The invariant of the outer loop over the current contents `s` and the original ones `s0`. */
  ghost predicate Partitioning<V, T>(s0: seq<T>, s: seq<T>, begin: int, end: int, l: int, r: int, isLeft: T -> bool,
                                     op: (V, T) -> V, left0: V, right0: V, left: V, right: V) {
    && Split(s, begin, end, l, r, isLeft)
    && Rearranged(s0, s, begin, end)
    && left == Fold(op, left0, s[begin..l])
    && right == FoldBack(op, right0, s[r + 1..end])
  }

  lemma Untouched<V, T>(s: seq<T>, begin: int, end: int, isLeft: T -> bool, op: (V, T) -> V, left: V, right: V)
    requires 0 <= begin <= end <= |s|
    ensures Partitioning(s, s, begin, end, begin, end - 1, isLeft, op, left, right, left, right)
  {}

  lemma Scanned<V, T>(s0: seq<T>, s: seq<T>, begin: int, end: int, l: int, r: int, l': int, r': int, isLeft: T -> bool,
                      op: (V, T) -> V, left0: V, right0: V, left: V, right: V)
    requires Partitioning(s0, s, begin, end, l, r, isLeft, op, left0, right0, left, right)
    requires Split(s, l, r + 1, l', r', isLeft)
    ensures Partitioning(s0, s, begin, end, l', r', isLeft, op, left0, right0,
                         Fold(op, left, s[l..l']), FoldBack(op, right, s[r' + 1..r + 1]))
  {
    SliceJoin(s, begin, l, l');
    SliceJoin(s, r' + 1, r + 1, end);
    FoldAppend(op, left0, s[begin..l], s[l..l']);
    FoldBackAppend(op, right0, s[r' + 1..r + 1], s[r + 1..end]);
  }

  lemma ExchangeStep<V, T>(s0: seq<T>, s: seq<T>, begin: int, end: int, l: int, r: int, isLeft: T -> bool,
                        op: (V, T) -> V, left0: V, right0: V, left: V, right: V)
    requires Partitioning(s0, s, begin, end, l, r, isLeft, op, left0, right0, left, right)
    requires l < r && !isLeft(s[l]) && isLeft(s[r])
    ensures Partitioning(s0, Swapped(s, l, r), begin, end, l + 1, r - 1, isLeft, op, left0, right0, op(left, s[r]),
                         op(right, s[l]))
  {
    hide Fold, FoldBack, Rearranged;
    SwapSplits(s, begin, end, l, r, isLeft);
    SwapRearranged(s0, s, begin, end, l, r);
    SwapSlices(s, begin, end, l, r);
    FoldLast(op, left0, s[begin..l], s[r]);
    FoldBackFirst(op, right0, s[l], s[r + 1..end]);
  }

  lemma SwapSplits<T>(s: seq<T>, begin: int, end: int, l: int, r: int, isLeft: T -> bool)
    requires Split(s, begin, end, l, r, isLeft) && l < r && !isLeft(s[l]) && isLeft(s[r])
    ensures Split(Swapped(s, l, r), begin, end, l + 1, r - 1, isLeft)
  {}

  /** The two stretches that are done grow by one item each. */
  lemma SwapSlices<T>(s: seq<T>, begin: int, end: int, l: int, r: int)
    requires 0 <= begin <= l < r < end <= |s|
    ensures Swapped(s, l, r)[begin..l + 1] == s[begin..l] + [s[r]]
    ensures Swapped(s, l, r)[r..end] == [s[l]] + s[r + 1..end]
  {}

  lemma FoldBackFirst<V, T>(op: (V, T) -> V, v: V, x: T, s: seq<T>)
    ensures FoldBack(op, v, [x] + s) == op(FoldBack(op, v, s), x)
  {
    assert ([x] + s)[1..] == s;
  }

  /** What the loop has found when the pointers have passed each other. */
  lemma Finished<V(!new), T(!new)>(s0: seq<T>, s: seq<T>, begin: int, end: int, mid: int, isLeft: T -> bool,
                        op: (V, T) -> V, left0: V, right0: V, left: V, right: V)
    requires begin <= end <= |s0| == |s|
    requires Partitioning(s0, s, begin, end, mid, mid - 1, isLeft, op, left0, right0, left, right)
    ensures begin <= mid <= end && mid == begin + Count(s0[begin..end], isLeft)
    ensures forall k :: begin <= k < mid ==> isLeft(s[k])
    ensures forall k :: mid <= k < end ==> !isLeft(s[k])
    ensures Rearranged(s0, s, begin, end)
    ensures Commutes(op) ==> left == Fold(op, left0, Filter(s0[begin..end], isLeft))
    ensures Commutes(op) ==> right == Fold(op, right0, Filter(s0[begin..end], Not(isLeft)))
  {
    hide Filter, Fold, FoldBack, Rearranged, Commutes;
    var x, y := s[begin..mid], s[mid..end];
    assert s[begin..end] == x + y;
    WithinMultiset(s0, s, begin, end);
    FilterAppend(x, y, isLeft);
    FilterAppend(x, y, Not(isLeft));
    FilterAll(x, isLeft);
    FilterNone(y, isLeft);
    FilterNone(x, Not(isLeft));
    FilterAll(y, Not(isLeft));
    CountSame(s0[begin..end], s[begin..end], isLeft);
    FilterPerm(s0[begin..end], s[begin..end], isLeft);
    FilterPerm(s0[begin..end], s[begin..end], Not(isLeft));
    if Commutes(op) {
      FoldPerm(op, left0, x, Filter(s0[begin..end], isLeft));
      FoldBackIsFold(op, right0, y);
      FoldPerm(op, right0, y, Filter(s0[begin..end], Not(isLeft)));
    }
  }

  lemma FinishedInPlace<T>(s0: seq<T>, s: seq<T>, begin: int, end: int, l: int, r: int, isLeft: T -> bool)
    requires InPlace(s0, s, begin, end, l, r, isLeft) && r < l
    ensures PartitionedAt(s0, s, begin, end, l, isLeft)
  {}

  lemma FoldsOver<V, T>(s0: seq<T>, s: seq<T>, begin: int, end: int, mid: int, isLeft: T -> bool,
                        op: (V, T) -> V, left0: V, right0: V, left: V, right: V)
    requires Partitioning(s0, s, begin, end, mid, mid - 1, isLeft, op, left0, right0, left, right)
    ensures 0 <= begin <= mid <= end <= |s|
    ensures left == Fold(op, left0, s[begin..mid]) && right == FoldBack(op, right0, s[mid..end])
  {}

  /** `serial_partitioning` */
  method SerialPartitioning<V(!new), T(!new)>(a: array<T>, begin: nat, end: nat, left0: V, right0: V,
                                              isLeft: T -> bool, op: (V, T) -> V)
      returns (mid: nat, left: V, right: V)
    requires begin <= end <= a.Length
    modifies a
    ensures begin <= mid <= end && mid == begin + Count(old(a[begin..end]), isLeft)
    ensures forall k :: begin <= k < mid ==> isLeft(a[k])
    ensures forall k :: mid <= k < end ==> !isLeft(a[k])
    ensures Rearranged(old(a[..]), a[..], begin, end)
    ensures Commutes(op) ==> left == Fold(op, left0, Filter(old(a[begin..end]), isLeft))
    ensures Commutes(op) ==> right == Fold(op, right0, Filter(old(a[begin..end]), Not(isLeft)))
    ensures left == Fold(op, left0, a[begin..mid]) && right == FoldBack(op, right0, a[mid..end])
    ensures PartitionedAt(old(a[..]), a[..], begin, end, mid, isLeft)
  {
    hide *;
    ghost var s0 := a[..];
    ghost var s := s0;
    var l, r := begin, end - 1;
    left, right := left0, right0;
    Untouched(s0, begin, end, isLeft, op, left0, right0);
    NothingMoved(s0, begin, end, isLeft);
    while true
      invariant s == a[..] && begin <= l <= r + 1 <= end
      invariant Partitioning(s0, s, begin, end, l, r, isLeft, op, left0, right0, left, right)
      invariant InPlace(s0, s, begin, end, l, r, isLeft)
      decreases r - l
    {
      ghost var l0, r0, v, w := l, r, left, right;
      l, left := AdvanceLeft(a, l, r, left, isLeft, op);
      r, right := RetreatRight(a, l, r, right, isLeft, op);
      Scanned(s0, s, begin, end, l0, r0, l, r, isLeft, op, left0, right0, v, w);
      PassedOver(s0, s, begin, end, l0, r0, l, r, isLeft);
      if r < l { break; }
      ExchangedInPlace(s0, s, begin, end, l, r, isLeft);
      ExchangeStep(s0, s, begin, end, l, r, isLeft, op, left0, right0, left, right);
      left := op(left, a[r]);
      right := op(right, a[l]);
      Swap(a, l, r);
      s := Swapped(s, l, r);
      l, r := l + 1, r - 1;
    }
    Finished(s0, s, begin, end, l, isLeft, op, left0, right0, left, right);
    FinishedInPlace(s0, s, begin, end, l, r, isLeft);
    FoldsOver(s0, s, begin, end, l, isLeft, op, left0, right0, left, right);
    assert s0[begin..end] == old(a[begin..end]);
    mid := l;
  }
}

/**
 * Which item a partitioning puts where: the wrong ones from the left change places with the wrong ones on the right.
 */
module Ranks {
  import opened Misplaced
  import opened Rearranging
  import opened Seqs

  /**
   * Position `k` on the left: a left item stays; a wrong one is replaced by the left item from behind `r` that has as
   * many left items behind it as `k` has wrong ones in front of it.
   */
  ghost predicate LeftPlace<T>(s0: seq<T>, s: seq<T>, begin: int, end: int, r: int, isLeft: T -> bool, k: int)
    requires 0 <= begin <= k < end <= |s0| == |s|
  {
    if isLeft(s0[k]) then s[k] == s0[k] else
      exists q: int :: r < q < end && begin <= q && isLeft(s0[q]) && s[k] == s0[q]
        && Count(s0[q + 1..end], isLeft) == Count(s0[begin..k], Not(isLeft))
  }

  /** Position `k` on the right: the mirror image. */
  ghost predicate RightPlace<T>(s0: seq<T>, s: seq<T>, begin: int, end: int, l: int, isLeft: T -> bool, k: int)
    requires 0 <= begin <= k < end <= |s0| == |s|
  {
    if !isLeft(s0[k]) then s[k] == s0[k] else
      exists q: int :: begin <= q < l && q < end && !isLeft(s0[q]) && s[k] == s0[q]
        && Count(s0[begin..q], Not(isLeft)) == Count(s0[k + 1..end], isLeft)
  }

  /** The items in front of `l` and behind `r` are in place, the others have not been touched. */
  ghost predicate InPlace<T>(s0: seq<T>, s: seq<T>, begin: int, end: int, l: int, r: int, isLeft: T -> bool) {
    && 0 <= begin <= l <= r + 1 <= end <= |s0| == |s|
    && (forall k :: l <= k <= r ==> s[k] == s0[k])
    && Count(s0[begin..l], Not(isLeft)) == Count(s0[r + 1..end], isLeft)
    && (forall k :: begin <= k < l ==> LeftPlace(s0, s, begin, end, r, isLeft, k))
    && (forall k :: r < k < end ==> RightPlace(s0, s, begin, end, l, isLeft, k))
  }

  /** What a serial partitioning of `[begin, end)` at `mid` does to each item. */
  ghost predicate PartitionedAt<T>(s0: seq<T>, s: seq<T>, begin: int, end: int, mid: int, isLeft: T -> bool) {
    InPlace(s0, s, begin, end, mid, mid - 1, isLeft)
  }

  lemma NothingMoved<T>(s: seq<T>, begin: int, end: int, isLeft: T -> bool)
    requires 0 <= begin <= end <= |s|
    ensures InPlace(s, s, begin, end, begin, end - 1, isLeft)
  {}

  lemma CountJoin<T>(s: seq<T>, i: int, j: int, k: int, p: T -> bool)
    requires 0 <= i <= j <= k <= |s|
    ensures Count(s[i..k], p) == Count(s[i..j], p) + Count(s[j..k], p)
  {
    SliceJoin(s, i, j, k);
    FilterAppend(s[i..j], s[j..k], p);
  }

  lemma CountOne<T>(s: seq<T>, i: int, p: T -> bool)
    requires 0 <= i < |s|
    ensures Count(s[i..i + 1], p) == if p(s[i]) then 1 else 0
  {
    assert s[i..i + 1] == [s[i]] && [s[i]][..0] == [];
  }

  /** The pointers pass over items that are right where they are. */
  lemma PassedOver<T>(s0: seq<T>, s: seq<T>, begin: int, end: int, l: int, r: int, l': int, r': int, isLeft: T -> bool)
    requires InPlace(s0, s, begin, end, l, r, isLeft) && l <= l' <= r' + 1 <= r + 1
    requires (forall k :: l <= k < l' ==> isLeft(s[k])) && (forall k :: r' < k <= r ==> !isLeft(s[k]))
    ensures InPlace(s0, s, begin, end, l', r', isLeft)
  {
    hide Filter;
    CountJoin(s0, begin, l, l', Not(isLeft));
    FilterNone(s0[l..l'], Not(isLeft));
    CountJoin(s0, r' + 1, r + 1, end, isLeft);
    FilterNone(s0[r' + 1..r + 1], isLeft);
    forall k | begin <= k < l' ensures LeftPlace(s0, s, begin, end, r', isLeft, k) {
      if k < l { assert LeftPlace(s0, s, begin, end, r, isLeft, k); }
    }
    forall k | r' < k < end ensures RightPlace(s0, s, begin, end, l', isLeft, k) {
      if r < k { assert RightPlace(s0, s, begin, end, l, isLeft, k); }
    }
  }

  /** Two wrong items change places. */
  lemma ExchangedInPlace<T>(s0: seq<T>, s: seq<T>, begin: int, end: int, l: int, r: int, isLeft: T -> bool)
    requires InPlace(s0, s, begin, end, l, r, isLeft) && l < r && !isLeft(s[l]) && isLeft(s[r])
    ensures InPlace(s0, Swapped(s, l, r), begin, end, l + 1, r - 1, isLeft)
  {
    hide Filter;
    var t, l', r' := Swapped(s, l, r), l + 1, r - 1;
    CountJoin(s0, begin, l, l + 1, Not(isLeft));
    CountOne(s0, l, Not(isLeft));
    CountJoin(s0, r, r + 1, end, isLeft);
    CountOne(s0, r, isLeft);
    forall k | begin <= k < l' ensures LeftPlace(s0, t, begin, end, r', isLeft, k) {
      if k < l { assert LeftPlace(s0, s, begin, end, r, isLeft, k); } else { assert t[k] == s0[r]; }
    }
    forall k | r' < k < end ensures RightPlace(s0, t, begin, end, l', isLeft, k) {
      if r < k { assert RightPlace(s0, s, begin, end, l, isLeft, k); } else { assert t[k] == s0[l]; }
    }
  }

  /** The same, seen through a window. */
  lemma PartitionedInWindow<T>(a: seq<T>, b: seq<T>, s: seq<T>, u: seq<T>, first: nat, c: int, e: int, m: int,
                               isLeft: T -> bool)
    requires PartitionedAt(a, b, first + c, first + e, first + m, isLeft)
    requires 0 <= c && |s| == |u| && e <= |s| && first + |s| <= |a|
    requires forall k :: c <= k < e ==> s[k] == a[first + k] && u[k] == b[first + k]
    ensures PartitionedAt(s, u, c, e, m, isLeft)
  {
    hide Filter;
    forall i, j | c <= i <= j <= e ensures s[i..j] == a[first + i..first + j] {}
    var r := m - 1;
    forall k | c <= k < m ensures LeftPlace(s, u, c, e, r, isLeft, k) {
      assert LeftPlace(a, b, first + c, first + e, first + m - 1, isLeft, first + k);
      if !isLeft(s[k]) {
        var q :| first + m - 1 < q < first + e && first + c <= q && isLeft(a[q]) && b[first + k] == a[q]
          && Count(a[q + 1..first + e], isLeft) == Count(a[first + c..first + k], Not(isLeft));
        assert s[q - first + 1..e] == a[q + 1..first + e];
        assert isLeft(s[q - first]);
      }
    }
    forall k | r < k < e ensures RightPlace(s, u, c, e, m, isLeft, k) {
      assert RightPlace(a, b, first + c, first + e, first + m, isLeft, first + k);
      if isLeft(s[k]) {
        var q :| first + c <= q < first + m && q < first + e && !isLeft(a[q]) && b[first + k] == a[q]
          && Count(a[first + c..q], Not(isLeft)) == Count(a[first + k + 1..first + e], isLeft);
        assert s[c..q - first] == a[first + c..q];
        assert !isLeft(s[q - first]);
      }
    }
  }

  // ------------------------------------------------------------ the exchanges between blocks

  /** The `k`-th wrong item from the front changes places with the `k`-th wrong one behind `mid`; all others stay. */
  ghost predicate PairedAt<T>(s: seq<T>, t: seq<T>, mid: nat, isLeft: T -> bool) {
    && |t| == |s| && mid <= |s|
    && forall k: nat :: k < |s| ==>
      if k < mid then PairedLeft(s, t, mid, isLeft, k) else PairedRight(s, t, mid, isLeft, k)
  }

  ghost predicate PairedLeft<T>(s: seq<T>, t: seq<T>, mid: nat, isLeft: T -> bool, k: nat)
    requires k < mid <= |s| == |t|
  {
    if isLeft(s[k]) then t[k] == s[k] else
      exists q: nat :: mid <= q < |s| && isLeft(s[q]) && t[k] == s[q]
        && Count(s[mid..q], isLeft) == Count(s[0..k], Not(isLeft))
  }

  ghost predicate PairedRight<T>(s: seq<T>, t: seq<T>, mid: nat, isLeft: T -> bool, k: nat)
    requires mid <= k < |s| == |t|
  {
    if !isLeft(s[k]) then t[k] == s[k] else
      exists q: nat :: q < mid && !isLeft(s[q]) && t[k] == s[q]
        && Count(s[0..q], Not(isLeft)) == Count(s[mid..k], isLeft)
  }

  /** All misplaced pairs of `s` are exchanged in `t`. */
  ghost predicate AllExchanged<T>(s: seq<T>, t: seq<T>, mid: nat, isLeft: T -> bool, done: set<int>)
    requires mid <= |s|
  {
    var l, r := Positions(s, 0, mid, Not(isLeft)), Positions(s, mid, |s|, isLeft);
    Pairs(l, r, |s|) && Exchanged(s, t, l, r, done) && forall k :: 0 <= k < |l| ==> k in done
  }

  lemma LeftIsPaired<T>(s: seq<T>, t: seq<T>, mid: nat, isLeft: T -> bool, done: set<int>, k: nat)
    requires k < mid <= |s| == |t| && AllExchanged(s, t, mid, isLeft, done)
    ensures PairedLeft(s, t, mid, isLeft, k)
  {
    hide Filter, Positions;
    var l, r := Positions(s, 0, mid, Not(isLeft)), Positions(s, mid, |s|, isLeft);
    PositionsSound(s, 0, mid, Not(isLeft));
    PositionsSound(s, mid, |s|, isLeft);
    if !isLeft(s[k]) {
      PositionsRank(s, 0, mid, Not(isLeft), k);
      var q: nat := r[Count(s[0..k], Not(isLeft))];
      PositionsRank(s, mid, |s|, isLeft, q);
      assert t[k] == s[q];
    }
  }

  lemma RightIsPaired<T>(s: seq<T>, t: seq<T>, mid: nat, isLeft: T -> bool, done: set<int>, k: nat)
    requires mid <= k < |s| == |t| && AllExchanged(s, t, mid, isLeft, done)
    ensures PairedRight(s, t, mid, isLeft, k)
  {
    hide Filter, Positions;
    var l, r := Positions(s, 0, mid, Not(isLeft)), Positions(s, mid, |s|, isLeft);
    PositionsSound(s, 0, mid, Not(isLeft));
    PositionsSound(s, mid, |s|, isLeft);
    if isLeft(s[k]) {
      PositionsRank(s, mid, |s|, isLeft, k);
      var q: nat := l[Count(s[mid..k], isLeft)];
      PositionsRank(s, 0, mid, Not(isLeft), q);
      assert t[k] == s[q];
    }
  }

  lemma ExchangedIsPaired<T>(s: seq<T>, t: seq<T>, mid: nat, isLeft: T -> bool, done: set<int>)
    requires mid <= |s| == |t| && AllExchanged(s, t, mid, isLeft, done)
    ensures PairedAt(s, t, mid, isLeft)
  {
    hide AllExchanged, PairedLeft, PairedRight;
    forall k: nat | k < |s|
      ensures if k < mid then PairedLeft(s, t, mid, isLeft, k) else PairedRight(s, t, mid, isLeft, k)
    {
      if k < mid { LeftIsPaired(s, t, mid, isLeft, done, k); } else { RightIsPaired(s, t, mid, isLeft, done, k); }
    }
  }
}

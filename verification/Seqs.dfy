/** Filtering, folding and counting over sequences: the vocabulary of the specifications. */
module Seqs {

  lemma SliceJoin<T>(s: seq<T>, i: nat, j: nat, k: nat)
    requires i <= j <= k <= |s|
    ensures s[i..j] + s[j..k] == s[i..k]
  {}

  /** The elements of `s` that satisfy `p`, in order. */
  function Filter<T>(s: seq<T>, p: T -> bool): (r: seq<T>)
    ensures |r| <= |s|
  {
    if s == [] then [] else
      Filter(s[..|s| - 1], p) + if p(s[|s| - 1]) then [s[|s| - 1]] else []
  }

  lemma SliceSnoc<T>(s: seq<T>, lo: nat, hi: nat)
    requires lo < hi <= |s|
    ensures s[lo..hi] == s[lo..hi - 1] + [s[hi - 1]]
    ensures multiset(s[lo..hi]) == multiset(s[lo..hi - 1]) + multiset{s[hi - 1]}
  {
    assert s[lo..hi] == s[lo..hi - 1] + [s[hi - 1]];
  }

  lemma FilterSliceSnoc<T>(s: seq<T>, lo: nat, hi: nat, p: T -> bool)
    requires lo < hi <= |s|
    ensures Filter(s[lo..hi], p) == Filter(s[lo..hi - 1], p) + if p(s[hi - 1]) then [s[hi - 1]] else []
  {
    SliceSnoc(s, lo, hi);
    assert s[lo..hi][..hi - lo - 1] == s[lo..hi - 1];
  }

  function Count<T>(s: seq<T>, p: T -> bool): nat {
    |Filter(s, p)|
  }

  lemma FilterSnoc<T>(s: seq<T>, i: nat, p: T -> bool)
    requires i < |s|
    ensures Filter(s[..i + 1], p) == Filter(s[..i], p) + if p(s[i]) then [s[i]] else []
  {
    assert s[..i + 1][..i] == s[..i];
  }

  lemma {:induction false} FilterAppend<T>(s: seq<T>, t: seq<T>, p: T -> bool)
    ensures Filter(s + t, p) == Filter(s, p) + Filter(t, p)
  {
    if t == [] {
      assert s + t == s;
    } else {
      var m := |t| - 1;
      FilterAppend(s, t[..m], p);
      assert (s + t)[..|s + t| - 1] == s + t[..m];
    }
  }

  lemma FilterSplit<T>(s: seq<T>, i: nat, p: T -> bool)
    requires i <= |s|
    ensures Filter(s, p) == Filter(s[..i], p) + Filter(s[i..], p)
  {
    assert s == s[..i] + s[i..];
    FilterAppend(s[..i], s[i..], p);
  }

  lemma FilterSlice<T>(s: seq<T>, i: nat, j: nat, p: T -> bool)
    requires i <= j <= |s|
    ensures Filter(s[..j], p) == Filter(s[..i], p) + Filter(s[i..j], p)
  {
    FilterAppend(s[..i], s[i..j], p);
    assert s[..i] + s[i..j] == s[..j];
  }

  lemma {:induction false} FilterAll<T>(s: seq<T>, p: T -> bool)
    requires forall i :: 0 <= i < |s| ==> p(s[i])
    ensures Filter(s, p) == s
  {
    if s != [] { FilterAll(s[..|s| - 1], p); }
  }

  lemma {:induction false} FilterNone<T>(s: seq<T>, p: T -> bool)
    requires forall i :: 0 <= i < |s| ==> !p(s[i])
    ensures Filter(s, p) == []
  {
    if s != [] { FilterNone(s[..|s| - 1], p); }
  }

  lemma {:induction false} FilterHolds<T>(s: seq<T>, p: T -> bool)
    ensures forall i :: 0 <= i < |Filter(s, p)| ==> p(Filter(s, p)[i])
  {
    if s != [] { FilterHolds(s[..|s| - 1], p); }
  }

  /** Only the values of `p` on the elements matter. */
  lemma {:induction false} FilterExt<T>(s: seq<T>, p: T -> bool, q: T -> bool)
    requires forall i :: 0 <= i < |s| ==> p(s[i]) == q(s[i])
    ensures Filter(s, p) == Filter(s, q)
  {
    if s != [] { FilterExt(s[..|s| - 1], p, q); }
  }

  function And<T>(p: T -> bool, q: T -> bool): T -> bool {
    x => p(x) && q(x)
  }

  lemma {:induction false} FilterFilter<T>(s: seq<T>, p: T -> bool, q: T -> bool)
    ensures Filter(Filter(s, p), q) == Filter(s, And(p, q))
  {
    if s != [] {
      var m := |s| - 1;
      FilterFilter(s[..m], p, q);
      FilterAppend(Filter(s[..m], p), if p(s[m]) then [s[m]] else [], q);
    }
  }

  lemma FilterCommutes<T>(s: seq<T>, p: T -> bool, q: T -> bool)
    ensures Filter(Filter(s, p), q) == Filter(Filter(s, q), p)
  {
    FilterFilter(s, p, q);
    FilterFilter(s, q, p);
    FilterExt(s, And(p, q), And(q, p));
  }

  /** The `k`-th selected element: where it stands in `s`. */
  lemma {:induction false} FilterIndex<T>(s: seq<T>, p: T -> bool, k: nat) returns (i: nat)
    requires k < |Filter(s, p)|
    ensures i < |s| && p(s[i]) && Count(s[..i], p) == k && Filter(s, p)[k] == s[i]
  {
    var m := |s| - 1;
    if k < Count(s[..m], p) {
      i := FilterIndex(s[..m], p, k);
      assert s[..m][..i] == s[..i];
    } else {
      i := m;
    }
  }

  /** A filtered prefix grows with the prefix. */
  lemma CountMono<T>(s: seq<T>, i: nat, j: nat, p: T -> bool)
    requires i <= j <= |s|
    ensures Count(s[..i], p) <= Count(s[..j], p)
    ensures Count(s[..j], p) <= Count(s[..i], p) + (j - i)
    ensures i < j && p(s[i]) ==> Count(s[..i], p) < Count(s[..j], p)
  {
    FilterSlice(s, i, j, p);
    if i < j && p(s[i]) {
      FilterSnoc(s, i, p);
      FilterSlice(s, i + 1, j, p);
    }
  }

  lemma {:induction false} FilterMultiplicity<T>(s: seq<T>, p: T -> bool, x: T)
    ensures multiset(Filter(s, p))[x] == if p(x) then multiset(s)[x] else 0
  {
    if s != [] {
      FilterMultiplicity(s[..|s| - 1], p, x);
      assert s == s[..|s| - 1] + [s[|s| - 1]];
    }
  }

  /** Filtering respects permutation. */
  lemma FilterPerm<T(!new)>(s: seq<T>, t: seq<T>, p: T -> bool)
    requires multiset(s) == multiset(t)
    ensures multiset(Filter(s, p)) == multiset(Filter(t, p))
  {
    var f, g := multiset(Filter(s, p)), multiset(Filter(t, p));
    forall x ensures f[x] == g[x] {
      FilterMultiplicity(s, p, x);
      FilterMultiplicity(t, p, x);
    }
    assert f == g;
  }

  /** Counting respects permutation. */
  lemma {:induction false} CountSame<T>(s: seq<T>, t: seq<T>, p: T -> bool)
    requires multiset(s) == multiset(t)
    ensures Count(s, p) == Count(t, p)
    decreases |s|
  {
    if s == [] {
      assert |multiset(t)| == 0;
    } else {
      var j, u := RemoveOne(s, t);
      CountSame(s[..|s| - 1], u, p);
      FilterAppend(t[..j] + [s[|s| - 1]], t[j + 1..], p);
      FilterAppend(t[..j], t[j + 1..], p);
      assert (t[..j] + [s[|s| - 1]])[..j] == t[..j];
    }
  }

  function Not<T>(p: T -> bool): T -> bool {
    x => !p(x)
  }

  lemma {:induction false} CountSplit<T>(s: seq<T>, p: T -> bool)
    ensures Count(s, p) + Count(s, Not(p)) == |s|
  {
    if s != [] { CountSplit(s[..|s| - 1], p); }
  }

  // ---------------------------------------------------------------- folds

  /** Left fold. */
  function Fold<V, T>(op: (V, T) -> V, v: V, s: seq<T>): V {
    if s == [] then v else op(Fold(op, v, s[..|s| - 1]), s[|s| - 1])
  }

  lemma FoldSnoc<V, T>(op: (V, T) -> V, v: V, s: seq<T>, i: nat)
    requires i < |s|
    ensures Fold(op, v, s[..i + 1]) == op(Fold(op, v, s[..i]), s[i])
  {
    assert s[..i + 1][..i] == s[..i];
  }

  lemma FoldEmpty<V, T>(op: (V, T) -> V, v: V, s: seq<T>)
    ensures Fold(op, v, s[..0]) == v
  {}

  lemma FoldLast<V, T>(op: (V, T) -> V, v: V, s: seq<T>, x: T)
    ensures Fold(op, v, s + [x]) == op(Fold(op, v, s), x)
  {
    assert (s + [x])[..|s|] == s;
  }

  lemma {:induction false} FoldAppend<V, T>(op: (V, T) -> V, v: V, s: seq<T>, t: seq<T>)
    ensures Fold(op, v, s + t) == Fold(op, Fold(op, v, s), t)
  {
    if t == [] {
      assert s + t == s;
    } else {
      FoldAppend(op, v, s, t[..|t| - 1]);
      assert (s + t)[..|s + t| - 1] == s + t[..|t| - 1];
    }
  }

  /** `add` is associative and `e` is its identity. */
  ghost predicate Monoid<V(!new)>(add: (V, V) -> V, e: V) {
    && (forall a, b, c :: add(add(a, b), c) == add(a, add(b, c)))
    && (forall a :: add(e, a) == a && add(a, e) == a)
  }

  lemma {:induction false} FoldFrom<V(!new)>(add: (V, V) -> V, e: V, v: V, s: seq<V>)
    requires Monoid(add, e)
    ensures Fold(add, v, s) == add(v, Fold(add, e, s))
  {
    if s != [] { FoldFrom(add, e, v, s[..|s| - 1]); }
  }

  lemma FoldConcat<V(!new)>(add: (V, V) -> V, e: V, s: seq<V>, t: seq<V>)
    requires Monoid(add, e)
    ensures Fold(add, e, s + t) == add(Fold(add, e, s), Fold(add, e, t))
  {
    FoldAppend(add, e, s, t);
    FoldFrom(add, e, Fold(add, e, s), t);
  }

  lemma FoldSlice<V(!new)>(add: (V, V) -> V, e: V, s: seq<V>, i: nat, j: nat)
    requires Monoid(add, e) && i <= j <= |s|
    ensures Fold(add, e, s[..j]) == add(Fold(add, e, s[..i]), Fold(add, e, s[i..j]))
  {
    FoldConcat(add, e, s[..i], s[i..j]);
    assert s[..i] + s[i..j] == s[..j];
  }

  /** The order of two neighbouring elements does not matter to `op`. */
  ghost predicate Commutes<V(!new), T(!new)>(op: (V, T) -> V) {
    forall v, x, y :: op(op(v, x), y) == op(op(v, y), x)
  }

  lemma {:induction false} FoldCommute<V(!new), T(!new)>(op: (V, T) -> V, v: V, x: T, s: seq<T>)
    requires Commutes(op)
    ensures Fold(op, op(v, x), s) == op(Fold(op, v, s), x)
  {
    if s != [] { FoldCommute(op, v, x, s[..|s| - 1]); }
  }

  lemma FoldMiddle<V(!new), T(!new)>(op: (V, T) -> V, v: V, a: seq<T>, x: T, b: seq<T>)
    requires Commutes(op)
    ensures Fold(op, v, a + [x] + b) == op(Fold(op, v, a + b), x)
  {
    FoldAppend(op, v, a + [x], b);
    FoldAppend(op, v, a, b);
    assert (a + [x])[..|a|] == a;
    FoldCommute(op, Fold(op, v, a), x, b);
  }

  /** A commuting fold depends on the elements only, not on their order. */
  lemma {:induction false} FoldPerm<V(!new), T(!new)>(op: (V, T) -> V, v: V, s: seq<T>, t: seq<T>)
    requires Commutes(op) && multiset(s) == multiset(t)
    ensures Fold(op, v, s) == Fold(op, v, t)
    decreases |s|
  {
    if s == [] {
      assert |multiset(t)| == 0;
    } else {
      var m, x := |s| - 1, s[|s| - 1];
      var j, u := RemoveOne(s, t);
      FoldPerm(op, v, s[..m], u);
      FoldMiddle(op, v, t[..j], x, t[j + 1..]);
    }
  }

  lemma RemoveOne<T>(s: seq<T>, t: seq<T>) returns (j: nat, u: seq<T>)
    requires multiset(s) == multiset(t) && s != []
    ensures j < |t| && t == t[..j] + [s[|s| - 1]] + t[j + 1..] && u == t[..j] + t[j + 1..]
    ensures multiset(s[..|s| - 1]) == multiset(u)
  {
    var m, x := |s| - 1, s[|s| - 1];
    assert s == s[..m] + [x];
    assert x in multiset(t);
    j :| 0 <= j < |t| && t[j] == x;
    u := t[..j] + t[j + 1..];
    assert t == t[..j] + [x] + t[j + 1..];
    assert multiset(s[..m]) == multiset(s) - multiset{x};
    assert multiset(u) == multiset(t) - multiset{x};
  }
}

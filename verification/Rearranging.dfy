/** What in-place algorithms may do to a stretch `[lo, hi)` of an array: reorder it and touch nothing else. */
module Rearranging {

  ghost predicate Rearranged<T>(s: seq<T>, t: seq<T>, lo: nat, hi: nat) {
    && lo <= hi <= |s| == |t|
    && multiset(s) == multiset(t)
    && (forall i :: 0 <= i < lo ==> t[i] == s[i])
    && (forall i :: hi <= i < |s| ==> t[i] == s[i])
  }

  lemma SelfRearranged<T>(s: seq<T>, lo: nat, hi: nat)
    requires lo <= hi <= |s|
    ensures Rearranged(s, s, lo, hi)
  {}

  method Put<T>(a: array<T>, i: nat, x: T)
    requires i < a.Length
    modifies a
    ensures a[..] == old(a[..])[i := x]
  {
    a[i] := x;
  }

  function Swapped<T>(s: seq<T>, i: nat, j: nat): (r: seq<T>)
    requires i < |s| && j < |s|
    ensures |r| == |s| && multiset(r) == multiset(s)
    ensures r[i] == s[j] && r[j] == s[i]
    ensures forall k :: 0 <= k < |s| && k != i && k != j ==> r[k] == s[k]
  {
    s[i := s[j]][j := s[i]]
  }

  method Swap<T>(t: array<T>, i: nat, j: nat)
    requires i < t.Length && j < t.Length
    modifies t
    ensures t[..] == Swapped(old(t[..]), i, j)
  {
    var temp := t[j];
    t[j] := t[i];
    t[i] := temp;
  }

  lemma SwapRearranged<T>(s: seq<T>, t: seq<T>, lo: nat, hi: nat, i: nat, j: nat)
    requires Rearranged(s, t, lo, hi) && lo <= i < hi && lo <= j < hi
    ensures Rearranged(s, Swapped(t, i, j), lo, hi)
  {}

  lemma Trans<T>(s: seq<T>, t: seq<T>, u: seq<T>, lo: nat, hi: nat, lo': nat, hi': nat)
    requires Rearranged(s, t, lo, hi) && Rearranged(t, u, lo', hi') && lo <= lo' && hi' <= hi
    ensures Rearranged(s, u, lo, hi)
  {}

  lemma WithinMultiset<T>(s: seq<T>, t: seq<T>, lo: nat, hi: nat)
    requires Rearranged(s, t, lo, hi)
    ensures multiset(s[lo..hi]) == multiset(t[lo..hi])
  {
    assert s[..lo] == t[..lo] && s[hi..] == t[hi..];
    Slices(s, lo, hi);
    Slices(t, lo, hi);
  }

  lemma Slices<T>(s: seq<T>, lo: nat, hi: nat)
    requires lo <= hi <= |s|
    ensures multiset(s[lo..hi]) == multiset(s) - multiset(s[..lo]) - multiset(s[hi..])
  {
    assert s == s[..lo] + s[lo..hi] + s[hi..];
    assert multiset(s) == multiset(s[..lo]) + multiset(s[lo..hi]) + multiset(s[hi..]);
  }

  /** What held of every element of the stretch still does. */
  lemma KeepsAll<T>(s: seq<T>, t: seq<T>, lo: nat, hi: nat, p: T -> bool)
    requires Rearranged(s, t, lo, hi)
    requires forall i :: lo <= i < hi ==> p(s[i])
    ensures forall i :: lo <= i < hi ==> p(t[i])
  {
    WithinMultiset(s, t, lo, hi);
    forall i | lo <= i < hi ensures p(t[i]) {
      assert t[lo..hi][i - lo] in multiset(s[lo..hi]);
      var j :| 0 <= j < |s[lo..hi]| && s[lo..hi][j] == t[i];
      assert s[lo..hi][j] == s[lo + j];
    }
  }

  /** `a` is `base` with the stretch `[lo, hi)` replaced by `w`. */
  ghost predicate Window<T>(a: seq<T>, base: seq<T>, lo: nat, hi: nat, w: seq<T>) {
    && lo <= hi <= |a| == |base| && |w| == hi - lo
    && (forall k :: lo <= k < hi ==> a[k] == w[k - lo])
    && (forall k :: 0 <= k < lo ==> a[k] == base[k])
    && (forall k :: hi <= k < |a| ==> a[k] == base[k])
  }

  lemma WindowSelf<T>(a: seq<T>, lo: nat, hi: nat)
    requires lo <= hi <= |a|
    ensures Window(a, a, lo, hi, a[lo..hi])
  {}

  lemma WindowUpdate<T>(a: seq<T>, base: seq<T>, lo: nat, hi: nat, w: seq<T>, k: nat, x: T)
    requires Window(a, base, lo, hi, w) && k < |w|
    ensures Window(a[lo + k := x], base, lo, hi, w[k := x])
  {}

  lemma WindowRead<T>(a: seq<T>, base: seq<T>, lo: nat, hi: nat, w: seq<T>, k: nat)
    requires Window(a, base, lo, hi, w) && k < |w|
    ensures lo + k < |a| && a[lo + k] == w[k]
  {}

  lemma WindowSlice<T>(a: seq<T>, base: seq<T>, lo: nat, hi: nat, w: seq<T>)
    requires Window(a, base, lo, hi, w)
    ensures a[lo..hi] == w
  {}

  /** A stretch replaced by a reordering of itself. */
  lemma WindowRearranged<T>(a: seq<T>, base: seq<T>, lo: nat, hi: nat, w: seq<T>)
    requires Window(a, base, lo, hi, w) && multiset(w) == multiset(base[lo..hi])
    ensures Rearranged(base, a, lo, hi)
  {
    assert a == base[..lo] + w + base[hi..];
    assert base == base[..lo] + base[lo..hi] + base[hi..];
  }

  lemma WindowPart<T>(a: seq<T>, base: seq<T>, lo: nat, hi: nat, w: seq<T>, c: nat, e: nat)
    requires Window(a, base, lo, hi, w) && c <= e <= hi - lo
    ensures a[lo + c..lo + e] == w[c..e]
  {}

  /** Reordering part of the window reorders part of its contents. */
  lemma RearrangedInWindow<T>(a: seq<T>, b: seq<T>, base: seq<T>, lo: nat, hi: nat, s: seq<T>, c: nat, e: nat)
      returns (u: seq<T>)
    requires Window(a, base, lo, hi, s) && c <= e <= hi - lo
    requires Rearranged(a, b, lo + c, lo + e)
    ensures Window(b, base, lo, hi, u) && |u| == hi - lo && Rearranged(s, u, c, e)
    ensures forall k :: c <= k < e ==> u[k] == b[lo + k]
  {
    u := b[lo..hi];
    WithinMultiset(a, b, lo, hi);
    WindowSlice(a, base, lo, hi, s);
  }

  lemma WindowSwap<T>(a: seq<T>, base: seq<T>, lo: nat, hi: nat, w: seq<T>, i: nat, j: nat)
    requires Window(a, base, lo, hi, w) && i < |w| && j < |w|
    ensures Window(Swapped(a, lo + i, lo + j), base, lo, hi, Swapped(w, i, j))
  {}
}

/** Insertion sort and the two Hoare quicksorts; `std::sort` by its contract. */
module QuickSort {
  import opened Digits
  import opened Rearranging
  import opened Seqs

  ghost predicate SortedBetween<V>(s: seq<Item<V>>, lo: nat, hi: nat)
    requires hi <= |s|
  {
    forall i, j :: lo <= i < j < hi ==> s[i].key <= s[j].key
  }

  /** Items of one key come in the same order. */
  ghost predicate SameOrder<V>(s: seq<Item<V>>, t: seq<Item<V>>) {
    forall k: nat :: Filter(t, KeyIs(k)) == Filter(s, KeyIs(k))
  }

  /** Exchanging neighbours with different keys keeps the order of the items of every key. */
  lemma NeighboursSwapped<V>(s: seq<Item<V>>, t: seq<Item<V>>, j: nat)
    requires 0 < j < |t| && SameOrder(s, t) && t[j - 1].key != t[j].key
    ensures SameOrder(s, Swapped(t, j - 1, j))
  {
    hide Filter, KeyIs;
    var x, y, a, b := t[j - 1], t[j], t[..j - 1], t[j + 1..];
    SwappedParts(t, j);
    forall k: nat ensures Filter(Swapped(t, j - 1, j), KeyIs(k)) == Filter(s, KeyIs(k)) {
      PairBetween(a, x, y, b, k);
      PairBetween(a, y, x, b, k);
      PairFiltered(x, y, k);
      PairFiltered(y, x, k);
    }
  }

  lemma SwappedParts<T>(t: seq<T>, j: nat)
    requires 0 < j < |t|
    ensures t == t[..j - 1] + ([t[j - 1], t[j]] + t[j + 1..])
    ensures Swapped(t, j - 1, j) == t[..j - 1] + ([t[j], t[j - 1]] + t[j + 1..])
  {}

  lemma PairBetween<V>(a: seq<Item<V>>, x: Item<V>, y: Item<V>, b: seq<Item<V>>, k: nat)
    ensures Filter(a + ([x, y] + b), KeyIs(k)) == Filter(a, KeyIs(k)) + (Filter([x, y], KeyIs(k)) + Filter(b, KeyIs(k)))
  {
    hide Filter;
    FilterAppend(a, [x, y] + b, KeyIs(k));
    FilterAppend([x, y], b, KeyIs(k));
  }

  lemma PairFiltered<V>(x: Item<V>, y: Item<V>, k: nat)
    ensures Filter([x, y], KeyIs(k)) == (if x.key == k then [x] else []) + (if y.key == k then [y] else [])
  {
    assert [x, y][..1] == [x] && [x][..0] == [];
  }

  /** Sorts `t[lo..hi]`, and keeps items of one key in their order. */
  method InsertionSort<V>(t: array<Item<V>>, lo: nat, hi: nat)
    requires lo <= hi <= t.Length
    modifies t
    ensures SortedBetween(t[..], lo, hi) && Rearranged(old(t[..]), t[..], lo, hi) && SameOrder(old(t[..]), t[..])
  {
    hide SameOrder;
    SameOrderSelf(t[..]);
    var i := lo + 1;
    while i < hi
      invariant lo <= i && (lo < hi ==> i <= hi)
      invariant SortedBetween(t[..], lo, if i <= hi then i else hi)
      invariant Rearranged(old(t[..]), t[..], lo, hi) && SameOrder(old(t[..]), t[..])
    {
      ghost var u := t[..];
      Insert(t, lo, hi, i);
      SameOrderTrans(old(t[..]), u, t[..]);
      i := i + 1;
    }
  }

  lemma SameOrderSelf<V>(s: seq<Item<V>>)
    ensures SameOrder(s, s)
  {}

  lemma SameOrderTrans<V>(s: seq<Item<V>>, t: seq<Item<V>>, u: seq<Item<V>>)
    requires SameOrder(s, t) && SameOrder(t, u)
    ensures SameOrder(s, u)
  {}

  /** While an item travels left: the array as if it were already in the gap at `j`. */
  ghost predicate Travelling<V>(held: seq<Item<V>>, lo: nat, j: nat, i: nat)
    requires i < |held|
  {
    && lo <= j <= i
    && SortedBetween(held, lo, j) && SortedBetween(held, j, i + 1)
    && forall a, b :: lo <= a < j < b <= i ==> held[a].key <= held[b].key
  }

  lemma Departing<V>(held: seq<Item<V>>, lo: nat, i: nat)
    requires lo < i < |held| && SortedBetween(held, lo, i)
    ensures Travelling(held, lo, i, i)
  {}

  lemma Travel<V>(held: seq<Item<V>>, lo: nat, j: nat, i: nat)
    requires i < |held| && Travelling(held, lo, j, i) && lo < j && held[j].key < held[j - 1].key
    ensures Travelling(Swapped(held, j - 1, j), lo, j - 1, i)
  {}

  lemma Travelled<V>(held: seq<Item<V>>, lo: nat, j: nat, i: nat)
    requires i < |held| && Travelling(held, lo, j, i) && (lo < j ==> held[j - 1].key <= held[j].key)
    ensures SortedBetween(held, lo, i + 1)
  {}

  lemma ShiftOne<V>(s: seq<Item<V>>, a: seq<Item<V>>, v: Item<V>, lo: nat, hi: nat, j: nat, i: nat)
    requires lo < j <= i < hi <= |a| && Travelling(a[j := v], lo, j, i) && Rearranged(s, a[j := v], lo, hi)
    requires v.key < a[j - 1].key && SameOrder(s, a[j := v])
    ensures Travelling(a[j := a[j - 1]][j - 1 := v], lo, j - 1, i)
    ensures Rearranged(s, a[j := a[j - 1]][j - 1 := v], lo, hi)
    ensures SameOrder(s, a[j := a[j - 1]][j - 1 := v])
  {
    hide SameOrder;
    UpdateIsSwap(a, v, j);
    var held := a[j := v];
    Travel(held, lo, j, i);
    SwapRearranged(s, held, lo, hi, j - 1, j);
    NeighboursSwapped(s, held, j);
  }

  lemma UpdateIsSwap<T>(a: seq<T>, v: T, j: nat)
    requires 0 < j < |a|
    ensures a[j := a[j - 1]][j - 1 := v] == Swapped(a[j := v], j - 1, j)
    ensures a[j := v][j] == v && a[j := v][j - 1] == a[j - 1]
  {}

  /** The body of the outer loop: moves `t[i]` left into the sorted `t[lo..i]`. */
  method Insert<V>(t: array<Item<V>>, lo: nat, hi: nat, i: nat)
    requires lo < i < hi <= t.Length && SortedBetween(t[..], lo, i)
    modifies t
    ensures SortedBetween(t[..], lo, i + 1) && Rearranged(old(t[..]), t[..], lo, hi) && SameOrder(old(t[..]), t[..])
  {
    hide SameOrder, SortedBetween, Travelling, Rearranged;
    var v := t[i];
    var j := i;
    ghost var s := t[..];
    ghost var a := s;
    Departing(a, lo, i);
    SelfRearranged(a, lo, hi);
    SameOrderSelf(a);
    assert a[i := v] == a;
    while j > lo && v.key < t[j - 1].key
      invariant lo <= j <= i && a == t[..]
      invariant Travelling(a[j := v], lo, j, i) && Rearranged(s, a[j := v], lo, hi) && SameOrder(s, a[j := v])
    {
      ShiftOne(s, a, v, lo, hi, j, i);
      t[j] := t[j - 1];
      a := a[j := a[j - 1]];
      j := j - 1;
    }
    Travelled(a[j := v], lo, j, i);
    t[j] := v;
  }

  /** The scan from the right: down to the last item not above the pivot. */
  method ScanDown<V>(t: array<Item<V>>, from: nat, pivotvalue: nat, ghost low: nat) returns (right: nat)
    requires low < from <= t.Length && t[low].key <= pivotvalue
    ensures low <= right < from && t[right].key <= pivotvalue
    ensures forall i :: right < i < from ==> pivotvalue < t[i].key
  {
    right := from - 1;
    while t[right].key > pivotvalue
      invariant low <= right < from
      invariant forall i :: right < i < from ==> pivotvalue < t[i].key
      decreases right - low
    {
      right := right - 1;
    }
  }

  /** The scan from the left: up to the first item not below the pivot. */
  method ScanUp<V>(t: array<Item<V>>, from: int, pivotvalue: nat, ghost high: int) returns (left: int)
    requires -1 <= from < high < t.Length && pivotvalue <= t[high].key
    ensures from < left <= high && pivotvalue <= t[left].key
    ensures forall i :: from < i < left ==> t[i].key < pivotvalue
  {
    left := from + 1;
    while t[left].key < pivotvalue
      invariant from < left <= high
      invariant forall i :: from < i < left ==> t[i].key < pivotvalue
      decreases high - left
    {
      left := left + 1;
    }
  }

  /** Between two exchanges: what lies outside `(left, right)` is on its side, and stops the scans. */
  ghost predicate Splitting<V>(s: seq<Item<V>>, begin: int, end: int, left: int, right: int, pivot: nat) {
    && 0 <= begin < end < |s| && begin - 1 <= left < right <= end + 1
    && (if right == end + 1 then left == begin - 1 && s[begin].key == pivot else begin <= left)
    && (forall i :: begin <= i <= left ==> s[i].key <= pivot)
    && (forall i :: right <= i <= end ==> pivot <= s[i].key)
  }

  lemma SplitStep<V>(s: seq<Item<V>>, begin: int, end: int, l: int, r: int, left: int, right: int, pivot: nat)
    requires Splitting(s, begin, end, l, r, pivot)
    requires l < left < right < r && begin <= left && right <= end && s[right].key <= pivot <= s[left].key
    requires forall i :: right < i < r ==> pivot < s[i].key
    requires forall i :: l < i < left ==> s[i].key < pivot
    ensures Splitting(Swapped(s, left, right), begin, end, left, right, pivot)
  {}

  lemma SplitDone<V>(s: seq<Item<V>>, begin: int, end: int, l: int, r: int, left: int, right: int, pivot: nat)
    requires Splitting(s, begin, end, l, r, pivot)
    requires l < left && right < r && begin <= right <= left <= end && s[right].key <= pivot <= s[left].key
    requires forall i :: right < i < r ==> pivot < s[i].key
    requires forall i :: l < i < left ==> s[i].key < pivot
    requires r == end + 1 ==> left == begin
    ensures right < end
    ensures forall i :: begin <= i <= right ==> s[i].key <= pivot
    ensures forall i :: right < i <= end ==> pivot <= s[i].key
  {}

  /** Hoare's split of `t[begin..end+1]` at the key of `t[begin]`, without sentinels. */
  method HoareSplit<V>(t: array<Item<V>>, begin: nat, end: nat) returns (right: int)
    requires begin < end < t.Length
    modifies t
    ensures begin <= right < end
    ensures Rearranged(old(t[..]), t[..], begin, end + 1)
    ensures forall i :: begin <= i <= right ==> t[i].key <= old(t[begin].key)
    ensures forall i :: right < i <= end ==> old(t[begin].key) <= t[i].key
  {
    ghost var s := t[..];
    ghost var s0 := s;
    var pivotvalue := t[begin].key;
    var left := begin - 1;
    right := end + 1;
    SelfRearranged(s, begin, end + 1);
    while true
      invariant s == t[..] && Splitting(s, begin, end, left, right, pivotvalue)
      invariant Rearranged(s0, s, begin, end + 1)
      decreases right - left
    {
      ghost var low, high := if begin <= left then left else begin, if right <= end then right else begin;
      ghost var l, r := left, right;
      right := ScanDown(t, right, pivotvalue, low);
      left := ScanUp(t, left, pivotvalue, high);
      if left >= right {
        SplitDone(s, begin, end, l, r, left, right, pivotvalue);
        break;
      }
      SplitStep(s, begin, end, l, r, left, right, pivotvalue);
      SwapRearranged(s0, s, begin, end + 1, left, right);
      s := Swapped(s, left, right);
      Swap(t, left, right);
    }
  }

  lemma SplitSorted<V>(s: seq<Item<V>>, t: seq<Item<V>>, u: seq<Item<V>>, begin: nat, mid: nat, end: nat, pivot: nat)
    requires begin <= mid <= end
    requires Rearranged(s, t, begin, mid) && Rearranged(t, u, mid, end)
    requires SortedBetween(t, begin, mid) && SortedBetween(u, mid, end)
    requires forall i :: begin <= i < mid ==> s[i].key <= pivot
    requires forall i :: mid <= i < end ==> pivot <= s[i].key
    ensures SortedBetween(u, begin, end) && Rearranged(s, u, begin, end)
  {
    KeepsAll(s, t, begin, mid, (x: Item<V>) => x.key <= pivot);
    KeepsAll(t, u, mid, end, (x: Item<V>) => pivot <= x.key);
    assert multiset(s) == multiset(u);
  }

  /** `quicksort_insertionsort_ascending`: sorts `t[begin..end+1]`, small stretches by insertion. */
  method QuickInsertionSort<V>(t: array<Item<V>>, begin: int, end: int, threshold: int)
    requires 0 <= begin <= end + 1 <= t.Length
    modifies t
    ensures SortedBetween(t[..], begin, end + 1) && Rearranged(old(t[..]), t[..], begin, end + 1)
    decreases end - begin
  {
    if begin < end {
      var size := end - begin + 1;
      if size <= threshold {
        InsertionSort(t, begin, begin + size);
      } else {
        ghost var pivotvalue := t[begin].key;
        var pivot := HoareSplit(t, begin, end);
        ghost var s := t[..];
        QuickInsertionSort(t, begin, pivot, threshold);
        ghost var u := t[..];
        QuickInsertionSort(t, pivot + 1, end, threshold);
        SplitSorted(s, u, t[..], begin, pivot + 1, end + 1, pivotvalue);
        Trans(old(t[..]), s, t[..], begin, end + 1, begin, end + 1);
      }
    }
  }

  /** A signed 64-bit value narrowed to a signed 32-bit one. */
  function ToInt32(x: int): int {
    (x + 0x8000_0000) % 0x1_0000_0000 - 0x8000_0000
  }

  /** The narrowing is harmless exactly for values that fit. */
  lemma ToInt32Fits(x: int)
    ensures ToInt32(x) == x <==> -0x8000_0000 <= x < 0x8000_0000
  {}

  /**
   * `quicksort_ascending`: the split point passes through a 32-bit `int`. `ok` tells that no split point was
   * changed on the way; behind one that is, the recursion would go on over a wrong range. This happens exactly
   * for ranges of two items or more whose last index is above 2^31, whatever the items are.
   */
  method QuickSort<V>(t: array<Item<V>>, begin: int, end: int) returns (ok: bool)
    requires 0 <= begin <= end + 1 <= t.Length
    modifies t
    ensures ok <==> (begin < end ==> end <= 0x8000_0000)
    ensures ok ==> SortedBetween(t[..], begin, end + 1)
    ensures Rearranged(old(t[..]), t[..], begin, end + 1)
    decreases end - begin
  {
    ok := true;
    if begin < end {
      ghost var pivotvalue := t[begin].key;
      var right := HoareSplit(t, begin, end);
      var pivot := ToInt32(right);
      ToInt32Fits(right);
      if pivot != right {
        return false;
      }
      ghost var s := t[..];
      ok := QuickSort(t, begin, pivot);
      if ok {
        ghost var u := t[..];
        ok := QuickSort(t, pivot + 1, end);
        Trans(old(t[..]), s, u, begin, end + 1, begin, pivot + 1);
        Trans(old(t[..]), u, t[..], begin, end + 1, pivot + 1, end + 1);
        if ok { SplitSorted(s, u, t[..], begin, pivot + 1, end + 1, pivotvalue); }
      }
    }
  }

  /**
   * The failure: behind every changed split point below 2^32 - 1 the second recursive call would start at a negative
   * index. For the two items at indices 2^31 and 2^31 + 1, say, the split is after the first of them.
   */
  lemma NarrowedSplit(right: int)
    requires 0x8000_0000 <= right < 0xFFFF_FFFF
    ensures ToInt32(right) + 1 < 0 && ToInt32(0x8000_0000) == -0x8000_0000
  {}

  /** The contract of `std::sort`: ascending, the same items, no promise about equal keys. */
  method StdSort<V>(t: array<Item<V>>)
    modifies t
    ensures SortedByKey(t[..]) && multiset(t[..]) == multiset(old(t[..]))
  {
    QuickInsertionSort(t, 0, t.Length - 1, 16);
  }
}

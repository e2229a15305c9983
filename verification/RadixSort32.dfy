/** The in-place MSD radix sort of items with 32-bit keys. */
module RadixSort32 {
  import opened Cuts
  import opened Digits
  import opened QuickSort
  import opened Rearranging
  import opened Seqs
  import opened StablePass
  import opened Tasks

  const CMP_SORT_THRESHOLD: nat := 16

  // ------------------------------------------------------------ the exchange cycles, on values

  /** The head of bucket `b` moves on by one. */
  function Bump(head: seq<nat>, b: nat): (r: seq<nat>)
    requires b < |head|
    ensures |r| == |head| && r[b] == head[b] + 1
    ensures forall c :: 0 <= c < |head| && c != b ==> r[c] == head[c]
  {
    head[b := head[b] + 1]
  }

  /** Bucket `b` is the stretch from `BucketStart(b)` to `BucketStart(b + 1)`; up to `h` it holds its own items only. */
  ghost predicate Filled<V>(w: seq<Item<V>>, s: seq<Item<V>>, shift: nat, b: nat, h: nat) {
    && BucketStart(s, shift, b) <= h <= BucketStart(s, shift, b + 1) <= |w|
    && forall k :: BucketStart(s, shift, b) <= k < h ==> Digit(w[k].key, shift) == b
  }

  /** Before and after every exchange, with the held item put back into the gap it came from. */
  ghost predicate Cycling<V>(w: seq<Item<V>>, s: seq<Item<V>>, shift: nat, head: seq<nat>) {
    && multiset(w) == multiset(s) && |w| == |s| && |head| == BUCKETS
    && forall b :: 0 <= b < BUCKETS ==> Filled(w, s, shift, b, head[b])
  }

  /** Counting: a stretch of matching items and a matching item elsewhere. */
  lemma CountRegion<T>(w: seq<T>, x: nat, y: nat, h: nat, p: T -> bool)
    requires x <= y <= |w| && h < |w| && (h < x || y <= h) && p(w[h])
    requires forall k :: x <= k < y ==> p(w[k])
    ensures y - x < Count(w, p)
  {
    FilterSlice(w, x, y, p);
    FilterAll(w[x..y], p);
    FilterSplit(w, y, p);
    if h < x {
      FilterPrefix(w[..x], h, p);
    } else {
      assert w[y..][h - y] == w[h];
      FilterPrefix(w[y..], h - y, p);
    }
  }

  /** A held item always finds room in its own bucket. */
  lemma RoomFor<V>(w: seq<Item<V>>, s: seq<Item<V>>, shift: nat, head: seq<nat>, i: nat, b: nat)
    requires Cycling(w, s, shift, head) && i < BUCKETS && b < BUCKETS && b != i
    requires head[i] < BucketStart(s, shift, i + 1) && Digit(w[head[i]].key, shift) == b
    ensures head[b] < BucketStart(s, shift, b + 1)
    ensures head[b] != head[i]
  {
    assert Filled(w, s, shift, i, head[i]) && Filled(w, s, shift, b, head[b]);
    if i < b { BucketsApart(s, shift, i, b); } else { BucketsApart(s, shift, b, i); }
    if head[b] == BucketStart(s, shift, b + 1) {
      CountRegion(w, BucketStart(s, shift, b), head[b], head[i], HasDigit(shift, b));
      CountSame(w, s, HasDigit(shift, b));
      assert false;
    }
  }

  /** One exchange: the held item goes to the head of its bucket, the item found there takes its place in the gap. */
  lemma Exchange<V>(w: seq<Item<V>>, s: seq<Item<V>>, shift: nat, head: seq<nat>, i: nat, b: nat)
    requires Cycling(w, s, shift, head) && i < BUCKETS && b < BUCKETS && b != i
    requires head[i] < BucketStart(s, shift, i + 1) && Digit(w[head[i]].key, shift) == b
    ensures head[b] < BucketStart(s, shift, b + 1) <= |w| && head[b] != head[i]
    ensures head[i] < |w| && Cycling(Swapped(w, head[i], head[b]), s, shift, Bump(head, b))
  {
    RoomFor(w, s, shift, head, i, b);
    var w', next := Swapped(w, head[i], head[b]), Bump(head, b);
    forall c | 0 <= c < BUCKETS ensures Filled(w', s, shift, c, next[c]) {
      assert Filled(w, s, shift, c, head[c]) && Filled(w, s, shift, b, head[b]) && Filled(w, s, shift, i, head[i]);
      if c < b { BucketsApart(s, shift, c, b); } else if b < c { BucketsApart(s, shift, b, c); }
      if c < i { BucketsApart(s, shift, c, i); } else if i < c { BucketsApart(s, shift, i, c); }
    }
  }

  lemma FilledMore<V>(w: seq<Item<V>>, s: seq<Item<V>>, shift: nat, b: nat, h: nat)
    requires Filled(w, s, shift, b, h) && h < BucketStart(s, shift, b + 1) && Digit(w[h].key, shift) == b
    ensures Filled(w, s, shift, b, h + 1)
  {}

  /** The cycle closes: the held item belongs into the gap. */
  lemma Close<V>(w: seq<Item<V>>, s: seq<Item<V>>, shift: nat, head: seq<nat>, i: nat)
    requires Cycling(w, s, shift, head) && i < BUCKETS
    requires head[i] < BucketStart(s, shift, i + 1) <= |w| && Digit(w[head[i]].key, shift) == i
    ensures Cycling(w, s, shift, Bump(head, i))
  {
    assert Filled(w, s, shift, i, head[i]);
    FilledMore(w, s, shift, i, head[i]);
  }

  /** Room left in every bucket. */
  ghost function Room<V>(s: seq<Item<V>>, shift: nat, head: seq<nat>): (r: seq<nat>)
    requires |head| == BUCKETS
  {
    seq(BUCKETS, b requires 0 <= b < BUCKETS =>
      var end := BucketStart(s, shift, b + 1); if head[b] <= end then end - head[b] else 0)
  }

  lemma RoomStep<V>(s: seq<Item<V>>, shift: nat, head: seq<nat>, b: nat)
    requires |head| == BUCKETS && b < BUCKETS && head[b] < BucketStart(s, shift, b + 1)
    ensures Work(Room(s, shift, Bump(head, b))) < Work(Room(s, shift, head))
  {
    hide BucketStart;
    var r := Room(s, shift, head);
    WorkStep(r, b);
    assert Room(s, shift, Bump(head, b)) == r[b := r[b] - 1];
  }

  // ------------------------------------------------------------ the distribution in place

  /** Counts the digits of the items in the stretch. */
  method CountDigits<V>(a: array<Item<V>>, lo: nat, hi: nat, shift: nat) returns (count: array<nat>)
    requires lo <= hi <= a.Length
    ensures fresh(count) && count.Length == BUCKETS
    ensures forall b :: 0 <= b < BUCKETS ==> count[b] == Count(a[lo..hi], HasDigit(shift, b))
  {
    count := new nat[BUCKETS](_ => 0);
    ghost var s := a[lo..hi];
    for i := lo to hi
      invariant a[lo..hi] == s
      invariant forall b :: 0 <= b < BUCKETS ==> count[b] == Count(s[..i - lo], HasDigit(shift, b))
    {
      var index := Digit(a[i].key, shift);
      count[index] := count[index] + 1;
      assert a[i] == s[i - lo];
      forall b | 0 <= b < BUCKETS ensures count[b] == Count(s[..i + 1 - lo], HasDigit(shift, b)) {
        FilterSnoc(s, i - lo, HasDigit(shift, b));
      }
    }
    assert s[..hi - lo] == s;
  }

  /** The array while an item of the stretch is held: its place at `gap` still holds `stale`. */
  ghost predicate Holding<V>(a: seq<Item<V>>, base: seq<Item<V>>, lo: nat, hi: nat, w: seq<Item<V>>, gap: nat,
                             stale: Item<V>) {
    gap < |w| && Window(a, base, lo, hi, w[gap := stale])
  }

  lemma HoldingSwap<V>(a: seq<Item<V>>, base: seq<Item<V>>, lo: nat, hi: nat, w: seq<Item<V>>, gap: nat,
                       stale: Item<V>, k: nat)
    requires Holding(a, base, lo, hi, w, gap, stale) && k < |w| && k != gap
    ensures lo + k < |a| && a[lo + k] == w[k]
    ensures Holding(a[lo + k := w[gap]], base, lo, hi, Swapped(w, gap, k), gap, stale)
  {
    WindowUpdate(a, base, lo, hi, w[gap := stale], k, w[gap]);
    assert w[gap := stale][k := w[gap]] == Swapped(w, gap, k)[gap := stale];
  }

  /** The state of the inner loop of bucket `i`. */
  ghost predicate Spinning<V>(a: seq<Item<V>>, base: seq<Item<V>>, lo: nat, hi: nat, w: seq<Item<V>>, s: seq<Item<V>>,
                              shift: nat,
                              head: seq<nat>, i: nat, stale: Item<V>) {
    && i < BUCKETS && Cycling(w, s, shift, head) && head[i] < BucketStart(s, shift, i + 1) <= |w|
    && Holding(a, base, lo, hi, w, head[i], stale)
  }

  /** The item goes to the head `k` of its bucket `b`. */
  lemma Spin<V>(a: seq<Item<V>>, base: seq<Item<V>>, lo: nat, hi: nat, w: seq<Item<V>>, s: seq<Item<V>>, shift: nat,
                head: seq<nat>, i: nat, stale: Item<V>, b: nat)
    requires Spinning(a, base, lo, hi, w, s, shift, head, i, stale) && head[i] < |w|
    requires b == Digit(w[head[i]].key, shift) != i
    ensures b < |head| && head[b] < |w| && head[i] < |w|
    ensures lo + head[b] < |a| && a[lo + head[b]] == w[head[b]]
    ensures Spinning(a[lo + head[b] := w[head[i]]], base, lo, hi, Swapped(w, head[i], head[b]), s, shift,
                     Bump(head, b), i, stale)
    ensures Work(Room(s, shift, Bump(head, b))) < Work(Room(s, shift, head))
  {
    hide Cycling, Room, Work, BucketStart, Digit;
    Exchange(w, s, shift, head, i, b);
    HoldingSwap(a, base, lo, hi, w, head[i], stale, head[b]);
    RoomStep(s, shift, head, b);
  }

  lemma SpinStart<V>(a: seq<Item<V>>, base: seq<Item<V>>, lo: nat, hi: nat, w: seq<Item<V>>, s: seq<Item<V>>,
                     shift: nat,
                     head: seq<nat>, i: nat)
    requires i < BUCKETS && Window(a, base, lo, hi, w) && Cycling(w, s, shift, head)
    requires head[i] < BucketStart(s, shift, i + 1)
    ensures head[i] < |w| && lo + head[i] < |a| && a[lo + head[i]] == w[head[i]]
    ensures Spinning(a, base, lo, hi, w, s, shift, head, i, a[lo + head[i]])
  {
    assert Filled(w, s, shift, i, head[i]);
    assert w[head[i] := w[head[i]]] == w;
  }

  lemma SpinEnd<V>(a: seq<Item<V>>, base: seq<Item<V>>, lo: nat, hi: nat, w: seq<Item<V>>, s: seq<Item<V>>, shift: nat,
                   head: seq<nat>, i: nat, stale: Item<V>)
    requires Spinning(a, base, lo, hi, w, s, shift, head, i, stale) && Digit(w[head[i]].key, shift) == i
    ensures head[i] < |w| && lo + head[i] < |a|
    ensures Window(a[lo + head[i] := w[head[i]]], base, lo, hi, w) && Cycling(w, s, shift, Bump(head, i))
    ensures Work(Room(s, shift, Bump(head, i))) < Work(Room(s, shift, head))
  {
    hide BucketStart, Work, Room;
    assert Filled(w, s, shift, i, head[i]);
    Close(w, s, shift, head, i);
    RoomStep(s, shift, head, i);
    WindowUpdate(a, base, lo, hi, w[head[i] := stale], head[i], w[head[i]]);
    assert w[head[i] := stale][head[i] := w[head[i]]] == w;
  }

  /** Exchanges the held item with the one at the head of bucket `b`, which moves on. */
  method SwapAtHead<V>(a: array<Item<V>>, lo: nat, head: array<nat>, b: nat, v: Item<V>) returns (taken: Item<V>)
    requires b < head.Length && lo + head[b] < a.Length
    modifies a, head
    ensures a[..] == old(a[..])[lo + old(head[b]) := v] && taken == old(a[lo + head[b]])
    ensures head[..] == Bump(old(head[..]), b)
  {
    ghost var hd := head[..];
    taken := a[lo + head[b]];
    a[lo + head[b]] := v;
    assert head[..] == hd;
    head[b] := head[b] + 1;
  }

  /** One round of the loop over bucket `i`: an item is taken out at its head, and one that belongs there comes back. */
  method Cycle<V>(a: array<Item<V>>, lo: nat, hi: nat, shift: nat, head: array<nat>, i: nat, ghost s: seq<Item<V>>,
                  ghost base: seq<Item<V>>, ghost w0: seq<Item<V>>) returns (ghost w: seq<Item<V>>)
    requires i < BUCKETS && head.Length == BUCKETS
    requires Window(a[..], base, lo, hi, w0) && Cycling(w0, s, shift, head[..])
    requires head[i] < BucketStart(s, shift, i + 1)
    modifies a, head
    ensures Window(a[..], base, lo, hi, w) && Cycling(w, s, shift, head[..])
    ensures Work(Room(s, shift, head[..])) < Work(Room(s, shift, old(head[..])))
    ensures forall b :: 0 <= b < BUCKETS ==> old(head[b]) <= head[b]
  {
    hide *;
    ghost var hd := head[..];
    ghost var hd0 := hd;
    ghost var room := Work(Room(s, shift, hd));
    w := w0;
    SpinStart(a[..], base, lo, hi, w, s, shift, hd, i);
    var v := a[lo + head[i]];
    ghost var stale := v;
    while Digit(v.key, shift) != i
      invariant head[..] == hd && |hd| == BUCKETS && hd[i] < |w|
      invariant Spinning(a[..], base, lo, hi, w, s, shift, hd, i, stale) && w[hd[i]] == v
      invariant Work(Room(s, shift, hd)) <= room
      invariant forall b :: 0 <= b < BUCKETS ==> hd0[b] <= hd[b]
      decreases Work(Room(s, shift, hd))
    {
      var b := Digit(v.key, shift);
      Spin(a[..], base, lo, hi, w, s, shift, hd, i, stale, b);
      v := SwapAtHead(a, lo, head, b, v);
      w, hd := Swapped(w, hd[i], hd[b]), Bump(hd, b);
    }
    SpinEnd(a[..], base, lo, hi, w, s, shift, hd, i, stale);
    v := SwapAtHead(a, lo, head, i, v);
  }

  /** The loop over all buckets. */
  method Distribute<V>(a: array<Item<V>>, lo: nat, hi: nat, shift: nat, head: array<nat>, tail: array<nat>,
                       ghost s: seq<Item<V>>)
      returns (ghost w: seq<Item<V>>)
    requires lo <= hi <= a.Length && a[lo..hi] == s && head.Length == tail.Length == BUCKETS && head != tail
    requires forall b :: 0 <= b < BUCKETS ==>
      head[b] == BucketStart(s, shift, b) && tail[b] == BucketStart(s, shift, b + 1)
    modifies a, head
    ensures Window(a[..], old(a[..]), lo, hi, w) && Distributed(w, s, shift)
  {
    hide Cycling, Room, Work, BucketStart, Window, Distributed;
    ghost var base := a[..];
    w := s;
    WindowSelf(base, lo, hi);
    CyclingStart(s, shift, head[..]);
    ghost var ends := tail[..];
    for i := 0 to BUCKETS
      invariant tail[..] == ends
      invariant Window(a[..], base, lo, hi, w) && Cycling(w, s, shift, head[..])
      invariant forall b :: 0 <= b < i ==> ends[b] <= head[b]
    {
      while head[i] < tail[i]
        invariant tail[..] == ends
        invariant Window(a[..], base, lo, hi, w) && Cycling(w, s, shift, head[..])
        invariant forall b :: 0 <= b < i ==> ends[b] <= head[b]
        decreases Work(Room(s, shift, head[..]))
      {
        w := Cycle(a, lo, hi, shift, head, i, s, base, w);
      }
    }
    CyclingEnd(w, s, shift, head[..]);
  }

  /** Bucket `b` holds its own items and no others. */
  ghost predicate Full<V>(w: seq<Item<V>>, s: seq<Item<V>>, shift: nat, b: nat) {
    Filled(w, s, shift, b, BucketStart(s, shift, b + 1))
  }

  ghost predicate Distributed<V>(w: seq<Item<V>>, s: seq<Item<V>>, shift: nat) {
    && multiset(w) == multiset(s) && |w| == |s|
    && forall b :: 0 <= b < BUCKETS ==> Full(w, s, shift, b)
  }

  lemma CyclingEnd<V>(w: seq<Item<V>>, s: seq<Item<V>>, shift: nat, head: seq<nat>)
    requires Cycling(w, s, shift, head) && forall b :: 0 <= b < BUCKETS ==> BucketStart(s, shift, b + 1) <= head[b]
    ensures Distributed(w, s, shift)
  {
    forall b | 0 <= b < BUCKETS ensures Full(w, s, shift, b) {
      assert Filled(w, s, shift, b, head[b]);
    }
  }

  lemma CyclingStart<V>(s: seq<Item<V>>, shift: nat, head: seq<nat>)
    requires |head| == BUCKETS && forall b :: 0 <= b < BUCKETS ==> head[b] == BucketStart(s, shift, b)
    ensures Cycling(s, s, shift, head)
  {
    forall b | 0 <= b < BUCKETS ensures Filled(s, s, shift, b, head[b]) {
      BucketsEnd(s, shift, b);
    }
  }

  lemma BucketsEnd<V>(s: seq<Item<V>>, shift: nat, b: nat)
    requires b < BUCKETS
    ensures BucketStart(s, shift, b) + Count(s, HasDigit(shift, b)) == BucketStart(s, shift, b + 1) <= |s|
  {
    PassLength(s, shift);
    if b + 1 < BUCKETS { BucketsApart(s, shift, b + 1, BUCKETS); }
  }

  /** Bucket bounds by prefix sums of the counts. */
  method HeadsAndTails<V>(count: array<nat>, ghost s: seq<Item<V>>, shift: nat)
      returns (head: array<nat>, tail: array<nat>)
    requires count.Length == BUCKETS
    requires forall b :: 0 <= b < BUCKETS ==> count[b] == Count(s, HasDigit(shift, b))
    ensures fresh(head) && fresh(tail) && head != tail && head.Length == tail.Length == BUCKETS
    ensures forall b :: 0 <= b < BUCKETS ==>
      head[b] == BucketStart(s, shift, b) && tail[b] == BucketStart(s, shift, b + 1)
  {
    hide BucketStart;
    head, tail := new nat[BUCKETS], new nat[BUCKETS];
    head[0] := 0;
    BucketStartZero(s, shift);
    ghost var counts := count[..];
    for i := 1 to BUCKETS
      invariant count[..] == counts
      invariant forall b :: 0 <= b < i ==> head[b] == BucketStart(s, shift, b)
    {
      head[i] := head[i - 1] + count[i - 1];
      BucketStartStep(s, shift, i - 1);
    }
    ghost var heads := head[..];
    for i := 0 to BUCKETS - 1
      invariant count[..] == counts && head[..] == heads
      invariant forall b :: 0 <= b < i ==> tail[b] == BucketStart(s, shift, b + 1)
    {
      tail[i] := head[i + 1];
    }
    tail[BUCKETS - 1] := head[BUCKETS - 1] + count[BUCKETS - 1];
    BucketStartStep(s, shift, BUCKETS - 1);
  }

  // ------------------------------------------------------------ sorting the buckets

  function HasHigh<V>(shift: nat, high: nat): Item<V> -> bool {
    (x: Item<V>) => ShiftRight(x.key, shift) == high
  }

  /** All keys of bucket `b`, which starts `lo` items further up in `t`, agree from bit `shift` on. */
  ghost predicate Ready<V>(t: seq<Item<V>>, lo: nat, s: seq<Item<V>>, shift: nat, high: nat, b: nat) {
    && BucketStart(s, shift, b) <= BucketStart(s, shift, b + 1)
    && lo + BucketStart(s, shift, b + 1) <= |t|
    && forall k :: lo + BucketStart(s, shift, b) <= k < lo + BucketStart(s, shift, b + 1) ==>
         HasHigh<V>(shift, high * BUCKETS + b)(t[k])
  }

  ghost predicate AllReady<V>(t: seq<Item<V>>, lo: nat, s: seq<Item<V>>, shift: nat, high: nat) {
    forall b :: 0 <= b < BUCKETS ==> Ready(t, lo, s, shift, high, b)
  }

  ghost predicate BucketSorted<V>(t: seq<Item<V>>, lo: nat, s: seq<Item<V>>, shift: nat, b: nat) {
    && lo + BucketStart(s, shift, b + 1) <= |t|
    && SortedBetween(t, lo + BucketStart(s, shift, b), lo + BucketStart(s, shift, b + 1))
  }

  lemma {:induction false} ShiftMono(x: nat, y: nat, shift: nat)
    requires x <= y
    ensures ShiftRight(x, shift) <= ShiftRight(y, shift)
  {
    if shift != 0 { ShiftMono(x / 2, y / 2, shift - 1); }
  }

  lemma ShiftStep(key: nat, shift: nat)
    ensures ShiftRight(key, shift) == ShiftRight(key, shift + BITS) * BUCKETS + Digit(key, shift)
  {
    ShiftIsDiv(key, shift);
    ShiftIsDiv(key, shift + BITS);
    DigitStep(key, shift);
  }

  /** After the distribution the items of a bucket agree on one digit more. */
  lemma DistributedReady<V>(a: seq<Item<V>>, base: seq<Item<V>>, lo: nat, hi: nat, w: seq<Item<V>>, shift: nat,
                            high: nat)
    requires Window(a, base, lo, hi, w) && Distributed(w, base[lo..hi], shift)
    requires forall k :: lo <= k < hi ==> HasHigh<V>(shift + BITS, high)(base[k])
    ensures Rearranged(base, a, lo, hi) && AllReady(a, lo, base[lo..hi], shift, high)
  {
    var s := base[lo..hi];
    WindowRearranged(a, base, lo, hi, w);
    KeepsAll(base, a, lo, hi, HasHigh(shift + BITS, high));
    forall b | 0 <= b < BUCKETS ensures Ready(a, lo, s, shift, high, b) {
      assert Full(w, s, shift, b);
      forall k | lo + BucketStart(s, shift, b) <= k < lo + BucketStart(s, shift, b + 1)
        ensures HasHigh<V>(shift, high * BUCKETS + b)(a[k])
      {
        assert a[k] == w[k - lo];
        ShiftStep(a[k].key, shift);
      }
    }
  }

  /** Sorted buckets in digit order are sorted. */
  lemma AllSorted<V>(t: seq<Item<V>>, lo: nat, hi: nat, s: seq<Item<V>>, shift: nat, high: nat)
    requires lo <= hi <= |t| && |s| == hi - lo && AllReady(t, lo, s, shift, high)
    requires forall b :: 0 <= b < BUCKETS ==> BucketSorted(t, lo, s, shift, b)
    ensures SortedBetween(t, lo, hi)
  {
    PassLength(s, shift);
    forall i, j | lo <= i < j < hi ensures t[i].key <= t[j].key {
      var d, k := BucketOf(s, shift, BUCKETS, i - lo);
      var e, l := BucketOf(s, shift, BUCKETS, j - lo);
      InOrder(t, lo, s, shift, high, i, j, d, e);
    }
  }

  lemma InOrder<V>(t: seq<Item<V>>, lo: nat, s: seq<Item<V>>, shift: nat, high: nat, i: nat, j: nat, d: nat, e: nat)
    requires AllReady(t, lo, s, shift, high) && d < BUCKETS && e < BUCKETS && lo <= i < j < |t|
    requires BucketStart(s, shift, d) <= i - lo < BucketStart(s, shift, d) + Count(s, HasDigit(shift, d))
    requires BucketStart(s, shift, e) <= j - lo < BucketStart(s, shift, e) + Count(s, HasDigit(shift, e))
    requires BucketSorted(t, lo, s, shift, d)
    ensures t[i].key <= t[j].key
  {
    BucketStartStep(s, shift, d);
    BucketStartStep(s, shift, e);
    assert Ready(t, lo, s, shift, high, d) && Ready(t, lo, s, shift, high, e);
    if e < d {
      BucketsApart(s, shift, e, d);
    } else if d < e && t[j].key < t[i].key {
      ShiftMono(t[j].key, t[i].key, shift);
    }
  }

  /** At the last digit a bucket holds equal keys. */
  lemma LastDigitSorted<V>(t: seq<Item<V>>, lo: nat, s: seq<Item<V>>, high: nat)
    requires AllReady(t, lo, s, 0, high)
    ensures forall b :: 0 <= b < BUCKETS ==> BucketSorted(t, lo, s, 0, b)
  {
    forall b | 0 <= b < BUCKETS ensures BucketSorted(t, lo, s, 0, b) {
      assert Ready(t, lo, s, 0, high, b);
    }
  }

  /** Sorting bucket `i` in place leaves the other buckets alone and keeps `i` what it is. */
  lemma BucketStep<V>(t: seq<Item<V>>, u: seq<Item<V>>, lo: nat, s: seq<Item<V>>, shift: nat, high: nat, i: nat)
    requires AllReady(t, lo, s, shift, high) && i < BUCKETS
    requires forall b :: 0 <= b < i ==> BucketSorted(t, lo, s, shift, b)
    requires Rearranged(t, u, lo + BucketStart(s, shift, i), lo + BucketStart(s, shift, i + 1))
    requires SortedBetween(u, lo + BucketStart(s, shift, i), lo + BucketStart(s, shift, i + 1))
    ensures AllReady(u, lo, s, shift, high)
    ensures forall b :: 0 <= b <= i ==> BucketSorted(u, lo, s, shift, b)
  {
    var p, q := lo + BucketStart(s, shift, i), lo + BucketStart(s, shift, i + 1);
    forall b | 0 <= b < BUCKETS
      ensures Ready(u, lo, s, shift, high, b)
      ensures b <= i ==> BucketSorted(u, lo, s, shift, b)
    {
      assert Ready(t, lo, s, shift, high, b);
      if b == i {
        KeepsAll(t, u, p, q, HasHigh(shift, high * BUCKETS + i));
      } else {
        OtherBucket(s, shift, i, b);
        if b < i { assert BucketSorted(t, lo, s, shift, b); }
      }
    }
  }

  lemma OtherBucket<V>(s: seq<Item<V>>, shift: nat, i: nat, b: nat)
    requires i != b
    ensures BucketStart(s, shift, b + 1) <= BucketStart(s, shift, i)
            || BucketStart(s, shift, i + 1) <= BucketStart(s, shift, b)
  {
    BucketStartStep(s, shift, i);
    BucketStartStep(s, shift, b);
    if i < b { BucketsApart(s, shift, i, b); } else { BucketsApart(s, shift, b, i); }
  }

  /** Counts, distributes, and reads off what that gives. */
  method SplitByDigit<V>(a: array<Item<V>>, lo: nat, hi: nat, shift: nat, ghost high: nat) returns (count: array<nat>)
    requires lo <= hi <= a.Length
    requires forall k :: lo <= k < hi ==> HasHigh<V>(shift + BITS, high)(a[k])
    modifies a
    ensures fresh(count) && count.Length == BUCKETS
    ensures forall b :: 0 <= b < BUCKETS ==> count[b] == Count(old(a[lo..hi]), HasDigit(shift, b))
    ensures Rearranged(old(a[..]), a[..], lo, hi) && AllReady(a[..], lo, old(a[lo..hi]), shift, high)
  {
    ghost var base := a[..];
    ghost var s := a[lo..hi];
    count := CountDigits(a, lo, hi, shift);
    ghost var counts := count[..];
    var head, tail := HeadsAndTails(count, s, shift);
    ghost var w := Distribute(a, lo, hi, shift, head, tail, s);
    DistributedReady(a[..], base, lo, hi, w, shift, high);
    assert count[..] == counts;
  }

  /** Sorts `morton[lo..hi]`, whose keys agree from bit `shift + BITS` on. */
  method SortFrom<V>(a: array<Item<V>>, lo: nat, hi: nat, shift: nat, ghost high: nat)
    requires lo <= hi <= a.Length && shift % BITS == 0
    requires forall k :: lo <= k < hi ==> HasHigh<V>(shift + BITS, high)(a[k])
    modifies a
    ensures SortedBetween(a[..], lo, hi) && Rearranged(old(a[..]), a[..], lo, hi)
    decreases shift, 1
  {
    ghost var s := a[lo..hi];
    var count := SplitByDigit(a, lo, hi, shift, high);
    if shift == 0 {
      LastDigitSorted(a[..], lo, s, high);
    } else {
      ghost var mid := a[..];
      SortBuckets(a, lo, hi, shift, high, count, s);
      Trans(old(a[..]), mid, a[..], lo, hi, lo, hi);
    }
    AllSorted(a[..], lo, hi, s, shift, high);
  }

  /** The loop over the buckets: small ones by insertion, the others by the next digit. */
  method SortBuckets<V>(a: array<Item<V>>, lo: nat, hi: nat, shift: nat, ghost high: nat, count: array<nat>,
                        ghost s: seq<Item<V>>)
    requires lo <= hi <= a.Length && |s| == hi - lo && BITS <= shift && shift % BITS == 0 && count.Length == BUCKETS
    requires forall b :: 0 <= b < BUCKETS ==> count[b] == Count(s, HasDigit(shift, b))
    requires AllReady(a[..], lo, s, shift, high)
    modifies a
    ensures Rearranged(old(a[..]), a[..], lo, hi) && AllReady(a[..], lo, s, shift, high)
    ensures forall b :: 0 <= b < BUCKETS ==> BucketSorted(a[..], lo, s, shift, b)
    decreases shift, 0
  {
    hide BucketStart;
    BucketStartZero(s, shift);
    var offset := 0;
    ghost var a0, counts := a[..], count[..];
    for i := 0 to BUCKETS
      invariant count[..] == counts && offset == BucketStart(s, shift, i)
      invariant Rearranged(a0, a[..], lo, hi) && AllReady(a[..], lo, s, shift, high)
      invariant forall b :: 0 <= b < i ==> BucketSorted(a[..], lo, s, shift, b)
    {
      var c := count[i];
      ghost var t := a[..];
      BucketBounds(t, lo, hi, s, shift, high, i);
      SortBucket(a, lo + offset, lo + offset + c, shift, high * BUCKETS + i);
      BucketStep(t, a[..], lo, s, shift, high, i);
      Trans(a0, t, a[..], lo, hi, lo + offset, lo + offset + c);
      offset := offset + c;
    }
  }

  lemma BucketBounds<V>(t: seq<Item<V>>, lo: nat, hi: nat, s: seq<Item<V>>, shift: nat, high: nat, i: nat)
    requires lo <= hi <= |t| && |s| == hi - lo && AllReady(t, lo, s, shift, high) && i < BUCKETS
    ensures BucketStart(s, shift, i) + Count(s, HasDigit(shift, i)) == BucketStart(s, shift, i + 1) <= |s|
    ensures forall k :: lo + BucketStart(s, shift, i) <= k < lo + BucketStart(s, shift, i + 1) ==>
      HasHigh<V>(shift, high * BUCKETS + i)(t[k])
  {
    BucketsEnd(s, shift, i);
    assert Ready(t, lo, s, shift, high, i);
  }

  method SortBucket<V>(a: array<Item<V>>, lo: nat, hi: nat, shift: nat, ghost high: nat)
    requires lo <= hi <= a.Length && BITS <= shift && shift % BITS == 0
    requires forall k :: lo <= k < hi ==> HasHigh<V>(shift, high)(a[k])
    modifies a
    ensures SortedBetween(a[..], lo, hi) && Rearranged(old(a[..]), a[..], lo, hi)
    decreases shift - BITS, 2
  {
    if lo < hi {
      if hi - lo < CMP_SORT_THRESHOLD {
        InsertionSort(a, lo, hi);
      } else {
        SortFrom(a, lo, hi, shift - BITS, high);
      }
    }
  }

  /** `radixsort32`: a sorted reordering of items with 32-bit keys. */
  method RadixSort<V>(morton: array<Item<V>>)
    requires forall k :: 0 <= k < morton.Length ==> morton[k].key < Pow2(32)
    modifies morton
    ensures SortedByKey(morton[..]) && multiset(morton[..]) == multiset(old(morton[..]))
  {
    forall k | 0 <= k < morton.Length ensures HasHigh<V>(32, 0)(morton[k]) {
      ShiftIsDiv(morton[k].key, 32);
      DivUnique(morton[k].key, Pow2(32), 0, morton[k].key);
    }
    SortFrom(morton, 0, morton.Length, 3 * BITS, 0);
  }
}

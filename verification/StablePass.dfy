/** One stable distribution by a digit, as a function; several of them as a stable sort. */
module StablePass {
  import opened Seqs
  import opened Cuts
  import opened Digits

  /** The items whose digit is below `n`: bucket after bucket, input order inside a bucket. */
  function Buckets<V>(s: seq<Item<V>>, shift: nat, n: nat): seq<Item<V>> {
    if n == 0 then [] else Buckets(s, shift, n - 1) + Filter(s, HasDigit(shift, n - 1))
  }

  function Pass<V>(s: seq<Item<V>>, shift: nat): seq<Item<V>> {
    Buckets(s, shift, BUCKETS)
  }

  /** Where bucket `d` starts. */
  function BucketStart<V>(s: seq<Item<V>>, shift: nat, d: nat): nat {
    |Buckets(s, shift, d)|
  }

  lemma BucketStartZero<V>(s: seq<Item<V>>, shift: nat)
    ensures BucketStart(s, shift, 0) == 0
  {}

  lemma BucketStartStep<V>(s: seq<Item<V>>, shift: nat, d: nat)
    ensures BucketStart(s, shift, d + 1) == BucketStart(s, shift, d) + Count(s, HasDigit(shift, d))
  {}

  /** The stable rank of item `i`: all items of a smaller digit, and the earlier ones of the same digit. */
  function Rank<V>(s: seq<Item<V>>, shift: nat, i: nat): nat
    requires i < |s|
  {
    BucketStart(s, shift, Digit(s[i].key, shift)) + Count(s[..i], HasDigit(shift, Digit(s[i].key, shift)))
  }

  lemma {:induction false} BucketsSnoc<V>(s: seq<Item<V>>, x: Item<V>, shift: nat, n: nat)
    ensures |Buckets(s + [x], shift, n)| == |Buckets(s, shift, n)| + if Digit(x.key, shift) < n then 1 else 0
  {
    if n != 0 {
      BucketsSnoc(s, x, shift, n - 1);
      assert (s + [x])[..|s|] == s;
    }
  }

  lemma {:induction false} PassLength<V>(s: seq<Item<V>>, shift: nat)
    ensures |Pass(s, shift)| == |s|
  {
    if s == [] {
      EmptyBuckets<V>(shift, BUCKETS);
    } else {
      var m := |s| - 1;
      PassLength(s[..m], shift);
      assert s == s[..m] + [s[m]];
      BucketsSnoc(s[..m], s[m], shift, BUCKETS);
    }
  }

  lemma {:induction false} EmptyBuckets<V>(shift: nat, n: nat)
    ensures Buckets<V>([], shift, n) == []
  {
    if n != 0 { EmptyBuckets<V>(shift, n - 1); }
  }

  /** Item `k` of bucket `d` in the distribution. */
  lemma {:induction false} BucketAt<V>(s: seq<Item<V>>, shift: nat, n: nat, d: nat, k: nat)
    requires d < n && k < Count(s, HasDigit(shift, d))
    ensures BucketStart(s, shift, d) + k < |Buckets(s, shift, n)|
    ensures Buckets(s, shift, n)[BucketStart(s, shift, d) + k] == Filter(s, HasDigit(shift, d))[k]
  {
    hide Filter, HasDigit;
    if d < n - 1 { BucketAt(s, shift, n - 1, d, k); }
  }

  lemma {:induction false} BucketOf<V>(s: seq<Item<V>>, shift: nat, n: nat, q: nat) returns (d: nat, k: nat)
    requires q < |Buckets(s, shift, n)|
    ensures d < n && k < Count(s, HasDigit(shift, d)) && q == BucketStart(s, shift, d) + k
  {
    if q < |Buckets(s, shift, n - 1)| {
      d, k := BucketOf(s, shift, n - 1, q);
    } else {
      d, k := n - 1, q - |Buckets(s, shift, n - 1)|;
    }
  }

  lemma {:induction false} BucketsApart<V>(s: seq<Item<V>>, shift: nat, d: nat, e: nat)
    requires d < e
    ensures BucketStart(s, shift, d) + Count(s, HasDigit(shift, d)) <= BucketStart(s, shift, e)
  {
    if d < e - 1 { BucketsApart(s, shift, d, e - 1); }
  }

  /** Ranks are destinations: the item of rank `r` is item `r` of the distribution. */
  lemma RankIsPlace<V>(s: seq<Item<V>>, shift: nat, i: nat)
    requires i < |s|
    ensures Rank(s, shift, i) < |s| == |Pass(s, shift)|
    ensures Pass(s, shift)[Rank(s, shift, i)] == s[i]
  {
    var d := Digit(s[i].key, shift);
    var p := HasDigit<V>(shift, d);
    PassLength(s, shift);
    FilterPrefix(s, i, p);
    BucketAt(s, shift, BUCKETS, d, Count(s[..i], p));
  }

  lemma FilterPrefix<T>(s: seq<T>, i: nat, p: T -> bool)
    requires i < |s| && p(s[i])
    ensures Count(s[..i], p) < Count(s, p) && Filter(s, p)[Count(s[..i], p)] == s[i]
  {
    FilterSnoc(s, i, p);
    FilterSplit(s, i + 1, p);
  }

  lemma RankInjective<V>(s: seq<Item<V>>, shift: nat, i: nat, j: nat)
    requires i < |s| && j < |s| && i != j
    ensures Rank(s, shift, i) != Rank(s, shift, j)
  {
    if j < i {
      RankInjective(s, shift, j, i);
    } else {
      var d, e := Digit(s[i].key, shift), Digit(s[j].key, shift);
      RankInBucket(s, shift, i);
      RankInBucket(s, shift, j);
      if d < e {
        BucketsApart(s, shift, d, e);
      } else if e < d {
        BucketsApart(s, shift, e, d);
      } else {
        CountMono(s, i, j, HasDigit(shift, d));
      }
    }
  }

  lemma RankInBucket<V>(s: seq<Item<V>>, shift: nat, i: nat)
    requires i < |s|
    ensures var d := Digit(s[i].key, shift);
            BucketStart(s, shift, d) <= Rank(s, shift, i) < BucketStart(s, shift, d) + Count(s, HasDigit(shift, d))
  {
    var p := HasDigit<V>(shift, Digit(s[i].key, shift));
    assert s[..|s|] == s;
    CountMono(s, i, |s|, p);
  }

  /** Every slot of the distribution is the rank of an item. */
  lemma RankOnto<V>(s: seq<Item<V>>, shift: nat, q: nat) returns (i: nat)
    requires q < |s|
    ensures i < |s| && Rank(s, shift, i) == q
  {
    PassLength(s, shift);
    var d, k := BucketOf(s, shift, BUCKETS, q);
    i := FilterIndex(s, HasDigit(shift, d), k);
  }

  // ------------------------------------------------- a pass extends a stable sort by one digit

  lemma {:induction false} BucketsFilterNone<V>(s: seq<Item<V>>, shift: nat, n: nat, d: nat)
    requires n <= d
    ensures Filter(Buckets(s, shift, n), HasDigit(shift, d)) == []
  {
    hide Filter, HasDigit, Digit;
    FilterNone<Item<V>>([], HasDigit(shift, d));
    if n != 0 {
      BucketsFilterNone(s, shift, n - 1, d);
      FilterAppend(Buckets(s, shift, n - 1), Filter(s, HasDigit(shift, n - 1)), HasDigit(shift, d));
      OneDigit(s, shift, n - 1, d);
    }
  }

  lemma {:induction false} BucketsFilter<V>(s: seq<Item<V>>, shift: nat, n: nat, d: nat)
    requires d < n
    ensures Filter(Buckets(s, shift, n), HasDigit(shift, d)) == Filter(s, HasDigit(shift, d))
  {
    hide Filter, HasDigit, Digit;
    FilterAppend(Buckets(s, shift, n - 1), Filter(s, HasDigit(shift, n - 1)), HasDigit(shift, d));
    OneDigit(s, shift, n - 1, d);
    if d < n - 1 {
      BucketsFilter(s, shift, n - 1, d);
    } else {
      BucketsFilterNone(s, shift, n - 1, d);
    }
  }

  lemma OneDigit<V>(s: seq<Item<V>>, shift: nat, c: nat, d: nat)
    ensures Filter(Filter(s, HasDigit(shift, c)), HasDigit(shift, d)) ==
      if c == d then Filter(s, HasDigit(shift, c)) else []
  {
    var f := Filter(s, HasDigit(shift, c));
    FilterHolds(s, HasDigit(shift, c));
    if c == d { FilterAll(f, HasDigit(shift, d)); } else { FilterNone(f, HasDigit(shift, d)); }
  }

  lemma PassFilter<V>(s: seq<Item<V>>, shift: nat, d: nat)
    ensures Filter(Pass(s, shift), HasDigit(shift, d)) == Filter(s, HasDigit(shift, d))
  {
    if d < BUCKETS {
      BucketsFilter(s, shift, BUCKETS, d);
    } else {
      BucketsFilterNone(s, shift, BUCKETS, d);
      FilterNone(s, HasDigit(shift, d));
    }
  }

  lemma {:induction false} FilterSorted<V>(s: seq<Item<V>>, p: Item<V> -> bool, bits: nat)
    requires SortedLow(s, bits)
    ensures SortedLow(Filter(s, p), bits)
  {
    if s != [] {
      var m := |s| - 1;
      FilterSorted(s[..m], p, bits);
      forall i | 0 <= i < |Filter(s[..m], p)| ensures Low(Filter(s[..m], p)[i].key, bits) <= Low(s[m].key, bits) {
        var j := FilterIndex(s[..m], p, i);
      }
    }
  }

  lemma PassSorted<V>(s: seq<Item<V>>, shift: nat)
    requires SortedLow(s, shift)
    ensures SortedLow(Pass(s, shift), shift + BITS)
  {
    var r := Pass(s, shift);
    forall i, j | 0 <= i < j < |r| ensures Low(r[i].key, shift + BITS) <= Low(r[j].key, shift + BITS) {
      PassOrder(s, shift, i, j);
    }
  }

  lemma PassOrder<V>(s: seq<Item<V>>, shift: nat, i: nat, j: nat)
    requires SortedLow(s, shift) && i < j < |Pass(s, shift)|
    ensures Low(Pass(s, shift)[i].key, shift + BITS) <= Low(Pass(s, shift)[j].key, shift + BITS)
  {
    hide Filter;
    var d, k := BucketOf(s, shift, BUCKETS, i);
    var e, l := BucketOf(s, shift, BUCKETS, j);
    if e < d { BucketsApart(s, shift, e, d); }
    BucketAt(s, shift, BUCKETS, d, k);
    BucketAt(s, shift, BUCKETS, e, l);
    FilterHolds(s, HasDigit(shift, d));
    FilterHolds(s, HasDigit(shift, e));
    FilterSorted(s, HasDigit(shift, d), shift);
    LowOrder(Pass(s, shift)[i].key, Pass(s, shift)[j].key, shift);
  }

  /** A longer suffix of the key equals `v` just when its digit and its shorter suffix do. */
  lemma LowIsDigit<V>(x: Item<V>, shift: nat, v: nat, d: nat, l: nat)
    requires v == d * Pow2(shift) + l && l < Pow2(shift)
    ensures LowIs<V>(shift + BITS, v)(x) <==> HasDigit<V>(shift, d)(x) && LowIs<V>(shift, l)(x)
  {
    DigitStep(x.key, shift);
    SameDigits(Digit(x.key, shift), Low(x.key, shift), d, l, Pow2(shift));
  }

  lemma SameDigits(a: nat, b: nat, d: nat, l: nat, m: nat)
    requires b < m && l < m
    ensures a * m + b == d * m + l <==> a == d && b == l
  {
    if a < d {
      MulMono(a + 1, d, m);
      assert (a + 1) * m == a * m + m;
    } else if d < a {
      MulMono(d + 1, a, m);
      assert (d + 1) * m == d * m + m;
    }
  }

  lemma FilterByDigit<V>(s: seq<Item<V>>, shift: nat, v: nat, d: nat, l: nat)
    requires v == d * Pow2(shift) + l && l < Pow2(shift)
    ensures Filter(s, LowIs(shift + BITS, v)) == Filter(Filter(s, HasDigit(shift, d)), LowIs(shift, l))
  {
    var p, q := HasDigit<V>(shift, d), LowIs<V>(shift, l);
    forall i | 0 <= i < |s| ensures LowIs<V>(shift + BITS, v)(s[i]) == And(p, q)(s[i]) {
      LowIsDigit(s[i], shift, v, d, l);
    }
    FilterExt(s, LowIs(shift + BITS, v), And(p, q));
    FilterFilter(s, p, q);
  }

  lemma PassKeepsOrder<V>(r: seq<Item<V>>, s: seq<Item<V>>, shift: nat, v: nat, d: nat, l: nat)
    requires StableSortOfLow(r, s, shift)
    requires v == d * Pow2(shift) + l && l < Pow2(shift)
    ensures Filter(Pass(r, shift), LowIs(shift + BITS, v)) == Filter(s, LowIs(shift + BITS, v))
  {
    assert Filter(r, LowIs(shift, l)) == Filter(s, LowIs(shift, l));
    FilterByDigit(Pass(r, shift), shift, v, d, l);
    PassFilter(r, shift, d);
    FilterCommutes(r, HasDigit(shift, d), LowIs(shift, l));
    FilterCommutes(s, LowIs(shift, l), HasDigit(shift, d));
    FilterByDigit(s, shift, v, d, l);
  }

  lemma SplitAt(v: nat, m: nat) returns (d: nat, l: nat)
    requires 0 < m
    ensures v == d * m + l && l < m
  {
    d, l := v / m, v % m;
  }

  /** The step of the radix sort: stable by the low `shift` bits becomes stable by `BITS` more. */
  lemma PassStable<V>(r: seq<Item<V>>, s: seq<Item<V>>, shift: nat)
    requires StableSortOfLow(r, s, shift)
    ensures StableSortOfLow(Pass(r, shift), s, shift + BITS)
  {
    PassSorted(r, shift);
    var bits, t := shift + BITS, Pass(r, shift);
    forall v: nat ensures Filter(t, LowIs(bits, v)) == Filter(s, LowIs(bits, v)) {
      var d, l := SplitAt(v, Pow2(shift));
      PassKeepsOrder(r, s, shift, v, d, l);
    }
  }

  /** `n` passes over ascending digits. */
  function Passes<V>(s: seq<Item<V>>, n: nat): seq<Item<V>> {
    if n == 0 then s else Pass(Passes(s, n - 1), (n - 1) * BITS)
  }

  lemma {:induction false} PassesStable<V>(s: seq<Item<V>>, n: nat)
    ensures StableSortOfLow(Passes(s, n), s, n * BITS)
  {
    if n != 0 {
      PassesStable(s, n - 1);
      PassStable(Passes(s, n - 1), s, (n - 1) * BITS);
    }
  }

  /** Enough passes to cover the key give a stable sort by the whole key. */
  lemma PassesSort<V>(s: seq<Item<V>>, n: nat)
    requires forall i :: 0 <= i < |s| ==> s[i].key < Pow2(n * BITS)
    ensures StableSortOf(Passes(s, n), s)
  {
    PassesStable(s, n);
    PassesFromInput(s, n);
    LowIsKey(Passes(s, n), s, n * BITS);
  }

  lemma LowIsKey<V>(r: seq<Item<V>>, s: seq<Item<V>>, bits: nat)
    requires StableSortOfLow(r, s, bits)
    requires forall i :: 0 <= i < |s| ==> s[i].key < Pow2(bits)
    requires forall i :: 0 <= i < |r| ==> r[i] in s
    ensures StableSortOf(r, s)
  {
    forall i | 0 <= i < |s| ensures Low(s[i].key, bits) == s[i].key {
      ModUnique(s[i].key, Pow2(bits), 0, s[i].key);
    }
    forall i | 0 <= i < |r| ensures Low(r[i].key, bits) == r[i].key < Pow2(bits) {}
    forall k: nat ensures Filter(r, KeyIs(k)) == Filter(s, KeyIs(k)) {
      assert Filter(r, LowIs(bits, k)) == Filter(s, LowIs(bits, k));
      FilterExt(r, LowIs(bits, k), KeyIs(k));
      FilterExt(s, LowIs(bits, k), KeyIs(k));
    }
  }

  lemma {:induction false} PassesFromInput<V>(s: seq<Item<V>>, n: nat)
    ensures |Passes(s, n)| == |s|
    ensures forall i :: 0 <= i < |Passes(s, n)| ==> Passes(s, n)[i] in s
  {
    if n != 0 {
      var r := Passes(s, n - 1);
      PassesFromInput(s, n - 1);
      PassLength(r, (n - 1) * BITS);
      forall q | 0 <= q < |Passes(s, n)| ensures Passes(s, n)[q] in s {
        var i := RankOnto(r, (n - 1) * BITS, q);
        RankIsPlace(r, (n - 1) * BITS, i);
      }
    }
  }
}

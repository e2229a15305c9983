/** Keyed items, the 8-bit digits of their keys, and what a (stable) sort by key is. */
module Digits {
  import opened Seqs
  import opened Cuts

  /** An array element as the sorts see it: its conversion to an unsigned key, and everything else it carries. */
  datatype Item<+V> = Item(key: nat, val: V)

  const BITS: nat := 8
  const BUCKETS: nat := 256

  function Pow2(n: nat): (r: nat)
    ensures 0 < r
  {
    if n == 0 then 1 else 2 * Pow2(n - 1)
  }

  /** `key >> shift` */
  function ShiftRight(key: nat, shift: nat): nat {
    if shift == 0 then key else ShiftRight(key / 2, shift - 1)
  }

  /** The eight bits of the key that start at bit `shift`. */
  function Digit(key: nat, shift: nat): (d: nat)
    ensures d < BUCKETS
  {
    ShiftRight(key, shift) % BUCKETS
  }

  lemma {:induction false} ShiftIsDiv(key: nat, shift: nat)
    ensures ShiftRight(key, shift) == key / Pow2(shift)
  {
    if shift == 0 {
      DivUnique(key, 1, key, 0);
    } else {
      ShiftIsDiv(key / 2, shift - 1);
      HalveThenDiv(key, Pow2(shift - 1));
    }
  }

  lemma HalveThenDiv(key: nat, m: nat)
    requires 0 < m
    ensures key / 2 / m == key / (2 * m)
  {
    DivMod(key / 2, m);
    var q, r := key / 2 / m, key / 2 % m;
    assert q * (2 * m) == 2 * (q * m);
    DivUnique(key, 2 * m, q, 2 * r + key % 2);
  }

  /** The low `bits` bits of a key. */
  function Low(key: nat, bits: nat): nat {
    key % Pow2(bits)
  }

  lemma Pow2Digit(shift: nat)
    ensures Pow2(shift + BITS) == BUCKETS * Pow2(shift)
  {
    assert Pow2(shift + 8) == 2 * Pow2(shift + 7) == 4 * Pow2(shift + 6);
    assert Pow2(shift + 6) == 2 * Pow2(shift + 5) == 4 * Pow2(shift + 4);
    assert Pow2(shift + 4) == 2 * Pow2(shift + 3) == 4 * Pow2(shift + 2);
    assert Pow2(shift + 2) == 2 * Pow2(shift + 1) == 4 * Pow2(shift);
  }

  lemma ModUnique(a: nat, d: nat, q: nat, r: nat)
    requires 0 < d && a == q * d + r && r < d
    ensures a / d == q && a % d == r
  {
    DivUnique(a, d, q, r);
    assert a == (a / d) * d + a % d;
  }

  lemma Distribute(a: nat, b: nat, c: nat, m: nat)
    ensures (a * b + c) * m == a * (b * m) + c * m
  {
    assert (a * b) * m == a * (b * m);
  }

  lemma Regroup(key: nat, n: nat, m: nat, q: nat, r: nat, h: nat, d: nat)
    requires key == q * m + r && r < m && q == h * n + d && d < n
    ensures key == h * (n * m) + (d * m + r) && d * m + r < n * m
  {
    Distribute(h, n, d, m);
    MulMono(d + 1, n, m);
    assert (d + 1) * m == d * m + m;
  }

  lemma DivMod(a: nat, d: nat)
    requires 0 < d
    ensures a == (a / d) * d + a % d && a % d < d
  {}

  /** Splitting a number at a unit `m` and at the `n` times larger unit. */
  lemma SplitDigit(key: nat, n: nat, m: nat)
    requires 0 < n && 0 < m
    ensures 0 < n * m
    ensures key % (n * m) == (key / m % n) * m + key % m
    ensures key / m == key / (n * m) * n + key / m % n
  {
    DivMod(key, m);
    var q, r := key / m, key % m;
    DivMod(q, n);
    var h, d := q / n, q % n;
    Regroup(key, n, m, q, r, h, d);
    ModUnique(key, n * m, h, d * m + r);
  }

  /** A digit and the bits below it make up the next longer suffix of the key; the bits above it, the rest. */
  lemma DigitStep(key: nat, shift: nat)
    ensures Low(key, shift + BITS) == Digit(key, shift) * Pow2(shift) + Low(key, shift)
    ensures Low(key, shift) < Pow2(shift)
    ensures key / Pow2(shift) == key / Pow2(shift + BITS) * BUCKETS + Digit(key, shift)
  {
    Pow2Digit(shift);
    ShiftIsDiv(key, shift);
    SplitDigit(key, BUCKETS, Pow2(shift));
  }

  lemma LexOrder(a: nat, b: nat, c: nat, d: nat, m: nat)
    requires b < m && d < m && (a < c || (a == c && b <= d))
    ensures a * m + b <= c * m + d
  {
    if a < c {
      MulMono(a + 1, c, m);
      assert (a + 1) * m == a * m + m;
    }
  }

  lemma LowOrder(x: nat, y: nat, shift: nat)
    requires Digit(x, shift) < Digit(y, shift)
          || (Digit(x, shift) == Digit(y, shift) && Low(x, shift) <= Low(y, shift))
    ensures Low(x, shift + BITS) <= Low(y, shift + BITS)
  {
    DigitStep(x, shift);
    DigitStep(y, shift);
    LexOrder(Digit(x, shift), Low(x, shift), Digit(y, shift), Low(y, shift), Pow2(shift));
  }

  function HasDigit<V>(shift: nat, d: nat): Item<V> -> bool {
    (x: Item<V>) => Digit(x.key, shift) == d
  }

  function LowIs<V>(bits: nat, v: nat): Item<V> -> bool {
    (x: Item<V>) => Low(x.key, bits) == v
  }

  function KeyIs<V>(k: nat): Item<V> -> bool {
    (x: Item<V>) => x.key == k
  }

  ghost predicate SortedByKey<V>(s: seq<Item<V>>) {
    forall i, j :: 0 <= i < j < |s| ==> s[i].key <= s[j].key
  }

  ghost predicate SortedLow<V>(s: seq<Item<V>>, bits: nat) {
    forall i, j :: 0 <= i < j < |s| ==> Low(s[i].key, bits) <= Low(s[j].key, bits)
  }

  /** `r` is sorted, and the items of any one key come in the order they have in `s`. */
  ghost predicate StableSortOf<V>(r: seq<Item<V>>, s: seq<Item<V>>) {
    && SortedByKey(r)
    && forall k: nat :: Filter(r, KeyIs(k)) == Filter(s, KeyIs(k))
  }

  ghost predicate StableSortOfLow<V>(r: seq<Item<V>>, s: seq<Item<V>>, bits: nat) {
    && SortedLow(r, bits)
    && forall v: nat :: Filter(r, LowIs(bits, v)) == Filter(s, LowIs(bits, v))
  }

  lemma StableIsPerm<V(!new)>(r: seq<Item<V>>, s: seq<Item<V>>)
    requires StableSortOf(r, s)
    ensures multiset(r) == multiset(s)
  {
    var f, g := multiset(r), multiset(s);
    forall x: Item<V> ensures f[x] == g[x] {
      FilterMultiplicity(r, KeyIs(x.key), x);
      FilterMultiplicity(s, KeyIs(x.key), x);
    }
    assert f == g;
  }

  /** A stable sort is determined by its input. */
  lemma {:induction false} StableUnique<V(!new)>(q: seq<Item<V>>, r: seq<Item<V>>)
    requires SortedByKey(q) && StableSortOf(r, q)
    ensures q == r
    decreases |q|
  {
    StableIsPerm(r, q);
    assert |multiset(q)| == |q| && |multiset(r)| == |r|;
    if q != [] {
      var m := |q| - 1;
      SameLast(q, r);
      forall k: nat ensures Filter(r[..m], KeyIs(k)) == Filter(q[..m], KeyIs(k)) {
        assert Filter(r, KeyIs(k)) == Filter(q, KeyIs(k));
        SameTail(Filter(r[..m], KeyIs(k)), Filter(q[..m], KeyIs(k)), if q[m].key == k then [q[m]] else []);
      }
      StableUnique(q[..m], r[..m]);
    }
  }

  lemma SameLast<V(!new)>(q: seq<Item<V>>, r: seq<Item<V>>)
    requires SortedByKey(q) && StableSortOf(r, q) && multiset(q) == multiset(r) && |q| == |r| && q != []
    ensures q[|q| - 1] == r[|r| - 1]
  {
    var x, y := q[|q| - 1], r[|r| - 1];
    assert x in multiset(r) && y in multiset(q);
    assert x.key == y.key;
    var f := KeyIs<V>(x.key);
    assert Filter(q, f) == Filter(q[..|q| - 1], f) + [x];
    assert Filter(r, f) == Filter(r[..|r| - 1], f) + [y];
    assert Filter(r, f) == Filter(q, f);
    assert x == Filter(q, f)[|Filter(q, f)| - 1] == y;
  }

  lemma SameTail<T>(a: seq<T>, b: seq<T>, t: seq<T>)
    requires a + t == b + t
    ensures a == b
  {
    assert |a| == |b|;
    assert a == (a + t)[..|a|] && b == (b + t)[..|b|];
  }
}

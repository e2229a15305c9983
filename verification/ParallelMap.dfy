/** The map and the set that are built by one parallel sort and searched by bisection. */
module ParallelMap {
  import opened Digits
  import opened ParallelRadixSort
  import opened Seqs
  import opened Tasks

  const BLOCK_SIZE: nat := 8192

  datatype Option<+T> = None | Some(value: T)

  // ------------------------------------------------------------ searching

  /** `std::lower_bound`: the first position whose key is not below `key`. */
  ghost predicate LowerBoundAt<V>(s: seq<Item<V>>, key: nat, i: nat) {
    && i <= |s|
    && (forall j :: 0 <= j < i ==> s[j].key < key)
    && (forall j :: i <= j < |s| ==> key <= s[j].key)
  }

  method LowerBound<V>(a: array<Item<V>>, key: nat) returns (i: nat)
    requires SortedByKey(a[..])
    ensures LowerBoundAt(a[..], key, i)
  {
    var hi := a.Length;
    i := 0;
    while i < hi
      invariant i <= hi <= a.Length
      invariant forall j :: 0 <= j < i ==> a[j].key < key
      invariant forall j :: hi <= j < a.Length ==> key <= a[j].key
    {
      var mid := (i + hi) / 2;
      assert forall j :: 0 <= j < mid ==> a[..][j].key <= a[..][mid].key;
      assert forall j :: mid < j < a.Length ==> a[..][mid].key <= a[..][j].key;
      if a[mid].key < key { i := mid + 1; } else { hi := mid; }
    }
  }

  /** The first of the pairs with the key: what a search from the front finds. */
  function LinearSearch<V>(pairs: seq<Item<V>>, key: nat): (r: Option<V>)
    ensures r.Some? ==> Item(key, r.value) in pairs
    ensures r.None? ==> forall i :: 0 <= i < |pairs| ==> pairs[i].key != key
  {
    if pairs == [] then None
    else if pairs[0].key == key then Some(pairs[0].val)
    else LinearSearch(pairs[1..], key)
  }

  /** It finds the value of the first pair with the key, whatever comes behind it. */
  lemma {:induction false} SearchFindsFirst<V>(pairs: seq<Item<V>>, key: nat, i: nat)
    requires i < |pairs| && pairs[i].key == key && forall j :: 0 <= j < i ==> pairs[j].key != key
    ensures LinearSearch(pairs, key) == Some(pairs[i].val)
    decreases i
  {
    if 0 < i {
      assert pairs[0].key != key;
      SearchFindsFirst(pairs[1..], key, i - 1);
    }
  }

  lemma {:induction false} SearchIsFirst<V>(pairs: seq<Item<V>>, key: nat)
    ensures var f := Filter(pairs, KeyIs(key)); LinearSearch(pairs, key) == if f == [] then None else Some(f[0].val)
  {
    if pairs != [] {
      SearchIsFirst(pairs[1..], key);
      FilterAppend([pairs[0]], pairs[1..], KeyIs(key));
      assert pairs == [pairs[0]] + pairs[1..];
      FilterOne(pairs[0], key);
      hide Filter;
    }
  }

  lemma FilterOne<V>(x: Item<V>, key: nat)
    ensures Filter([x], KeyIs(key)) == if x.key == key then [x] else []
  {
    assert [x][..0] == [];
  }

  lemma FirstFiltered<V>(s: seq<Item<V>>, key: nat, i: nat)
    requires i < |s| && s[i].key == key && forall j :: 0 <= j < i ==> s[j].key != key
    ensures Filter(s, KeyIs(key)) != [] && Filter(s, KeyIs(key))[0] == s[i]
  {
    FilterNone(s[..i], KeyIs(key));
    FilterSnoc(s, i, KeyIs(key));
    FilterSplit(s, i + 1, KeyIs(key));
    hide Filter;
  }

  /** All pairs with the key are the same. */
  ghost predicate OneValue<V>(pairs: seq<Item<V>>, key: nat) {
    forall i, j :: 0 <= i < |pairs| && 0 <= j < |pairs| && pairs[i].key == key && pairs[j].key == key ==>
      pairs[i] == pairs[j]
  }

  /** What `lookup` returns for the sorted vector `s`. */
  ghost predicate IsLookup<V>(s: seq<Item<V>>, key: nat, r: Option<V>) {
    exists i: nat :: LowerBoundAt(s, key, i) && r == if i < |s| && s[i].key == key then Some(s[i].val) else None
  }

  lemma InBoth<V>(s: seq<Item<V>>, t: seq<Item<V>>, i: nat) returns (k: nat)
    requires multiset(s) == multiset(t) && i < |s|
    ensures k < |t| && t[k] == s[i]
  {
    assert s[i] in multiset(t);
    k :| 0 <= k < |t| && t[k] == s[i];
  }

  /** The key at the lower bound is the one looked for, or nobody has it. */
  lemma BoundIsEnough<V>(s: seq<Item<V>>, key: nat, i: nat, m: nat)
    requires SortedByKey(s) && LowerBoundAt(s, key, i) && m < |s| && s[m].key == key
    ensures i < |s| && s[i].key == key
  {}

  /** A search in the sorted vector finds a key exactly when the pairs have it, and then a value paired with it. */
  lemma LookupFinds<V>(s: seq<Item<V>>, pairs: seq<Item<V>>, key: nat, r: Option<V>)
    requires SortedByKey(s) && multiset(s) == multiset(pairs) && IsLookup(s, key, r)
    ensures r.Some? <==> LinearSearch(pairs, key).Some?
    ensures r.Some? ==> Item(key, r.value) in pairs
    ensures OneValue(pairs, key) ==> r == LinearSearch(pairs, key)
  {
    hide LinearSearch, SortedByKey, LowerBoundAt;
    var i: nat :| LowerBoundAt(s, key, i) && r == if i < |s| && s[i].key == key then Some(s[i].val) else None;
    if r.Some? {
      var k := InBoth(s, pairs, i);
    }
    if LinearSearch(pairs, key).Some? {
      var k :| 0 <= k < |pairs| && pairs[k] == Item(key, LinearSearch(pairs, key).value);
      var m := InBoth(pairs, s, k);
      BoundIsEnough(s, key, i, m);
    }
  }

  /** After a stable sort the search finds what a search from the front of the pairs finds. */
  lemma StableLookup<V(!new)>(s: seq<Item<V>>, pairs: seq<Item<V>>, key: nat, r: Option<V>)
    requires StableSortOf(s, pairs) && IsLookup(s, key, r)
    ensures r == LinearSearch(pairs, key)
  {
    hide LinearSearch, Filter;
    StableIsPerm(s, pairs);
    LookupFinds(s, pairs, key, r);
    SearchIsFirst(pairs, key);
    if r.Some? {
      var i: nat :| LowerBoundAt(s, key, i) && r == if i < |s| && s[i].key == key then Some(s[i].val) else None;
      FirstFiltered(s, key, i);
    }
  }

  /** `x` put into a sorted sequence, in front of all items with its key. */
  function PutFirst<V>(x: Item<V>, s: seq<Item<V>>): (r: seq<Item<V>>)
    ensures multiset(r) == multiset(s) + multiset{x}
  {
    if s == [] || x.key <= s[0].key then
      [x] + s
    else
      assert s == [s[0]] + s[1..];
      [s[0]] + PutFirst(x, s[1..])
  }

  function Sorted<V>(s: seq<Item<V>>): (r: seq<Item<V>>)
    ensures multiset(r) == multiset(s)
  {
    if s == [] then [] else
      assert s == [s[0]] + s[1..];
      PutFirst(s[0], Sorted(s[1..]))
  }

  lemma {:induction false} PutFirstSorted<V>(x: Item<V>, s: seq<Item<V>>) returns (i: nat)
    requires SortedByKey(s)
    ensures SortedByKey(PutFirst(x, s))
    ensures i < |PutFirst(x, s)| && PutFirst(x, s)[i] == x && LowerBoundAt(PutFirst(x, s), x.key, i)
  {
    if s == [] || x.key <= s[0].key {
      i := 0;
    } else {
      hide SortedByKey, LowerBoundAt;
      TailSorted(s);
      var j := PutFirstSorted(x, s[1..]);
      BelowAll(s[0], x, s[1..], PutFirst(x, s[1..]));
      BelowFirst(s[0], PutFirst(x, s[1..]), x.key, j);
      i := j + 1;
    }
  }

  lemma TailSorted<V>(s: seq<Item<V>>)
    requires SortedByKey(s) && s != []
    ensures SortedByKey(s[1..]) && forall j :: 0 <= j < |s[1..]| ==> s[0].key <= s[1..][j].key
  {}

  lemma BelowAll<V>(y: Item<V>, x: Item<V>, s: seq<Item<V>>, r: seq<Item<V>>)
    requires multiset(r) == multiset(s) + multiset{x} && y.key < x.key
    requires forall j :: 0 <= j < |s| ==> y.key <= s[j].key
    ensures forall j :: 0 <= j < |r| ==> y.key <= r[j].key
  {
    forall j | 0 <= j < |r| ensures y.key <= r[j].key {
      assert r[j] in multiset(s) + multiset{x};
    }
  }

  lemma BelowFirst<V>(y: Item<V>, r: seq<Item<V>>, key: nat, i: nat)
    requires SortedByKey(r) && LowerBoundAt(r, key, i) && y.key < key && forall j :: 0 <= j < |r| ==> y.key <= r[j].key
    ensures SortedByKey([y] + r) && LowerBoundAt([y] + r, key, i + 1)
  {}

  lemma {:induction false} SortedIsSorted<V>(s: seq<Item<V>>)
    ensures SortedByKey(Sorted(s))
  {
    if s != [] {
      SortedIsSorted(s[1..]);
      var i := PutFirstSorted(s[0], Sorted(s[1..]));
    }
  }

  /** Any of the pairs with a key may end up in front of the others. */
  lemma AnyMayBeFirst<V>(pairs: seq<Item<V>>, k: nat) returns (s: seq<Item<V>>)
    requires k < |pairs|
    ensures SortedByKey(s) && multiset(s) == multiset(pairs) && IsLookup(s, pairs[k].key, Some(pairs[k].val))
  {
    var rest := pairs[..k] + pairs[k + 1..];
    assert pairs == pairs[..k] + [pairs[k]] + pairs[k + 1..];
    SortedIsSorted(rest);
    var i := PutFirstSorted(pairs[k], Sorted(rest));
    s := PutFirst(pairs[k], Sorted(rest));
  }

  /** Whatever order a sort leaves equal keys in, the search finds what a search from the front finds. */
  ghost predicate AnySortAgrees<V(!new)>(pairs: seq<Item<V>>, key: nat) {
    forall s, r :: SortedByKey(s) && multiset(s) == multiset(pairs) && IsLookup(s, key, r) ==>
      r == LinearSearch(pairs, key)
  }

  /** A sort that need not be stable is good enough for a key exactly if all pairs with this key are the same. */
  lemma UnstableLookup<V(!new)>(pairs: seq<Item<V>>, key: nat)
    ensures AnySortAgrees(pairs, key) <==> OneValue(pairs, key)
  {
    hide LinearSearch, IsLookup, SortedByKey;
    if OneValue(pairs, key) {
      forall s, r | SortedByKey(s) && multiset(s) == multiset(pairs) && IsLookup(s, key, r)
        ensures r == LinearSearch(pairs, key)
      {
        LookupFinds(s, pairs, key, r);
      }
    }
    if AnySortAgrees(pairs, key) {
      forall i, j | 0 <= i < |pairs| && 0 <= j < |pairs| && pairs[i].key == key && pairs[j].key == key
        ensures pairs[i] == pairs[j]
      {
        var s := AnyMayBeFirst(pairs, i);
        var t := AnyMayBeFirst(pairs, j);
        assert Some(pairs[i].val) == LinearSearch(pairs, key) == Some(pairs[j].val);
      }
    }
  }

  /** An input on which the order matters: two values with one key. */
  lemma SecondValueFound(key: nat)
    ensures var pairs, s := [Item(key, 1), Item(key, 2)], [Item(key, 2), Item(key, 1)];
      && SortedByKey(s) && multiset(s) == multiset(pairs)
      && IsLookup(s, key, Some(2)) && LinearSearch(pairs, key) == Some(1)
  {
    assert LowerBoundAt([Item(key, 2), Item(key, 1)], key, 0);
  }

  // ------------------------------------------------------------ the map

  class ParallelMap<V(!new, 0)> {
    var vec: array<Item<V>>
    /** What the map was built from. */
    ghost var pairs: seq<Item<V>>

    ghost predicate Valid()
      reads this, vec
    {
      && SortedByKey(vec[..]) && multiset(vec[..]) == multiset(pairs)
      && (BLOCK_SIZE < |pairs| ==> StableSortOf(vec[..], pairs))
    }

    constructor ()
      ensures Valid() && pairs == []
    {
      vec := new Item<V>[0];
      pairs := [];
    }

    /** Fills the vector from keys and values, in any order, and sorts it. */
    method Init(keys: seq<nat>, values: seq<V>, threadCount: nat, keyBytes: nat)
      requires |keys| == |values| && 0 < threadCount && (keyBytes == 4 || keyBytes == 8)
      requires forall i :: 0 <= i < |keys| ==> keys[i] < Pow2(keyBytes * BITS)
      modifies this
      ensures Valid() && fresh(vec)
      ensures pairs == seq(|keys|, i requires 0 <= i < |keys| => Item(keys[i], values[i]))
    {
      hide SortedByKey, StableSortOf, Pow2;
      vec := new Item<V>[|keys|];
      var todo := AllTasks(|keys|);
      while todo != {}
        invariant fresh(vec) && vec.Length == |keys| && todo <= AllTasks(|keys|)
        invariant forall i: nat :: i < |keys| && i !in todo ==> vec[i] == Item(keys[i], values[i])
        decreases todo
      {
        var i: nat :| i in todo;
        vec[i] := Item(keys[i], values[i]);
        todo := todo - {i};
      }
      pairs := vec[..];
      var temp := new Item<V>[|keys|];
      var sorter := new Sorter(vec, temp);
      sorter.Sort(BLOCK_SIZE, threadCount, keyBytes);
    }

    /**
     * The value of the key: the first one in the order of the pairs if there are many pairs, or only one value for
     * it.
     */
    method Lookup(key: nat) returns (r: Option<V>)
      requires Valid()
      ensures r.Some? <==> LinearSearch(pairs, key).Some?
      ensures r.Some? ==> Item(key, r.value) in pairs
      ensures BLOCK_SIZE < |pairs| || OneValue(pairs, key) ==> r == LinearSearch(pairs, key)
    {
      hide SortedByKey, StableSortOf, OneValue, LinearSearch, LowerBoundAt;
      var i := LowerBound(vec, key);
      if i == vec.Length {
        r := None;
      } else if vec[i].key != key {
        r := None;
      } else {
        r := Some(vec[i].val);
      }
      assert i <= |vec[..]| by { BoundInside(vec[..], key, i); }
      assert IsLookup(vec[..], key, r);
      LookupFinds(vec[..], pairs, key, r);
      if BLOCK_SIZE < |pairs| { StableLookup(vec[..], pairs, key, r); }
    }

    method LookupDefault(key: nat, def: V) returns (v: V)
      requires Valid()
      ensures LinearSearch(pairs, key).None? ==> v == def
      ensures LinearSearch(pairs, key).Some? ==> Item(key, v) in pairs
      ensures BLOCK_SIZE < |pairs| || OneValue(pairs, key) ==>
        v == match LinearSearch(pairs, key) case None => def case Some(first) => first
    {
      hide SortedByKey, StableSortOf, OneValue, LinearSearch;
      var r := Lookup(key);
      v := if r.Some? then r.value else def;
    }

    method Clear()
      modifies this
      ensures Valid() && pairs == []
    {
      vec := new Item<V>[0];
      pairs := [];
    }
  }

  lemma BoundInside<V>(s: seq<Item<V>>, key: nat, i: nat)
    requires LowerBoundAt(s, key, i)
    ensures i <= |s|
  {}

  // ------------------------------------------------------------ the set

  class ParallelSet {
    var vec: array<Item<()>>
    /** What the set was built from. */
    ghost var input: seq<nat>

    ghost predicate Valid()
      reads this, vec
    {
      SortedByKey(vec[..]) && multiset(vec[..]) == multiset(Items(input))
    }

    constructor ()
      ensures Valid() && input == []
    {
      vec := new Item<()>[0];
      input := [];
    }

    method Init(elements: seq<nat>, threadCount: nat, keyBytes: nat)
      requires 0 < threadCount && (keyBytes == 4 || keyBytes == 8)
      requires forall i :: 0 <= i < |elements| ==> elements[i] < Pow2(keyBytes * BITS)
      modifies this
      ensures Valid() && fresh(vec) && input == elements
    {
      hide SortedByKey, StableSortOf, Pow2;
      vec := new Item<()>[|elements|];
      var todo := AllTasks(|elements|);
      while todo != {}
        invariant fresh(vec) && vec.Length == |elements| && todo <= AllTasks(|elements|)
        invariant forall i: nat :: i < |elements| && i !in todo ==> vec[i] == Item(elements[i], ())
        decreases todo
      {
        var i: nat :| i in todo;
        vec[i] := Item(elements[i], ());
        todo := todo - {i};
      }
      input := elements;
      assert vec[..] == Items(input);
      var temp := new Item<()>[|elements|];
      var sorter := new Sorter(vec, temp);
      sorter.Sort(BLOCK_SIZE, threadCount, keyBytes);
    }

    /** `std::binary_search` */
    method Lookup(element: nat) returns (found: bool)
      requires Valid()
      ensures found <==> element in input
    {
      var i := LowerBound(vec, element);
      found := i < vec.Length && vec[i].key == element;
      SetMember(vec[..], input, element, i);
    }

    method Clear()
      modifies this
      ensures Valid() && input == []
    {
      vec := new Item<()>[0];
      input := [];
    }
  }

  function Items(elements: seq<nat>): (r: seq<Item<()>>)
    ensures |r| == |elements|
  {
    seq(|elements|, i requires 0 <= i < |elements| => Item(elements[i], ()))
  }

  lemma SetMember(s: seq<Item<()>>, input: seq<nat>, element: nat, i: nat)
    requires SortedByKey(s) && multiset(s) == multiset(Items(input)) && LowerBoundAt(s, element, i)
    ensures (i < |s| && s[i].key == element) <==> element in input
  {
    if i < |s| && s[i].key == element {
      var k := InBoth(s, Items(input), i);
    }
    if element in input {
      var k :| 0 <= k < |input| && input[k] == element;
      assert Items(input)[k] == Item(element, ());
      var m := InBoth(Items(input), s, k);
      BoundIsEnough(s, element, i, m);
    }
  }
}

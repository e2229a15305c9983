/** Arrays of arrays as one flat index space. */
module JaggedArrays {
  import opened Seqs

  /** Number of elements in the first `i` arrays. */
  function Prefix(sizes: seq<nat>, i: nat): nat
    requires i <= |sizes|
  {
    if i == 0 then 0 else Prefix(sizes, i - 1) + sizes[i - 1]
  }

  function Total(sizes: seq<nat>): nat {
    Prefix(sizes, |sizes|)
  }

  lemma {:induction false} PrefixMono(sizes: seq<nat>, i: nat, j: nat)
    requires i <= j <= |sizes|
    ensures Prefix(sizes, i) <= Prefix(sizes, j)
    ensures i < j ==> Prefix(sizes, i) + sizes[i] <= Prefix(sizes, j)
  {
    if i < j { PrefixMono(sizes, i, j - 1); }
  }

  /** All elements, array after array: array and index. */
  function Elements(sizes: seq<nat>, n: nat): (r: seq<(nat, nat)>)
    requires n <= |sizes|
    ensures |r| == Prefix(sizes, n)
  {
    if n == 0 then [] else Elements(sizes, n - 1) + seq(sizes[n - 1], j requires 0 <= j < sizes[n - 1] => (n - 1, j))
  }

  function AllElements(sizes: seq<nat>): (r: seq<(nat, nat)>)
    ensures |r| == Total(sizes)
  {
    Elements(sizes, |sizes|)
  }

  /** Element `(i, j)` has flat index `Prefix(i) + j`. */
  lemma {:induction false} ElementAt(sizes: seq<nat>, n: nat, i: nat, j: nat)
    requires i < n <= |sizes| && j < sizes[i]
    ensures Prefix(sizes, i) + j < Prefix(sizes, n)
    ensures Elements(sizes, n)[Prefix(sizes, i) + j] == (i, j)
  {
    PrefixMono(sizes, i, n);
    if i < n - 1 {
      ElementAt(sizes, n - 1, i, j);
    }
  }

  /** Every flat index is that of one element. */
  lemma {:induction false} ElementOf(sizes: seq<nat>, n: nat, k: nat) returns (i: nat, j: nat)
    requires n <= |sizes| && k < Prefix(sizes, n)
    ensures i < n && j < sizes[i] && k == Prefix(sizes, i) + j
  {
    if k < Prefix(sizes, n - 1) {
      i, j := ElementOf(sizes, n - 1, k);
    } else {
      i, j := n - 1, k - Prefix(sizes, n - 1);
    }
  }

  /** No element is listed twice. */
  lemma ElementsDistinct(sizes: seq<nat>, k: nat, l: nat)
    requires k < l < Total(sizes)
    ensures AllElements(sizes)[k] != AllElements(sizes)[l]
  {
    var i, j := ElementOf(sizes, |sizes|, k);
    var i', j' := ElementOf(sizes, |sizes|, l);
    ElementAt(sizes, |sizes|, i, j);
    ElementAt(sizes, |sizes|, i', j');
  }

  // ------------------------------------------------------------ calls

  /** One call of `func`: the elements `r0 .. r1 - 1` of array `i`, the first of which has flat index `k`. */
  datatype Call = Call(i: nat, r0: nat, r1: nat, k: nat)

  /** A non-empty range of array `i`, and `k` is the flat index of its first element. */
  ghost predicate ValidCall(sizes: seq<nat>, c: Call) {
    c.i < |sizes| && c.r0 < c.r1 <= sizes[c.i] && c.k == Prefix(sizes, c.i) + c.r0
  }

  function End(c: Call): int {
    c.k + c.r1 - c.r0
  }

  /** The calls cover the flat range `[from, to)` without gap or overlap. */
  ghost predicate Tiles(sizes: seq<nat>, calls: seq<Call>, from: nat, to: nat) {
    if calls == [] then from == to else
      var c := calls[|calls| - 1];
      ValidCall(sizes, c) && to == End(c) && Tiles(sizes, calls[..|calls| - 1], from, c.k)
  }

  /** The elements the calls are given. */
  function Visits(calls: seq<Call>): seq<(nat, nat)>
    requires forall n :: 0 <= n < |calls| ==> calls[n].r0 <= calls[n].r1
  {
    if calls == [] then [] else
      var c := calls[|calls| - 1];
      Visits(calls[..|calls| - 1]) + seq(c.r1 - c.r0, d requires 0 <= d => (c.i, c.r0 + d))
  }

  lemma TilesSnoc(sizes: seq<nat>, calls: seq<Call>, from: nat, to: nat, c: Call)
    requires Tiles(sizes, calls, from, to) && ValidCall(sizes, c) && c.k == to
    ensures Tiles(sizes, calls + [c], from, End(c))
  {
    assert (calls + [c])[..|calls|] == calls;
  }

  lemma {:induction false} TilesCalls(sizes: seq<nat>, calls: seq<Call>, from: nat, to: nat)
    requires Tiles(sizes, calls, from, to)
    ensures from <= to && forall n :: 0 <= n < |calls| ==>
      ValidCall(sizes, calls[n]) && from <= calls[n].k && End(calls[n]) <= to
  {
    if calls != [] {
      var m := |calls| - 1;
      TilesCalls(sizes, calls[..m], from, calls[m].k);
      forall n | 0 <= n < |calls| ensures ValidCall(sizes, calls[n]) && from <= calls[n].k && End(calls[n]) <= to {
        if n < m { assert calls[n] == calls[..m][n]; }
      }
    }
  }

  /** Calls that tile a flat range visit exactly its elements, in order. */
  lemma {:induction false} TilesVisits(sizes: seq<nat>, calls: seq<Call>, from: nat, to: nat)
    requires Tiles(sizes, calls, from, to) && to <= Total(sizes)
    requires forall n :: 0 <= n < |calls| ==> calls[n].r0 <= calls[n].r1
    ensures from <= to && Visits(calls) == AllElements(sizes)[from..to]
  {
    TilesCalls(sizes, calls, from, to);
    if calls != [] {
      var m, c := |calls| - 1, calls[|calls| - 1];
      TilesVisits(sizes, calls[..m], from, c.k);
      TilesCalls(sizes, calls[..m], from, c.k);
      CallVisits(sizes, c);
      SliceJoin(AllElements(sizes), from, c.k, to);
    }
  }

  lemma CallVisits(sizes: seq<nat>, c: Call)
    requires ValidCall(sizes, c) && End(c) <= Total(sizes)
    ensures AllElements(sizes)[c.k..End(c)] == seq(c.r1 - c.r0, d requires 0 <= d => (c.i, c.r0 + d))
  {
    var s := AllElements(sizes)[c.k..End(c)];
    forall d | 0 <= d < c.r1 - c.r0 ensures s[d] == (c.i, c.r0 + d) {
      ElementAt(sizes, |sizes|, c.i, c.r0 + d);
    }
  }

  lemma CallInside(sizes: seq<nat>, c: Call)
    requires ValidCall(sizes, c)
    ensures End(c) <= Total(sizes)
  {
    PrefixMono(sizes, c.i, |sizes|);
  }

  /** Each call starts where the one before it ends. */
  lemma {:induction false} TilesNext(sizes: seq<nat>, calls: seq<Call>, from: nat, to: nat, n: nat)
    requires Tiles(sizes, calls, from, to) && n < |calls|
    ensures calls[n].k == if n == 0 then from else End(calls[n - 1])
    ensures n == |calls| - 1 ==> End(calls[n]) == to
    decreases |calls|
  {
    var m := |calls| - 1;
    if n < m {
      TilesNext(sizes, calls[..m], from, calls[m].k, n);
      assert calls[..m][n] == calls[n];
      if 0 < n { assert calls[..m][n - 1] == calls[n - 1]; }
    } else if 0 < m {
      TilesNext(sizes, calls[..m], from, calls[m].k, m - 1);
    }
  }

  lemma {:induction false} TilesPrefix(sizes: seq<nat>, calls: seq<Call>, from: nat, to: nat, n: nat)
    requires Tiles(sizes, calls, from, to) && n < |calls|
    ensures Tiles(sizes, calls[..n], from, calls[n].k) && ValidCall(sizes, calls[n])
    decreases |calls|
  {
    var m := |calls| - 1;
    if n < m {
      TilesPrefix(sizes, calls[..m], from, calls[m].k, n);
      assert calls[..m][..n] == calls[..n] && calls[..m][n] == calls[n];
    }
  }
}

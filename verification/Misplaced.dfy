/** Items on the wrong side of the partition point: where they are, and exchanging them pair by pair. */
module Misplaced {
  import opened Interleavings
  import opened Rearranging
  import opened Seqs

  /** `range<ssize_t>` */
  datatype Range = Range(begin: int, end: int) {
    function Size(): int { end - begin }

    predicate Empty() { end <= begin }

    function Intersect(r: Range): Range {
      Range(if begin < r.begin then r.begin else begin, if end < r.end then end else r.end)
    }
  }

  type Ranges = rs: seq<Range> | forall i :: 0 <= i < |rs| ==> 0 < rs[i].Size()

  /** The indices of a range. */
  function Interval(lo: int, hi: int): (r: seq<int>)
    ensures |r| == if lo <= hi then hi - lo else 0
    ensures forall k :: 0 <= k < |r| ==> r[k] == lo + k
    decreases hi - lo
  {
    if hi <= lo then [] else Interval(lo, hi - 1) + [hi - 1]
  }

  /** The indices of all ranges, one range after the other. */
  function Flatten(rs: Ranges): seq<int> {
    if rs == [] then [] else Flatten(rs[..|rs| - 1]) + Interval(rs[|rs| - 1].begin, rs[|rs| - 1].end)
  }

  lemma FlattenSnoc(rs: Ranges, i: nat)
    requires i < |rs|
    ensures Flatten(rs[..i + 1]) == Flatten(rs[..i]) + Interval(rs[i].begin, rs[i].end)
    ensures |Flatten(rs[..i + 1])| == |Flatten(rs[..i])| + rs[i].Size()
  {
    assert rs[..i + 1][..i] == rs[..i];
  }

  lemma {:induction false} FlattenPrefix(rs: Ranges, i: nat, j: nat)
    requires i <= j <= |rs|
    ensures Flatten(rs[..i]) <= Flatten(rs[..j])
  {
    if i < j {
      FlattenPrefix(rs, i, j - 1);
      FlattenSnoc(rs, j - 1);
    }
  }

  /** A pointer into the ranges: `left` items of range `i` from item `k` of all on, the first of them at `at`. */
  ghost predicate CursorAt(rs: Ranges, k: nat, i: nat, at: int, left: int) {
    && i < |rs| && 0 <= left <= rs[i].Size() && at == rs[i].end - left
    && k + left == |Flatten(rs[..i + 1])|
  }

  lemma CursorIndex(rs: Ranges, k: nat, i: nat, at: int, left: int)
    requires CursorAt(rs, k, i, at, left) && 0 < left
    ensures k < |Flatten(rs)| && Flatten(rs)[k] == at
    ensures CursorAt(rs, k + 1, i, at + 1, left - 1)
  {
    FlattenSnoc(rs, i);
    FlattenPrefix(rs, i + 1, |rs|);
    assert rs[..|rs|] == rs;
    assert Flatten(rs)[k] == Flatten(rs[..i + 1])[k];
  }

  lemma CursorNext(rs: Ranges, k: nat, i: nat, at: int)
    requires CursorAt(rs, k, i, at, 0) && k < |Flatten(rs)|
    ensures i + 1 < |rs| && CursorAt(rs, k, i + 1, rs[i + 1].begin, rs[i + 1].Size())
  {
    assert rs[..|rs|] == rs;
    if i + 1 < |rs| { FlattenSnoc(rs, i + 1); }
  }

  /** The indices in `[lo, hi)` of the elements satisfying `p`, ascending. */
  function Positions<T>(s: seq<T>, lo: nat, hi: nat, p: T -> bool): seq<int>
    requires hi <= |s|
  {
    if hi <= lo then [] else Positions(s, lo, hi - 1, p) + if p(s[hi - 1]) then [hi - 1] else []
  }

  lemma {:induction false} PositionsSound<T>(s: seq<T>, lo: nat, hi: nat, p: T -> bool)
    requires hi <= |s|
    ensures forall k :: 0 <= k < |Positions(s, lo, hi, p)| ==>
      lo <= Positions(s, lo, hi, p)[k] < hi && p(s[Positions(s, lo, hi, p)[k]])
    ensures forall j, k :: 0 <= j < k < |Positions(s, lo, hi, p)| ==>
      Positions(s, lo, hi, p)[j] < Positions(s, lo, hi, p)[k]
  {
    if lo < hi { PositionsSound(s, lo, hi - 1, p); }
  }

  lemma {:induction false} PositionsComplete<T>(s: seq<T>, lo: nat, hi: nat, p: T -> bool, q: nat)
    requires hi <= |s| && lo <= q < hi && p(s[q])
    ensures q in Positions(s, lo, hi, p)
  {
    if q < hi - 1 { PositionsComplete(s, lo, hi - 1, p, q); }
  }

  lemma {:induction false} PositionsCount<T>(s: seq<T>, lo: nat, hi: nat, p: T -> bool)
    requires lo <= hi <= |s|
    ensures |Positions(s, lo, hi, p)| == Count(s[lo..hi], p)
  {
    if lo < hi {
      PositionsCount(s, lo, hi - 1, p);
      FilterSliceSnoc(s, lo, hi, p);
    }
  }

  /** Index `i` is listed in the place that is the number of indices before it. */
  lemma PositionsRank<T>(s: seq<T>, lo: nat, hi: nat, p: T -> bool, i: nat)
    requires lo <= i < hi <= |s| && p(s[i])
    ensures Count(s[lo..i], p) < |Positions(s, lo, hi, p)| && Positions(s, lo, hi, p)[Count(s[lo..i], p)] == i
  {
    PositionsCount(s, lo, i, p);
    PositionsPrefix(s, lo, i + 1, hi, p);
  }

  lemma {:induction false} PositionsAll<T>(s: seq<T>, lo: nat, m: nat, hi: nat, p: T -> bool)
    requires lo <= m && hi <= |s| && forall k :: m <= k < hi ==> p(s[k])
    ensures m <= hi ==> Positions(s, lo, hi, p) == Positions(s, lo, m, p) + Interval(m, hi)
  {
    if m < hi { PositionsAll(s, lo, m, hi - 1, p); }
  }

  lemma {:induction false} PositionsNone<T>(s: seq<T>, lo: nat, m: nat, hi: nat, p: T -> bool)
    requires lo <= m && hi <= |s| && forall k :: m <= k < hi ==> !p(s[k])
    ensures m <= hi ==> Positions(s, lo, hi, p) == Positions(s, lo, m, p)
  {
    if m < hi { PositionsNone(s, lo, m, hi - 1, p); }
  }

  lemma {:induction false} PositionsPrefix<T>(s: seq<T>, lo: nat, m: nat, hi: nat, p: T -> bool)
    requires m <= hi <= |s|
    ensures Positions(s, lo, m, p) <= Positions(s, lo, hi, p)
  {
    if m < hi { PositionsPrefix(s, lo, m, hi - 1, p); }
  }

  // ------------------------------------------------------------ exchanging pairs

  /** Two equally long lists of indices into `n` items, all different. */
  ghost predicate Pairs(l: seq<int>, r: seq<int>, n: nat) {
    && |l| == |r|
    && (forall k :: 0 <= k < |l| ==> 0 <= l[k] < n && 0 <= r[k] < n)
    && (forall j, k :: 0 <= j < |l| && 0 <= k < |r| ==> l[j] != r[k])
    && (forall j, k :: 0 <= j < k < |l| ==> l[j] != l[k] && r[j] != r[k])
  }

  /** `t` is `s` with the pairs in `done` exchanged and everything else untouched. */
  ghost predicate Exchanged<T>(s: seq<T>, t: seq<T>, l: seq<int>, r: seq<int>, done: set<int>)
    requires Pairs(l, r, |s|)
  {
    && |t| == |s| && multiset(t) == multiset(s)
    && (forall k :: 0 <= k < |l| ==> t[l[k]] == if k in done then s[r[k]] else s[l[k]])
    && (forall k :: 0 <= k < |r| ==> t[r[k]] == if k in done then s[l[k]] else s[r[k]])
    && (forall q :: 0 <= q < |s| && q !in l && q !in r ==> t[q] == s[q])
  }

  lemma ExchangeOne<T>(s: seq<T>, t: seq<T>, l: seq<int>, r: seq<int>, done: set<int>, k: nat)
    requires Pairs(l, r, |s|) && Exchanged(s, t, l, r, done) && k < |l| && k !in done
    ensures Exchanged(s, Swapped(t, l[k], r[k]), l, r, done + {k})
  {}

  /** The exchanges `run[0], run[1], ...` one after the other. */
  function RunExchanges<T>(s: seq<T>, l: seq<int>, r: seq<int>, run: seq<int>): (t: seq<T>)
    requires forall i :: 0 <= i < |run| ==> 0 <= run[i] < |l| && run[i] < |r|
    requires forall k :: 0 <= k < |l| ==> 0 <= l[k] < |s|
    requires forall k :: 0 <= k < |r| ==> 0 <= r[k] < |s|
    ensures |t| == |s|
  {
    if run == [] then s else
      var k := run[|run| - 1];
      Swapped(RunExchanges(s, l, r, run[..|run| - 1]), l[k], r[k])
  }

  /** The run makes only exchanges there are, and turns `s` into `t`. */
  ghost predicate ExchangedBy<T>(s: seq<T>, t: seq<T>, l: seq<int>, r: seq<int>, run: seq<int>) {
    && (forall i :: 0 <= i < |run| ==> 0 <= run[i] < |l| && run[i] < |r|)
    && (forall k :: 0 <= k < |l| ==> 0 <= l[k] < |s|)
    && (forall k :: 0 <= k < |r| ==> 0 <= r[k] < |s|)
    && t == RunExchanges(s, l, r, run)
  }

  /** Every complete run leaves what is left when all pairs are exchanged. */
  lemma EveryRunExchanges<T>(s: seq<T>, t: seq<T>, l: seq<int>, r: seq<int>, done: set<int>, run: seq<int>)
    requires Pairs(l, r, |s|) && Exchanged(s, t, l, r, done) && forall k :: 0 <= k < |l| ==> k in done
    requires AllOnce(run, |l|)
    ensures ExchangedBy(s, t, l, r, run)
  {
    hide Exchanged;
    AnyExchangeOrder(s, l, r, run);
    ExchangedUnique(s, t, RunExchanges(s, l, r, run), l, r, done, Elements(run));
  }

  function Elements(run: seq<int>): set<int> {
    set k | k in run
  }

  lemma NoneExchanged<T>(s: seq<T>, l: seq<int>, r: seq<int>)
    requires Pairs(l, r, |s|)
    ensures Exchanged(s, s, l, r, {}) && Elements([]) == {}
  {}

  lemma ElementsSnoc(run: seq<int>)
    requires run != []
    ensures Elements(run) == Elements(run[..|run| - 1]) + {run[|run| - 1]}
    ensures (forall i, j :: 0 <= i < j < |run| ==> run[i] != run[j]) ==> run[|run| - 1] !in Elements(run[..|run| - 1])
  {
    assert run == run[..|run| - 1] + [run[|run| - 1]];
  }

  /** Any order, hence any interleaving of the tasks: exchanges of distinct pairs always add up to the same. */
  lemma {:induction false} AnyExchangeOrder<T>(s: seq<T>, l: seq<int>, r: seq<int>, run: seq<int>)
    requires Pairs(l, r, |s|)
    requires forall i :: 0 <= i < |run| ==> 0 <= run[i] < |l|
    requires forall i, j :: 0 <= i < j < |run| ==> run[i] != run[j]
    ensures Exchanged(s, RunExchanges(s, l, r, run), l, r, Elements(run))
  {
    hide Exchanged, Elements;
    NoneExchanged(s, l, r);
    if run != [] {
      var m := |run| - 1;
      AnyExchangeOrder(s, l, r, run[..m]);
      ElementsSnoc(run);
      ExchangeOne(s, RunExchanges(s, l, r, run[..m]), l, r, Elements(run[..m]), run[m]);
    }
  }

  /** Two complete runs, in whatever order, leave the same items everywhere. */
  lemma ExchangeOrderIrrelevant<T>(s: seq<T>, l: seq<int>, r: seq<int>, run: seq<int>, run': seq<int>)
    requires Pairs(l, r, |s|)
    requires forall i :: 0 <= i < |run| ==> 0 <= run[i] < |l|
    requires forall i :: 0 <= i < |run'| ==> 0 <= run'[i] < |l|
    requires forall i, j :: 0 <= i < j < |run| ==> run[i] != run[j]
    requires forall i, j :: 0 <= i < j < |run'| ==> run'[i] != run'[j]
    requires forall k :: 0 <= k < |l| ==> k in run && k in run'
    ensures RunExchanges(s, l, r, run) == RunExchanges(s, l, r, run')
  {
    AnyExchangeOrder(s, l, r, run);
    AnyExchangeOrder(s, l, r, run');
    ExchangedUnique(s, RunExchanges(s, l, r, run), RunExchanges(s, l, r, run'), l, r, Elements(run), Elements(run'));
  }

  lemma ExchangedUnique<T>(s: seq<T>, t: seq<T>, u: seq<T>, l: seq<int>, r: seq<int>, done: set<int>, done': set<int>)
    requires Pairs(l, r, |s|) && Exchanged(s, t, l, r, done) && Exchanged(s, u, l, r, done')
    requires forall k :: 0 <= k < |l| ==> k in done && k in done'
    ensures t == u
  {
    forall q | 0 <= q < |s| ensures t[q] == u[q] {
      if q in l {
        var k :| 0 <= k < |l| && l[k] == q;
      } else if q in r {
        var k :| 0 <= k < |r| && r[k] == q;
      }
    }
  }
}

/** Compaction of a partly kept sequence: holes from the front are filled with kept items from the back. */
module HoleFilling {
  import opened Misplaced
  import opened Seqs

  const KEPT: bool -> bool := (b: bool) => b
  const HOLE: bool -> bool := (b: bool) => !b

  /** The indices in `[lo, hi)` whose flag satisfies `p`, descending. */
  function Descending(f: seq<bool>, lo: nat, hi: nat, p: bool -> bool): seq<int>
    requires hi <= |f|
    decreases hi - lo
  {
    if hi <= lo then [] else Descending(f, lo + 1, hi, p) + if p(f[lo]) then [lo] else []
  }

  lemma {:induction false} DescendingSound(f: seq<bool>, lo: nat, hi: nat, p: bool -> bool)
    requires hi <= |f|
    ensures forall k :: 0 <= k < |Descending(f, lo, hi, p)| ==>
      lo <= Descending(f, lo, hi, p)[k] < hi && p(f[Descending(f, lo, hi, p)[k]])
    decreases hi - lo
  {
    if lo < hi { DescendingSound(f, lo + 1, hi, p); }
  }

  /** Listing further down appends. */
  lemma {:induction false} DescendingPrefix(f: seq<bool>, lo: nat, m: nat, hi: nat, p: bool -> bool)
    requires lo <= m && hi <= |f|
    ensures Descending(f, m, hi, p) <= Descending(f, lo, hi, p)
    decreases m - lo
  {
    if lo < m && lo < hi { DescendingPrefix(f, lo + 1, m, hi, p); }
  }

  lemma {:induction false} DescendingCount(f: seq<bool>, lo: nat, hi: nat, p: bool -> bool)
    requires lo <= hi <= |f|
    ensures |Descending(f, lo, hi, p)| == Count(f[lo..hi], p)
    decreases hi - lo
  {
    if lo < hi {
      DescendingCount(f, lo + 1, hi, p);
      assert f[lo..hi] == [f[lo]] + f[lo + 1..hi];
      FilterAppend([f[lo]], f[lo + 1..hi], p);
      assert [f[lo]][..0] == [];
    }
  }

  /** A run of kept items is listed from its last to its first. */
  lemma {:induction false} DescendingRun(f: seq<bool>, c: nat, m: nat, e: nat, hi: nat)
    requires c <= m <= e <= hi <= |f|
    requires (forall k :: c <= k < m ==> f[k]) && (forall k :: m <= k < e ==> !f[k])
    ensures |Descending(f, c, hi, KEPT)| == |Descending(f, e, hi, KEPT)| + (m - c)
    ensures forall k :: |Descending(f, e, hi, KEPT)| <= k < |Descending(f, c, hi, KEPT)| ==>
      Descending(f, c, hi, KEPT)[k] == m - 1 - (k - |Descending(f, e, hi, KEPT)|)
    decreases e - c
  {
    if c < m {
      DescendingRun(f, c + 1, m, e, hi);
    } else if c < e {
      DescendingRun(f, c + 1, c + 1, e, hi);
    }
  }

  /** The items at the given indices. */
  function At<T>(s: seq<T>, idx: seq<int>): (r: seq<T>)
    requires forall k :: 0 <= k < |idx| ==> 0 <= idx[k] < |s|
    ensures |r| == |idx|
  {
    if idx == [] then [] else At(s, idx[..|idx| - 1]) + [s[idx[|idx| - 1]]]
  }

  lemma {:induction false} AtIndex<T>(s: seq<T>, idx: seq<int>, k: nat)
    requires (forall k :: 0 <= k < |idx| ==> 0 <= idx[k] < |s|) && k < |idx|
    ensures At(s, idx)[k] == s[idx[k]]
  {
    if k < |idx| - 1 { AtIndex(s, idx[..|idx| - 1], k); }
  }

  lemma AtEmpty<T>(s: seq<T>)
    ensures multiset(At(s, [])) == multiset{}
  {}

  lemma AtSnoc<T>(s: seq<T>, idx: seq<int>, i: int)
    requires (forall k :: 0 <= k < |idx| ==> 0 <= idx[k] < |s|) && 0 <= i < |s|
    ensures multiset(At(s, idx + [i])) == multiset(At(s, idx)) + multiset{s[i]}
  {
    assert (idx + [i])[..|idx|] == idx;
  }

  /** The bag of the items in `[lo, hi)` whose flag satisfies `p`. */
  ghost function Bag<T>(s: seq<T>, f: seq<bool>, lo: nat, hi: nat, p: bool -> bool): multiset<T>
    requires hi <= |s| == |f|
  {
    if hi <= lo then multiset{} else Bag(s, f, lo, hi - 1, p) + if p(f[hi - 1]) then multiset{s[hi - 1]} else multiset{}
  }

  lemma {:induction false} BagSplit<T>(s: seq<T>, f: seq<bool>, lo: nat, m: nat, hi: nat, p: bool -> bool)
    requires lo <= m <= hi <= |s| == |f|
    ensures Bag(s, f, lo, hi, p) == Bag(s, f, lo, m, p) + Bag(s, f, m, hi, p)
  {
    if m < hi { BagSplit(s, f, lo, m, hi - 1, p); }
  }

  lemma Regroup<T>(a: multiset<T>, b: multiset<T>, x: multiset<T>)
    ensures (a + x) + (b + multiset{}) == (a + b) + x
    ensures (a + multiset{}) + (b + x) == (a + b) + x
  {}

  lemma BagFirst<T>(s: seq<T>, f: seq<bool>, lo: nat, hi: nat, p: bool -> bool)
    requires lo < hi <= |s| == |f|
    ensures Bag(s, f, lo, hi, p) == Bag(s, f, lo + 1, hi, p) + if p(f[lo]) then multiset{s[lo]} else multiset{}
  {
    BagSplit(s, f, lo, lo + 1, hi, p);
    assert Bag(s, f, lo, lo, p) == multiset{};
  }

  lemma BagLast<T>(s: seq<T>, f: seq<bool>, lo: nat, hi: nat)
    requires hi <= |s| == |f|
    ensures hi <= lo ==> Bag(s, f, lo, hi, KEPT) == Bag(s, f, lo, hi, HOLE) == multiset{}
    ensures lo < hi ==>
      Bag(s, f, lo, hi, KEPT) == Bag(s, f, lo, hi - 1, KEPT) + if f[hi - 1] then multiset{s[hi - 1]} else multiset{}
    ensures lo < hi ==>
      Bag(s, f, lo, hi, HOLE) == Bag(s, f, lo, hi - 1, HOLE) + if f[hi - 1] then multiset{} else multiset{s[hi - 1]}
  {}

  lemma {:induction false} BagAll<T>(s: seq<T>, f: seq<bool>, lo: nat, hi: nat)
    requires lo <= hi <= |s| == |f|
    ensures multiset(s[lo..hi]) == Bag(s, f, lo, hi, KEPT) + Bag(s, f, lo, hi, HOLE)
  {
    hide Bag;
    BagLast(s, f, lo, hi);
    if lo < hi {
      BagAll(s, f, lo, hi - 1);
      SliceSnoc(s, lo, hi);
      Regroup(Bag(s, f, lo, hi - 1, KEPT), Bag(s, f, lo, hi - 1, HOLE), multiset{s[hi - 1]});
    }
  }

  lemma {:induction false} BagKept<T>(s: seq<T>, f: seq<bool>, lo: nat, hi: nat)
    requires lo <= hi <= |s| == |f|
    ensures (forall k :: lo <= k < hi ==> f[k]) ==> Bag(s, f, lo, hi, KEPT) == multiset(s[lo..hi])
    ensures (forall k :: lo <= k < hi ==> !f[k]) ==> Bag(s, f, lo, hi, KEPT) == multiset{}
  {
    if lo < hi {
      BagKept(s, f, lo, hi - 1);
      SliceSnoc(s, lo, hi);
    }
  }

  lemma {:induction false} BagAscending<T>(s: seq<T>, f: seq<bool>, lo: nat, hi: nat, p: bool -> bool)
    requires hi <= |s| == |f|
    requires forall k :: 0 <= k < |Positions(f, lo, hi, p)| ==> 0 <= Positions(f, lo, hi, p)[k] < |s|
    ensures multiset(At(s, Positions(f, lo, hi, p))) == Bag(s, f, lo, hi, p)
  {
    hide At;
    AtEmpty(s);
    if lo < hi {
      PositionsSound(f, lo, hi - 1, p);
      BagAscending(s, f, lo, hi - 1, p);
      var idx := Positions(f, lo, hi - 1, p);
      if p(f[hi - 1]) { AtSnoc(s, idx, hi - 1); } else { assert idx + [] == idx; }
    }
  }

  lemma {:induction false} BagDescending<T>(s: seq<T>, f: seq<bool>, lo: nat, hi: nat, p: bool -> bool)
    requires hi <= |s| == |f|
    requires forall k :: 0 <= k < |Descending(f, lo, hi, p)| ==> 0 <= Descending(f, lo, hi, p)[k] < |s|
    ensures multiset(At(s, Descending(f, lo, hi, p))) == Bag(s, f, lo, hi, p)
    decreases hi - lo
  {
    hide At;
    AtEmpty(s);
    if lo < hi {
      DescendingSound(f, lo + 1, hi, p);
      BagDescending(s, f, lo + 1, hi, p);
      BagFirst(s, f, lo, hi, p);
      var idx := Descending(f, lo + 1, hi, p);
      if p(f[lo]) { AtSnoc(s, idx, lo); } else { assert idx + [] == idx; }
    }
  }

  /** Behind the `k`-th index listed there are `k` others that satisfy `p`. */
  lemma {:induction false} DescendingRank(f: seq<bool>, lo: nat, hi: nat, p: bool -> bool, k: nat)
    requires hi <= |f| && k < |Descending(f, lo, hi, p)|
    ensures var q := Descending(f, lo, hi, p)[k]; lo <= q < hi && p(f[q]) && Count(f[q + 1..hi], p) == k
    decreases hi - lo
  {
    if lo < hi {
      DescendingSound(f, lo, hi, p);
      if k < |Descending(f, lo + 1, hi, p)| {
        DescendingRank(f, lo + 1, hi, p, k);
      } else {
        DescendingCount(f, lo + 1, hi, p);
      }
    }
  }

  // ------------------------------------------------------------ filling

  /** Holes before `used`, ascending; kept items from `used` on, descending. */
  function Holes(f: seq<bool>, used: nat): seq<int>
    requires used <= |f|
  {
    Positions(f, 0, used, HOLE)
  }

  function Fillers(f: seq<bool>, used: nat): seq<int> {
    Descending(f, used, |f|, KEPT)
  }

  /** There are as many holes before `used` as kept items behind it; all of the one before all of the other. */
  lemma HolesMatchFillers(f: seq<bool>, used: nat)
    requires used == Count(f, KEPT) <= |f|
    ensures |Holes(f, used)| == |Fillers(f, used)|
    ensures forall k :: 0 <= k < |Holes(f, used)| ==> 0 <= Holes(f, used)[k] < used
    ensures forall k :: 0 <= k < |Fillers(f, used)| ==> used <= Fillers(f, used)[k] < |f|
    ensures forall j, k :: 0 <= j < k < |Holes(f, used)| ==> Holes(f, used)[j] != Holes(f, used)[k]
  {
    PositionsCount(f, 0, used, HOLE);
    DescendingCount(f, used, |f|, KEPT);
    assert f[0..used] == f[..used] && f[used..|f|] == f[used..];
    FilterSplit(f, used, KEPT);
    CountSplit(f[..used], KEPT);
    FilterExt(f[..used], Not(KEPT), HOLE);
    PositionsSound(f, 0, used, HOLE);
    DescendingSound(f, used, |f|, KEPT);
  }

  /** `t` is `s` with the holes in `done` filled and everything else untouched. */
  ghost predicate Filled<T>(s: seq<T>, t: seq<T>, holes: seq<int>, fillers: seq<int>, used: nat, done: set<int>) {
    && |t| == |s| && |holes| == |fillers| && used <= |s|
    && (forall k :: 0 <= k < |holes| ==> 0 <= holes[k] < used)
    && (forall k :: 0 <= k < |fillers| ==> used <= fillers[k] < |s|)
    && (forall j, k :: 0 <= j < k < |holes| ==> holes[j] != holes[k])
    && (forall k :: 0 <= k < |holes| ==> t[holes[k]] == if k in done then s[fillers[k]] else s[holes[k]])
    && (forall q :: 0 <= q < |s| && q !in holes ==> t[q] == s[q])
  }

  /** One copy: it reads behind `used`, where no task writes, and writes a hole no other copy writes. */
  lemma FillOne<T>(s: seq<T>, t: seq<T>, holes: seq<int>, fillers: seq<int>, used: nat, done: set<int>, k: nat)
    requires Filled(s, t, holes, fillers, used, done) && k < |holes|
    ensures 0 <= holes[k] < |t| && 0 <= fillers[k] < |t| && t[fillers[k]] == s[fillers[k]]
    ensures Filled(s, t[holes[k] := t[fillers[k]]], holes, fillers, used, done + {k})
  {}

  function RunFills<T>(s: seq<T>, holes: seq<int>, fillers: seq<int>, run: seq<int>): (t: seq<T>)
    requires forall i :: 0 <= i < |run| ==> 0 <= run[i] < |holes| && run[i] < |fillers|
    requires forall k :: 0 <= k < |holes| ==> 0 <= holes[k] < |s|
    requires forall k :: 0 <= k < |fillers| ==> 0 <= fillers[k] < |s|
    ensures |t| == |s|
  {
    if run == [] then s else
      var t, k := RunFills(s, holes, fillers, run[..|run| - 1]), run[|run| - 1];
      t[holes[k] := t[fillers[k]]]
  }

  /** Any order of the copies, hence any interleaving of the tasks, fills the same holes with the same items. */
  lemma {:induction false} AnyFillOrder<T>(s: seq<T>, holes: seq<int>, fillers: seq<int>, used: nat, run: seq<int>)
    requires Filled(s, s, holes, fillers, used, {})
    requires forall i :: 0 <= i < |run| ==> 0 <= run[i] < |holes|
    ensures Filled(s, RunFills(s, holes, fillers, run), holes, fillers, used, Elements(run))
  {
    if run != [] {
      var m := |run| - 1;
      AnyFillOrder(s, holes, fillers, used, run[..m]);
      ElementsSnoc(run);
      FillOne(s, RunFills(s, holes, fillers, run[..m]), holes, fillers, used, Elements(run[..m]), run[m]);
    }
  }

  /** Two complete runs, in whatever order, leave the same items everywhere. */
  lemma FillOrderIrrelevant<T>(s: seq<T>, holes: seq<int>, fillers: seq<int>, used: nat, run: seq<int>, run': seq<int>)
    requires Filled(s, s, holes, fillers, used, {})
    requires forall i :: 0 <= i < |run| ==> 0 <= run[i] < |holes|
    requires forall i :: 0 <= i < |run'| ==> 0 <= run'[i] < |holes|
    requires forall k :: 0 <= k < |holes| ==> k in run && k in run'
    ensures RunFills(s, holes, fillers, run) == RunFills(s, holes, fillers, run')
  {
    AnyFillOrder(s, holes, fillers, used, run);
    AnyFillOrder(s, holes, fillers, used, run');
    FilledUnique(s, RunFills(s, holes, fillers, run), RunFills(s, holes, fillers, run'), holes, fillers, used,
                 Elements(run), Elements(run'));
  }

  /** The run makes only copies there are, and turns `s` into `t`. */
  ghost predicate FilledBy<T>(s: seq<T>, t: seq<T>, holes: seq<int>, fillers: seq<int>, run: seq<int>) {
    && (forall i :: 0 <= i < |run| ==> 0 <= run[i] < |holes| && run[i] < |fillers|)
    && (forall k :: 0 <= k < |holes| ==> 0 <= holes[k] < |s|)
    && (forall k :: 0 <= k < |fillers| ==> 0 <= fillers[k] < |s|)
    && t == RunFills(s, holes, fillers, run)
  }

  /** Every complete run leaves what is left when all holes are filled. */
  lemma EveryRunFills<T>(s: seq<T>, t: seq<T>, holes: seq<int>, fillers: seq<int>, used: nat, done: set<int>,
                         run: seq<int>)
    requires Filled(s, s, holes, fillers, used, {})
    requires Filled(s, t, holes, fillers, used, done) && forall k :: 0 <= k < |holes| ==> k in done
    requires forall i :: 0 <= i < |run| ==> 0 <= run[i] < |holes|
    requires forall k :: 0 <= k < |holes| ==> k in run
    ensures FilledBy(s, t, holes, fillers, run)
  {
    AnyFillOrder(s, holes, fillers, used, run);
    FilledUnique(s, t, RunFills(s, holes, fillers, run), holes, fillers, used, done, Elements(run));
  }

  lemma FilledUnique<T>(s: seq<T>, t: seq<T>, u: seq<T>, holes: seq<int>, fillers: seq<int>, used: nat,
                        done: set<int>, done': set<int>)
    requires Filled(s, t, holes, fillers, used, done) && Filled(s, u, holes, fillers, used, done')
    requires forall k :: 0 <= k < |holes| ==> k in done && k in done'
    ensures t == u
  {
    forall q | 0 <= q < |s| ensures t[q] == u[q] {
      if q in holes {
        var k :| 0 <= k < |holes| && holes[k] == q;
      }
    }
  }

  /**
   * In front of `used` the kept items stand where they were, and each hole holds the kept item from behind `used` that
   * has as many kept items behind it as the hole has holes in front of it. From `used` on nothing has changed.
   */
  ghost predicate FilledByRank<T>(s: seq<T>, t: seq<T>, f: seq<bool>, used: nat) {
    && |t| == |s| == |f| && used <= |f|
    && (forall i: nat :: i < |s| && (used <= i || f[i]) ==> t[i] == s[i])
    && (forall i: nat :: i < used && !f[i] ==> FromRank(s, t, f, used, i))
  }

  ghost predicate FromRank<T>(s: seq<T>, t: seq<T>, f: seq<bool>, used: nat, i: nat)
    requires i < used <= |t| == |s| == |f|
  {
    exists q: nat :: used <= q < |s| && f[q] && t[i] == s[q] && Count(f[q + 1..], KEPT) == Count(f[..i], HOLE)
  }

  lemma FilledIsByRank<T>(s: seq<T>, t: seq<T>, f: seq<bool>, used: nat, done: set<int>)
    requires |s| == |f| && used == Count(f, KEPT) <= |f|
    requires Filled(s, t, Holes(f, used), Fillers(f, used), used, done)
    requires forall k :: 0 <= k < |Holes(f, used)| ==> k in done
    ensures FilledByRank(s, t, f, used)
  {
    hide Filter;
    PositionsSound(f, 0, used, HOLE);
    forall i: nat | i < used && !f[i] ensures FromRank(s, t, f, used, i) {
      PositionsRank(f, 0, used, HOLE, i);
      assert f[0..i] == f[..i];
      var k := Count(f[..i], HOLE);
      DescendingRank(f, used, |f|, KEPT, k);
      var q: nat := Fillers(f, used)[k];
      assert f[q + 1..|f|] == f[q + 1..];
      assert t[i] == s[q];
    }
  }

  /** With all holes filled the first `used` items are the kept ones. */
  lemma FilledBag<T>(s: seq<T>, t: seq<T>, f: seq<bool>, used: nat, done: set<int>)
    requires |s| == |f| && used == Count(f, KEPT) <= |f|
    requires Filled(s, t, Holes(f, used), Fillers(f, used), used, done)
    requires forall k :: 0 <= k < |Holes(f, used)| ==> k in done
    ensures multiset(t[..used]) == Bag(s, f, 0, |s|, KEPT)
  {
    var l, r := Holes(f, used), Fillers(f, used);
    assert t[0..used] == t[..used];
    BagAll(t, f, 0, used);
    BagSplit(s, f, 0, used, |s|, KEPT);
    UntouchedKept(s, t, f, used, used, done);
    BagAscending(t, f, 0, used, HOLE);
    BagDescending(s, f, used, |s|, KEPT);
    forall k | 0 <= k < |l| ensures At(t, l)[k] == At(s, r)[k] {
      AtIndex(t, l, k);
      AtIndex(s, r, k);
    }
    assert At(t, l) == At(s, r);
  }

  lemma {:induction false} UntouchedKept<T>(s: seq<T>, t: seq<T>, f: seq<bool>, used: nat, n: nat, done: set<int>)
    requires |s| == |f| && n <= used <= |f| && Filled(s, t, Holes(f, used), Fillers(f, used), used, done)
    ensures Bag(t, f, 0, n, KEPT) == Bag(s, f, 0, n, KEPT)
  {
    if n != 0 {
      UntouchedKept(s, t, f, used, n - 1, done);
      if f[n - 1] { PositionsSound(f, 0, used, HOLE); }
    }
  }
}

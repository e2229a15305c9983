/** Loops that hand work to a closure in batches of vector lanes. */
module Foreach2 {

  datatype Point = Point(u: int, v: int)

  // ------------------------------------------------------------ the grid

  /** The first points of a row. */
  function Row(y: int, x0: int, x: int): seq<Point>
    decreases x - x0
  {
    if x <= x0 then [] else Row(y, x0, x - 1) + [Point(x - 1, y)]
  }

  /** The points of the rows `y0 .. y - 1`, row by row. */
  function Rows(x0: int, x1: int, y0: int, y: int): seq<Point>
    decreases y - y0
  {
    if y <= y0 then [] else Rows(x0, x1, y0, y - 1) + Row(y - 1, x0, x1)
  }

  lemma {:induction false} RowAt(y: int, x0: int, x: int)
    requires x0 <= x
    ensures |Row(y, x0, x)| == x - x0
    ensures forall i :: 0 <= i < x - x0 ==> Row(y, x0, x)[i] == Point(x0 + i, y)
    decreases x - x0
  {
    if x0 < x { RowAt(y, x0, x - 1); }
  }

  lemma {:induction false} RowsHold(x0: int, x1: int, y0: int, y: int, p: Point)
    ensures p in Rows(x0, x1, y0, y) <==> x0 <= p.u < x1 && y0 <= p.v < y
    decreases y - y0
  {
    if y0 < y {
      RowsHold(x0, x1, y0, y - 1, p);
      if x0 <= x1 {
        RowAt(y - 1, x0, x1);
        if p.v == y - 1 && x0 <= p.u < x1 { assert Row(y - 1, x0, x1)[p.u - x0] == p; }
      }
    }
  }

  /** No point comes twice: every position holds another one. */
  lemma {:induction false} RowsDistinct(x0: int, x1: int, y0: int, y: int, i: nat, j: nat)
    requires i < j < |Rows(x0, x1, y0, y)|
    ensures Rows(x0, x1, y0, y)[i] != Rows(x0, x1, y0, y)[j]
    decreases y - y0
  {
    if y0 < y {
      var before := Rows(x0, x1, y0, y - 1);
      if x0 <= x1 { RowAt(y - 1, x0, x1); }
      if j < |before| {
        RowsDistinct(x0, x1, y0, y - 1, i, j);
      } else if i < |before| {
        RowsHold(x0, x1, y0, y - 1, before[i]);
      }
    }
  }

  /** Row by row, and from left to right within a row. */
  lemma {:induction false} RowsAt(x0: int, x1: int, y0: int, y: int, u: int, v: int)
    requires x0 <= u < x1 && y0 <= v < y
    ensures |Rows(x0, x1, y0, y)| == (y - y0) * (x1 - x0)
    ensures 0 <= (v - y0) * (x1 - x0) + (u - x0) < |Rows(x0, x1, y0, y)|
    ensures Rows(x0, x1, y0, y)[(v - y0) * (x1 - x0) + (u - x0)] == Point(u, v)
    decreases y - y0
  {
    var w := x1 - x0;
    RowAt(y - 1, x0, x1);
    RowsLength(x0, x1, y0, y - 1);
    RowsLength(x0, x1, y0, y);
    OneRowMore(y - 1 - y0, w);
    if v < y - 1 { RowsAt(x0, x1, y0, y - 1, u, v); }
  }

  lemma {:induction false} RowsLength(x0: int, x1: int, y0: int, y: int)
    requires x0 < x1 && y0 <= y
    ensures |Rows(x0, x1, y0, y)| == (y - y0) * (x1 - x0)
    decreases y - y0
  {
    if y0 < y {
      RowsLength(x0, x1, y0, y - 1);
      RowAt(y - 1, x0, x1);
      OneRowMore(y - 1 - y0, x1 - x0);
    }
  }

  lemma OneRowMore(n: int, w: int)
    ensures n * w + w == (n + 1) * w
  {}

  // ------------------------------------------------------------ batches

  /** All lanes of all calls, in order. */
  function Flat(calls: seq<seq<Point>>): seq<Point> {
    if calls == [] then [] else Flat(calls[..|calls| - 1]) + calls[|calls| - 1]
  }

  lemma FlatSnoc(calls: seq<seq<Point>>, c: seq<Point>)
    ensures Flat(calls + [c]) == Flat(calls) + c
  {
    assert (calls + [c])[..|calls|] == calls;
  }

  /** The first `n` lanes of the two buffers. */
  function Lanes(us: seq<int>, vs: seq<int>, n: nat): (r: seq<Point>)
    requires n <= |us| && n <= |vs|
    ensures |r| == n
  {
    seq(n, i requires 0 <= i < n => Point(us[i], vs[i]))
  }

  /** Calls so far: all of them full. */
  ghost predicate AllFull(calls: seq<seq<Point>>, size: nat) {
    forall k :: 0 <= k < |calls| ==> |calls[k]| == size
  }

  /** Every call uses at least one lane, and only the last one may leave lanes unused. */
  ghost predicate Packed(calls: seq<seq<Point>>, size: nat) {
    calls == [] || (AllFull(calls[..|calls| - 1], size) && 0 < |calls[|calls| - 1]| <= size)
  }

  /** Two vector stores of `size` lanes at `index`: the lanes before stay, then come the points from `x` on. */
  ghost predicate StoredAt(us: seq<int>, vs: seq<int>, us': seq<int>, vs': seq<int>, index: nat, size: nat, x: int,
                           y: int) {
    && |us| == |vs| == |us'| == |vs'| && index + size <= |us|
    && (forall i :: 0 <= i < index ==> us'[i] == us[i] && vs'[i] == vs[i])
    && (forall i :: index <= i < index + size ==> us'[i] == x + (i - index) && vs'[i] == y)
  }

  lemma LanesStored(us: seq<int>, vs: seq<int>, us': seq<int>, vs': seq<int>, index: nat, size: nat, x: int, y: int,
                    n: nat)
    requires StoredAt(us, vs, us', vs', index, size, x, y) && index <= n <= index + size
    ensures Lanes(us', vs', n) == Lanes(us, vs, index) + Row(y, x, x + n - index)
  {
    RowAt(y, x, x + n - index);
    hide Row;
  }

  lemma {:induction false} RowJoin(y: int, x0: int, x: int, x': int)
    requires x0 <= x <= x'
    ensures Row(y, x0, x') == Row(y, x0, x) + Row(y, x, x')
    decreases x' - x
  {
    if x < x' { RowJoin(y, x0, x, x' - 1); }
  }

  /** The rows up to `y`, and row `y` up to `x`. */
  function Upto(x0: int, x1: int, y0: int, y: int, x: int): seq<Point> {
    Rows(x0, x1, y0, y) + Row(y, x0, x)
  }

  lemma UptoJoin(x0: int, x1: int, y0: int, y: int, x: int, x': int)
    requires x0 <= x <= x'
    ensures Upto(x0, x1, y0, y, x) + Row(y, x, x') == Upto(x0, x1, y0, y, x')
  {
    RowJoin(y, x0, x, x');
    hide Row, Rows;
  }

  /** Calls and buffer together hold the points so far. */
  ghost predicate Handed(calls: seq<seq<Point>>, lanes: seq<Point>, x0: int, x1: int, y0: int, y: int, x: int) {
    Flat(calls) + lanes == Upto(x0, x1, y0, y, x)
  }

  /** One more store: calls and buffer together grow by the points stored. */
  lemma HandedMore(calls: seq<seq<Point>>, us: seq<int>, vs: seq<int>, us': seq<int>, vs': seq<int>, index: nat,
                   size: nat, n: nat,
                   x0: int, x1: int, y0: int, y: int, x: int)
    requires StoredAt(us, vs, us', vs', index, size, x, y) && index <= n <= index + size && x0 <= x
    requires Handed(calls, Lanes(us, vs, index), x0, x1, y0, y, x)
    ensures Handed(calls, Lanes(us', vs', n), x0, x1, y0, y, x + n - index)
  {
    LanesStored(us, vs, us', vs', index, size, x, y, n);
    UptoJoin(x0, x1, y0, y, x, x + n - index);
    hide StoredAt, Lanes, Flat, Upto, Row;
    Assoc(Flat(calls), Lanes(us, vs, index), Row(y, x, x + n - index));
  }

  lemma Assoc(a: seq<Point>, b: seq<Point>, c: seq<Point>)
    ensures a + (b + c) == (a + b) + c
  {}

  /** Handing the buffer over to the closure. */
  lemma HandedOver(calls: seq<seq<Point>>, lanes: seq<Point>, us: seq<int>, vs: seq<int>, size: nat, done: bool,
                   x0: int, x1: int, y0: int, y: int, x: int)
    requires Handed(calls, lanes, x0, x1, y0, y, x)
    requires AllFull(calls, size) && 0 < |lanes| <= size && (!done ==> |lanes| == size)
    ensures Handed(calls + [lanes], Lanes(us, vs, 0), x0, x1, y0, y, x)
    ensures AllFullUnlessDone(calls + [lanes], size, done)
  {
    FlatSnoc(calls, lanes);
    assert (calls + [lanes])[..|calls|] == calls;
    hide Flat, Upto;
  }

  /** One row. Nothing stays in the buffer at the end of the last one. */
  method ForRow(us: array<int>, vs: array<int>, index0: nat, calls0: seq<seq<Point>>, x0: int, x1: int, ghost y0: int,
                y: int,
                lasty: bool, size: nat) returns (index: nat, calls: seq<seq<Point>>)
    requires us != vs && us.Length == vs.Length == 2 * size && index0 < size && x0 < x1
    requires AllFull(calls0, size) && Handed(calls0, Lanes(us[..], vs[..], index0), x0, x1, y0, y, x0)
    modifies us, vs
    ensures index < size && (lasty ==> index == 0)
    ensures AllFullUnlessDone(calls, size, lasty) && Handed(calls, Lanes(us[..], vs[..], index), x0, x1, y0, y, x1)
  {
    hide Flat, Lanes, Upto, Packed, AllFull, Handed, Row;
    index, calls := index0, calls0;
    var x := x0;
    while x < x1
      invariant x0 <= x <= x1 && index < size && (x1 <= x && lasty ==> index == 0)
      invariant AllFullUnlessDone(calls, size, x1 <= x && lasty)
      invariant Handed(calls, Lanes(us[..], vs[..], index), x0, x1, y0, y, x)
    {
      var lastx := x1 <= x + size;
      ghost var us0, vs0, at, from := us[..], vs[..], index, x;
      StoreLanes(us, vs, index, x, y, size);
      var dx := if x1 - x <= size then x1 - x else size;
      index := index + dx;
      x := x + dx;
      if size <= index || (lastx && lasty) {
        var valid := if size <= index then size else index;
        HandedMore(calls, us0, vs0, us[..], vs[..], at, size, valid, x0, x1, y0, y, from);
        x := x - if size <= index then index - size else 0;
        HandedOver(calls, Lanes(us[..], vs[..], valid), us[..], vs[..], size, x1 <= x && lasty, x0, x1, y0, y, x);
        calls := calls + [Lanes(us[..], vs[..], valid)];
        index := 0;
      } else {
        HandedMore(calls, us0, vs0, us[..], vs[..], at, size, index, x0, x1, y0, y, from);
      }
    }
  }

  /** The two vector stores, of the columns from `x` on and of the row. */
  method StoreLanes(us: array<int>, vs: array<int>, index: nat, x: int, y: int, size: nat)
    requires us != vs && us.Length == vs.Length && index + size <= us.Length
    modifies us, vs
    ensures StoredAt(old(us[..]), old(vs[..]), us[..], vs[..], index, size, x, y)
  {
    forall i | 0 <= i < size {
      us[index + i] := x + i;
    }
    forall i | 0 <= i < size {
      vs[index + i] := y;
    }
  }

  /**
   * All points of `[x0, x1) x [y0, y1)` in calls of up to `size` lanes. `calls` records the valid lanes of each
   * call of the closure.
   */
  method ForEach2(x0: int, x1: int, y0: int, y1: int, size: nat) returns (calls: seq<seq<Point>>)
    requires 0 < size
    ensures Flat(calls) == Rows(x0, x1, y0, y1)
    ensures Packed(calls, size)
  {
    hide Flat, Lanes, Upto, Handed, Row, Rows;
    var us, vs := new int[2 * size], new int[2 * size];
    var index: nat := 0;
    calls := [];
    Start(us[..], vs[..], x0, x1, y0);
    var y := y0;
    while y < y1
      invariant y0 <= y && (y1 <= y ==> y == Last(y0, y1)) && index < size && (y1 <= y ==> index == 0)
      invariant x1 <= x0 ==> index == 0 && calls == []
      invariant AllFullUnlessDone(calls, size, y1 <= y)
      invariant Handed(calls, Lanes(us[..], vs[..], index), x0, x1, y0, y, x0)
    {
      if x0 < x1 {
        index, calls := ForRow(us, vs, index, calls, x0, x1, y0, y, y1 <= y + 1, size);
      }
      RowDone(calls, Lanes(us[..], vs[..], index), x0, x1, y0, y);
      y := y + 1;
    }
    Finish(calls, us[..], vs[..], x0, x1, y0, y1);
  }

  function Last(y0: int, y1: int): int {
    if y0 <= y1 then y1 else y0
  }

  /** While there is work left, every call so far was full. */
  ghost predicate AllFullUnlessDone(calls: seq<seq<Point>>, size: nat, done: bool) {
    if done then Packed(calls, size) else AllFull(calls, size)
  }

  lemma Start(us: seq<int>, vs: seq<int>, x0: int, x1: int, y0: int)
    ensures Handed([], Lanes(us, vs, 0), x0, x1, y0, y0, x0)
  {}

  lemma RowDone(calls: seq<seq<Point>>, lanes: seq<Point>, x0: int, x1: int, y0: int, y: int)
    requires y0 <= y && Handed(calls, lanes, x0, x1, y0, y, if x0 < x1 then x1 else x0)
    ensures Handed(calls, lanes, x0, x1, y0, y + 1, x0)
  {}

  lemma Finish(calls: seq<seq<Point>>, us: seq<int>, vs: seq<int>, x0: int, x1: int, y0: int, y1: int)
    requires Handed(calls, Lanes(us, vs, 0), x0, x1, y0, Last(y0, y1), x0)
    ensures Flat(calls) == Rows(x0, x1, y0, y1)
  {
    hide Flat;
    assert Rows(x0, x1, y0, Last(y0, y1)) == Rows(x0, x1, y0, y1);
    assert Flat(calls) + Lanes(us, vs, 0) == Flat(calls);
  }

  // ------------------------------------------------------------ one call a value

  /** A call of the closure of `foreach_unique`: its mask and the value of all its lanes. */
  datatype UniqueCall = UniqueCall(mask: seq<bool>, value: int)

  /** The lanes `j` with `valid[j]` that hold `value`. */
  function LanesOf(valid: seq<bool>, vi: seq<int>, value: int): (mask: seq<bool>)
    requires |valid| == |vi|
    ensures |mask| == |valid|
  {
    seq(|valid|, j requires 0 <= j < |valid| => valid[j] && vi[j] == value)
  }

  /** `valid & ~mask` */
  function AndNot(valid: seq<bool>, mask: seq<bool>): (r: seq<bool>)
    requires |valid| == |mask|
    ensures |r| == |valid|
  {
    seq(|valid|, j requires 0 <= j < |valid| => valid[j] && !mask[j])
  }

  function CountTrue(valid: seq<bool>): nat {
    if valid == [] then 0 else CountTrue(valid[..|valid| - 1]) + if valid[|valid| - 1] then 1 else 0
  }

  lemma {:induction false} CountLess(r: seq<bool>, valid: seq<bool>, j: nat)
    requires |r| == |valid| && j < |valid| && valid[j] && !r[j]
    requires forall i :: 0 <= i < |valid| && r[i] ==> valid[i]
    ensures CountTrue(r) < CountTrue(valid)
  {
    var m := |valid| - 1;
    if j == m { CountLeq(r[..m], valid[..m]); } else { CountLess(r[..m], valid[..m], j); }
  }

  lemma {:induction false} CountLeq(r: seq<bool>, valid: seq<bool>)
    requires |r| == |valid| && forall i :: 0 <= i < |valid| && r[i] ==> valid[i]
    ensures CountTrue(r) <= CountTrue(valid)
  {
    if valid != [] {
      var m := |valid| - 1;
      CountLeq(r[..m], valid[..m]);
    }
  }

  /** The first set lane, if there is one. */
  method FirstSet(valid: seq<bool>) returns (found: bool, j: nat)
    ensures found ==> j < |valid| && valid[j] && forall i :: 0 <= i < j ==> !valid[i]
    ensures !found ==> forall i :: 0 <= i < |valid| ==> !valid[i]
  {
    j := 0;
    while j < |valid|
      invariant j <= |valid| && forall i :: 0 <= i < j ==> !valid[i]
    {
      if valid[j] { return true, j; }
      j := j + 1;
    }
    found := false;
  }

  ghost predicate AnyLane(mask: seq<bool>) {
    exists j :: 0 <= j < |mask| && mask[j]
  }

  /** Calls so far: each has exactly the valid lanes of its value, at least one, and no two the same value. */
  ghost predicate OneCallEach(calls: seq<UniqueCall>, valid: seq<bool>, vi: seq<int>)
    requires |valid| == |vi|
  {
    && (forall k :: 0 <= k < |calls| ==> calls[k].mask == LanesOf(valid, vi, calls[k].value) && AnyLane(calls[k].mask))
    && (forall k, l :: 0 <= k < l < |calls| ==> calls[k].value != calls[l].value)
  }

  ghost predicate HasCall(calls: seq<UniqueCall>, value: int) {
    exists k :: 0 <= k < |calls| && calls[k].value == value
  }

  /** The lanes that are left are those whose value had no call yet. */
  ghost predicate Left(calls: seq<UniqueCall>, valid: seq<bool>, vi: seq<int>, left: seq<bool>)
    requires |valid| == |vi|
  {
    |left| == |valid| && forall j :: 0 <= j < |left| ==> (left[j] <==> valid[j] && !HasCall(calls, vi[j]))
  }

  /** Call `k` has a lane in front of all lanes of call `l`. */
  ghost predicate Earlier(calls: seq<UniqueCall>, n: nat, k: nat, l: nat)
    requires k < |calls| && l < |calls| && |calls[k].mask| == |calls[l].mask| == n
  {
    exists j: nat :: j < n && calls[k].mask[j] && forall i: nat :: i <= j ==> !calls[l].mask[i]
  }

  /** The calls come in the order of their first lanes. */
  ghost predicate ByFirstLane(calls: seq<UniqueCall>, n: nat) {
    && (forall k: nat :: k < |calls| ==> |calls[k].mask| == n)
    && forall k: nat, l: nat :: k < l < |calls| ==> Earlier(calls, n, k, l)
  }

  /** Each call so far has a lane in front of all that are left. */
  ghost predicate AllEarlier(calls: seq<UniqueCall>, left: seq<bool>) {
    forall k: nat :: k < |calls| ==> |calls[k].mask| == |left| && InFront(calls[k].mask, left)
  }

  ghost predicate InFront(mask: seq<bool>, left: seq<bool>)
    requires |mask| == |left|
  {
    exists j: nat :: j < |mask| && mask[j] && forall i: nat :: i <= j ==> !left[i]
  }

  /** One more call, for the first lane that is left. */
  lemma OrderStep(calls: seq<UniqueCall>, left: seq<bool>, call: UniqueCall, j: nat)
    requires ByFirstLane(calls, |left|) && AllEarlier(calls, left)
    requires |call.mask| == |left| && j < |left| && call.mask[j] && forall i: nat :: i < j ==> !left[i]
    requires forall i: nat :: i < |left| && call.mask[i] ==> left[i]
    ensures ByFirstLane(calls + [call], |left|) && AllEarlier(calls + [call], AndNot(left, call.mask))
  {
    var next, rest := calls + [call], AndNot(left, call.mask);
    forall k: nat | k < |calls| ensures Earlier(next, |left|, k, |calls|) && InFront(next[k].mask, rest) {
      assert InFront(calls[k].mask, left);
      var i: nat :| i < |left| && calls[k].mask[i] && forall h: nat :: h <= i ==> !left[h];
      assert next[k].mask[i] && !next[|calls|].mask[i];
    }
    forall k: nat, l: nat | k < l < |next| ensures Earlier(next, |left|, k, l) {
      if l < |calls| {
        assert Earlier(calls, |left|, k, l);
        var i: nat :| i < |left| && calls[k].mask[i] && forall h: nat :: h <= i ==> !calls[l].mask[h];
        assert next[k].mask[i];
      }
    }
    assert InFront(call.mask, rest) by { assert call.mask[j] && !rest[j]; }
  }

  /** The closure is called once for each value a valid lane holds, with all valid lanes that hold it. */
  method ForEachUnique(valid0: seq<bool>, vi: seq<int>) returns (calls: seq<UniqueCall>)
    requires |valid0| == |vi|
    ensures OneCallEach(calls, valid0, vi)
    ensures forall j :: 0 <= j < |vi| && valid0[j] ==> HasCall(calls, vi[j])
    ensures ByFirstLane(calls, |vi|)
  {
    hide LanesOf, AndNot, OneCallEach, Left, ByFirstLane, AllEarlier;
    NoCalls(valid0, vi);
    calls := [];
    var valid1 := valid0;
    var any: bool, j: nat := FirstSet(valid1);
    while any
      invariant |valid1| == |vi| && OneCallEach(calls, valid0, vi) && Left(calls, valid0, vi, valid1)
      invariant ByFirstLane(calls, |vi|) && AllEarlier(calls, valid1)
      invariant any ==> j < |valid1| && valid1[j] && forall i: nat :: i < j ==> !valid1[i]
      invariant !any ==> forall i :: 0 <= i < |valid1| ==> !valid1[i]
      decreases CountTrue(valid1)
    {
      var i := vi[j];
      var valid2 := LanesOf(valid1, vi, i);
      var next := AndNot(valid1, valid2);
      UniqueStep(calls, valid0, vi, valid1, i, j);
      LanesLeft(valid1, vi, i);
      OrderStep(calls, valid1, UniqueCall(valid2, i), j);
      CountLess(next, valid1, j);
      calls := calls + [UniqueCall(valid2, i)];
      valid1 := next;
      any, j := FirstSet(valid1);
    }
    AllHaveCalls(calls, valid0, vi, valid1);
  }

  lemma UniqueStep(calls: seq<UniqueCall>, valid: seq<bool>, vi: seq<int>, left: seq<bool>, i: int, j: nat)
    requires |valid| == |vi| && OneCallEach(calls, valid, vi) && Left(calls, valid, vi, left)
    requires j < |left| && left[j] && vi[j] == i
    ensures LanesOf(left, vi, i)[j]
    ensures OneCallEach(calls + [UniqueCall(LanesOf(left, vi, i), i)], valid, vi)
    ensures Left(calls + [UniqueCall(LanesOf(left, vi, i), i)], valid, vi, AndNot(left, LanesOf(left, vi, i)))
  {
    var next := calls + [UniqueCall(LanesOf(left, vi, i), i)];
    assert !HasCall(calls, i);
    assert LanesOf(left, vi, i) == LanesOf(valid, vi, i);
    forall v: int ensures HasCall(next, v) <==> HasCall(calls, v) || v == i {
      assert next[|calls|].value == i;
      if HasCall(calls, v) {
        var k :| 0 <= k < |calls| && calls[k].value == v;
        assert next[k].value == v;
      }
    }
  }

  lemma NoCalls(valid: seq<bool>, vi: seq<int>)
    requires |valid| == |vi|
    ensures OneCallEach([], valid, vi) && Left([], valid, vi, valid) && ByFirstLane([], |vi|) && AllEarlier([], valid)
  {}

  lemma LanesLeft(left: seq<bool>, vi: seq<int>, i: int)
    requires |left| == |vi|
    ensures forall j: nat :: j < |left| && LanesOf(left, vi, i)[j] ==> left[j]
    ensures forall j: nat :: j < |left| && AndNot(left, LanesOf(left, vi, i))[j] ==> left[j]
    ensures forall j: nat :: j < |left| && LanesOf(left, vi, i)[j] ==> !AndNot(left, LanesOf(left, vi, i))[j]
  {}

  lemma AllHaveCalls(calls: seq<UniqueCall>, valid: seq<bool>, vi: seq<int>, left: seq<bool>)
    requires |valid| == |vi| && Left(calls, valid, vi, left) && forall j :: 0 <= j < |left| ==> !left[j]
    ensures forall j :: 0 <= j < |vi| && valid[j] ==> HasCall(calls, vi[j])
  {}
}

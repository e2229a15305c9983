/** Linear bounds of a moving box, over the reals and for one coordinate: the other coordinates repeat it. */
module MotionBounds {

  datatype Box = Box(lower: real, upper: real)

  /** A box whose two ends move linearly from `bounds0` to `bounds1`. */
  datatype LBBox = LBBox(bounds0: Box, bounds1: Box)

  datatype Range = Range(lower: real, upper: real)

  function Mix(a: real, b: real, f: real): real {
    (1.0 - f) * a + f * b
  }

  function Lerp(a: Box, b: Box, f: real): Box {
    Box(Mix(a.lower, b.lower, f), Mix(a.upper, b.upper, f))
  }

  function Interpolate(l: LBBox, f: real): Box {
    Lerp(l.bounds0, l.bounds1, f)
  }

  function Min(a: real, b: real): real {
    if a <= b then a else b
  }

  function Max(a: real, b: real): real {
    if a <= b then b else a
  }

  function Ceil(x: real): (c: int)
    ensures c as real - 1.0 < x <= c as real
  {
    if x.Floor as real == x then x.Floor else x.Floor + 1
  }

  ghost predicate Within(a: Box, b: Box) {
    b.lower <= a.lower && a.upper <= b.upper
  }

  // ------------------------------------------------------------ lines

  lemma MixMix(a: real, b: real, f0: real, f1: real, w: real)
    ensures Mix(Mix(a, b, f0), Mix(a, b, f1), w) == Mix(a, b, Mix(f0, f1, w))
  {
    var f := Mix(f0, f1, w);
    assert (1.0 - w) * ((1.0 - f0) * a + f0 * b) == ((1.0 - w) * (1.0 - f0)) * a + ((1.0 - w) * f0) * b;
    assert w * ((1.0 - f1) * a + f1 * b) == (w * (1.0 - f1)) * a + (w * f1) * b;
    assert (1.0 - f) == (1.0 - w) * (1.0 - f0) + w * (1.0 - f1);
  }

  lemma LerpLerp(a: Box, b: Box, f0: real, f1: real, w: real)
    ensures Lerp(Lerp(a, b, f0), Lerp(a, b, f1), w) == Lerp(a, b, Mix(f0, f1, w))
  {
    MixMix(a.lower, b.lower, f0, f1, w);
    MixMix(a.upper, b.upper, f0, f1, w);
  }

  lemma MixMono(a: real, b: real, a': real, b': real, w: real)
    requires a <= a' && b <= b' && 0.0 <= w <= 1.0
    ensures Mix(a, b, w) <= Mix(a', b', w)
  {
    assert (1.0 - w) * (a' - a) >= 0.0;
    assert w * (b' - b) >= 0.0;
  }

  lemma LerpWithin(a: Box, b: Box, a': Box, b': Box, w: real)
    requires Within(a, a') && Within(b, b') && 0.0 <= w <= 1.0
    ensures Within(Lerp(a, b, w), Lerp(a', b', w))
  {
    MixMono(a'.lower, b'.lower, a.lower, b.lower, w);
    MixMono(a.upper, b.upper, a'.upper, b'.upper, w);
  }

  /** How far `x` is along the way from `lo` to `hi`. */
  function Fraction(lo: real, hi: real, x: real): real
    requires lo != hi
  {
    (x - lo) / (hi - lo)
  }

  lemma MixFraction(lo: real, hi: real, x: real)
    requires lo != hi
    ensures Mix(lo, hi, Fraction(lo, hi, x)) == x
  {
    var f := Fraction(lo, hi, x);
    assert f * (hi - lo) == x - lo;
    assert Mix(lo, hi, f) == lo + f * (hi - lo);
  }

  lemma FractionMix(lo: real, hi: real, f: real)
    requires lo != hi
    ensures Fraction(lo, hi, Mix(lo, hi, f)) == f
  {
    assert Mix(lo, hi, f) - lo == f * (hi - lo);
  }

  lemma FactorSign(a: real, b: real)
    requires 0.0 < b && 0.0 <= a * b
    ensures 0.0 <= a
  {}

  lemma FractionMono(lo: real, hi: real, x: real, y: real)
    requires lo < hi && x <= y
    ensures Fraction(lo, hi, x) <= Fraction(lo, hi, y)
  {
    var f, g := Fraction(lo, hi, x), Fraction(lo, hi, y);
    assert f * (hi - lo) == x - lo;
    assert g * (hi - lo) == y - lo;
    assert (g - f) * (hi - lo) == y - x;
    FactorSign(g - f, hi - lo);
  }

  // ------------------------------------------------------------ keyframes

  /** The box at position `x` of the keyframes, in segments: linear between neighbouring keyframes. */
  function Motion(keys: seq<Box>, x: real): Box
    requires 0.0 <= x <= (|keys| - 1) as real
  {
    var k := x.Floor;
    if k == |keys| - 1 then keys[k] else Lerp(keys[k], keys[k + 1], x - k as real)
  }

  lemma LerpEnds(a: Box, b: Box)
    ensures Lerp(a, b, 0.0) == a && Lerp(a, b, 1.0) == b
  {}

  lemma MotionInSegment(keys: seq<Box>, k: nat, x: real)
    requires k + 1 < |keys| && k as real <= x <= (k + 1) as real
    ensures Motion(keys, x) == Lerp(keys[k], keys[k + 1], x - k as real)
  {
    if x < (k + 1) as real {
      assert x.Floor == k;
    } else {
      assert x.Floor == k + 1;
      LerpEnds(keys[k], keys[k + 1]);
      if k + 2 < |keys| { LerpEnds(keys[k + 1], keys[k + 2]); }
    }
  }

  lemma MotionAtKey(keys: seq<Box>, k: nat)
    requires k < |keys|
    ensures Motion(keys, k as real) == keys[k]
  {
    assert (k as real).Floor == k;
    if k + 1 < |keys| { LerpEnds(keys[k], keys[k + 1]); }
  }

  /**
   * Let `l` move over positions `[lo, hi]` of the keyframes. At fraction `f` of the way the
   * keyframe box, where there is one, lies within the box of `l`.
   */
  ghost predicate CoversAt(keys: seq<Box>, lo: real, hi: real, l: LBBox, f: real) {
    var x := Mix(lo, hi, f);
    0.0 <= x <= (|keys| - 1) as real ==> Within(Motion(keys, x), Interpolate(l, f))
  }

  /** Conservative bounds: the keyframe box is inside at every moment. */
  ghost predicate Conservative(keys: seq<Box>, lo: real, hi: real, l: LBBox) {
    forall f :: 0.0 <= f <= 1.0 ==> CoversAt(keys, lo, hi, l, f)
  }

  ghost predicate CoversKey(keys: seq<Box>, lo: real, hi: real, l: LBBox, k: int)
    requires lo != hi && 0 <= k < |keys|
  {
    Within(keys[k], Interpolate(l, Fraction(lo, hi, k as real)))
  }

  lemma KeyCovered(keys: seq<Box>, lo: real, hi: real, l: LBBox, k: nat)
    requires lo != hi && k < |keys|
    ensures CoversKey(keys, lo, hi, l, k) <==> CoversAt(keys, lo, hi, l, Fraction(lo, hi, k as real))
  {
    MixFraction(lo, hi, k as real);
    MotionAtKey(keys, k);
  }

  /** Both sides are linear within a segment: it suffices to look at two moments around. */
  lemma CoversBetween(keys: seq<Box>, lo: real, hi: real, l: LBBox, k: nat, f0: real, f: real, f1: real)
    requires k + 1 < |keys| && f0 <= f <= f1
    requires k as real <= Mix(lo, hi, f0) <= (k + 1) as real && k as real <= Mix(lo, hi, f1) <= (k + 1) as real
    requires k as real <= Mix(lo, hi, f) <= (k + 1) as real
    requires CoversAt(keys, lo, hi, l, f0) && CoversAt(keys, lo, hi, l, f1)
    ensures CoversAt(keys, lo, hi, l, f)
  {
    hide Lerp, Motion;
    if f0 < f1 {
      var w := Fraction(f0, f1, f);
      MixFraction(f0, f1, f);
      WeightInUnit(f0, f1, f);
      var x0, x, x1 := Mix(lo, hi, f0), Mix(lo, hi, f), Mix(lo, hi, f1);
      MixMix(lo, hi, f0, f1, w);
      MotionInSegment(keys, k, x0);
      MotionInSegment(keys, k, x);
      MotionInSegment(keys, k, x1);
      var s := k as real;
      MixShift(x0, x1, s, w);
      LerpLerp(keys[k], keys[k + 1], x0 - s, x1 - s, w);
      LerpLerp(l.bounds0, l.bounds1, f0, f1, w);
      LerpWithin(Motion(keys, x0), Motion(keys, x1), Interpolate(l, f0), Interpolate(l, f1), w);
    }
  }

  lemma MixShift(x0: real, x1: real, s: real, w: real)
    ensures Mix(x0 - s, x1 - s, w) == Mix(x0, x1, w) - s
  {}

  lemma WeightInUnit(f0: real, f1: real, f: real)
    requires f0 < f1 && f0 <= f <= f1
    ensures 0.0 <= Fraction(f0, f1, f) <= 1.0
  {
    FractionMono(f0, f1, f0, f);
    FractionMono(f0, f1, f, f1);
    FractionMix(f0, f1, 0.0);
    FractionMix(f0, f1, 1.0);
  }

  /** Enough for conservative bounds: both ends, where they are inside, and all keyframes strictly between. */
  ghost predicate CoversPoints(keys: seq<Box>, lo: real, hi: real, l: LBBox)
    requires lo < hi
  {
    && CoversAt(keys, lo, hi, l, 0.0)
    && CoversAt(keys, lo, hi, l, 1.0)
    && (forall k: int :: 0 <= k < |keys| && StrictlyInside(lo, hi, k) ==> CoversKey(keys, lo, hi, l, k))
  }

  lemma PointsSuffice(keys: seq<Box>, lo: real, hi: real, l: LBBox)
    requires lo < hi && 2 <= |keys| && CoversPoints(keys, lo, hi, l)
    ensures Conservative(keys, lo, hi, l)
  {
    hide CoversAt, Mix, Fraction;
    forall f | 0.0 <= f <= 1.0 ensures CoversAt(keys, lo, hi, l, f) {
      var x := Mix(lo, hi, f);
      if 0.0 <= x <= (|keys| - 1) as real {
        var k := if x.Floor == |keys| - 1 then x.Floor - 1 else x.Floor;
        var f0 := Below(keys, lo, hi, l, k, f);
        var f1 := Above(keys, lo, hi, l, k, f);
        CoversBetween(keys, lo, hi, l, k, f0, f, f1);
      } else {
        NothingThere(keys, lo, hi, l, f);
      }
    }
  }

  lemma NothingThere(keys: seq<Box>, lo: real, hi: real, l: LBBox, f: real)
    requires !(0.0 <= Mix(lo, hi, f) <= (|keys| - 1) as real)
    ensures CoversAt(keys, lo, hi, l, f)
  {}

  lemma MixEnds(lo: real, hi: real)
    ensures Mix(lo, hi, 0.0) == lo && Mix(lo, hi, 1.0) == hi
  {}

  lemma MixSame(a: real, f: real)
    ensures Mix(a, a, f) == a
  {}

  lemma MixInside(lo: real, hi: real, f: real)
    requires lo <= hi && 0.0 <= f <= 1.0
    ensures lo <= Mix(lo, hi, f) <= hi
  {
    MixMono(lo, lo, lo, hi, f);
    MixMono(lo, hi, hi, hi, f);
    MixSame(lo, f);
    MixSame(hi, f);
  }

  /** A covered moment at or before `f`, in the segment of `f`. */
  lemma Below(keys: seq<Box>, lo: real, hi: real, l: LBBox, k: nat, f: real) returns (f0: real)
    requires lo < hi && k + 1 < |keys| && CoversPoints(keys, lo, hi, l) && 0.0 <= f <= 1.0
    requires k as real <= Mix(lo, hi, f) <= (k + 1) as real
    ensures f0 <= f && CoversAt(keys, lo, hi, l, f0) && k as real <= Mix(lo, hi, f0) <= (k + 1) as real
  {
    hide CoversAt, Mix, Fraction, CoversKey;
    MixEnds(lo, hi);
    MixInside(lo, hi, f);
    if k as real <= lo {
      f0 := 0.0;
    } else {
      f0 := Fraction(lo, hi, k as real);
      FractionMono(lo, hi, k as real, Mix(lo, hi, f));
      FractionMix(lo, hi, f);
      MixFraction(lo, hi, k as real);
      if (k as real) < hi {
        KeyCovered(keys, lo, hi, l, k);
      } else {
        FractionMix(lo, hi, 1.0);
      }
    }
  }

  /** A covered moment at or after `f`, in the segment of `f`. */
  lemma Above(keys: seq<Box>, lo: real, hi: real, l: LBBox, k: nat, f: real) returns (f1: real)
    requires lo < hi && k + 1 < |keys| && CoversPoints(keys, lo, hi, l) && 0.0 <= f <= 1.0
    requires k as real <= Mix(lo, hi, f) <= (k + 1) as real
    ensures f <= f1 && CoversAt(keys, lo, hi, l, f1) && k as real <= Mix(lo, hi, f1) <= (k + 1) as real
  {
    hide CoversAt, Mix, Fraction, CoversKey;
    MixEnds(lo, hi);
    MixInside(lo, hi, f);
    var next := (k + 1) as real;
    if hi <= next {
      f1 := 1.0;
    } else {
      f1 := Fraction(lo, hi, next);
      FractionMono(lo, hi, Mix(lo, hi, f), next);
      FractionMix(lo, hi, f);
      MixFraction(lo, hi, next);
      if lo < next {
        KeyCovered(keys, lo, hi, l, k + 1);
      } else {
        FractionMix(lo, hi, 0.0);
      }
    }
  }

  // ------------------------------------------------------------ widening

  /** Both ends moved out by the same offsets. */
  function Shift(l: LBBox, d: Box): LBBox {
    LBBox(Box(l.bounds0.lower + d.lower, l.bounds0.upper + d.upper),
          Box(l.bounds1.lower + d.lower, l.bounds1.upper + d.upper))
  }

  /** What the constructors do for one more box that has to be inside at fraction `f`. */
  function Widen(l: LBBox, f: real, box: Box): LBBox {
    var bt := Lerp(l.bounds0, l.bounds1, f);
    var dlower := Min(box.lower - bt.lower, 0.0);
    var dupper := Max(box.upper - bt.upper, 0.0);
    LBBox(Box(l.bounds0.lower + dlower, l.bounds0.upper + dupper),
          Box(l.bounds1.lower + dlower, l.bounds1.upper + dupper))
  }

  lemma InterpolateShift(l: LBBox, d: Box, f: real)
    ensures Interpolate(Shift(l, d), f) == Box(Interpolate(l, f).lower + d.lower, Interpolate(l, f).upper + d.upper)
  {}

  /** The new box is inside, and what was inside at any moment stays inside. */
  lemma WidenCovers(l: LBBox, f: real, box: Box, g: real, old': Box)
    ensures Within(box, Interpolate(Widen(l, f, box), f))
    ensures Within(old', Interpolate(l, g)) ==> Within(old', Interpolate(Widen(l, f, box), g))
  {
    var bt := Interpolate(l, f);
    var d := Box(Min(box.lower - bt.lower, 0.0), Max(box.upper - bt.upper, 0.0));
    assert Widen(l, f, box) == Shift(l, d);
    InterpolateShift(l, d, f);
    InterpolateShift(l, d, g);
  }

  function Outward(d: Box): bool {
    d.lower <= 0.0 <= d.upper
  }

  ghost predicate CoversKeys(keys: seq<Box>, lo: real, hi: real, l: LBBox, first: int, last: int)
    requires lo != hi && 0 <= first && last <= |keys|
  {
    forall k :: first <= k < last ==> CoversKey(keys, lo, hi, l, k)
  }

  /** By how much `l` is wider than `base`. */
  function Offset(base: LBBox, l: LBBox): Box {
    Box(l.bounds0.lower - base.bounds0.lower, l.bounds0.upper - base.bounds0.upper)
  }

  /**
   * `l` is `base` moved outward, covers the keyframes `first .. last - 1`, and any other way to move
   * `base` outward so that they are covered moves it at least as far.
   */
  ghost predicate Least(keys: seq<Box>, lo: real, hi: real, base: LBBox, first: int, last: int, l: LBBox)
    requires lo != hi && 0 <= first && last <= |keys|
  {
    && l == Shift(base, Offset(base, l)) && Outward(Offset(base, l))
    && CoversKeys(keys, lo, hi, l, first, last)
    && forall d :: Outward(d) && CoversKeys(keys, lo, hi, Shift(base, d), first, last) ==> Within(Offset(base, l), d)
  }

  lemma LeastStart(keys: seq<Box>, lo: real, hi: real, base: LBBox, first: int)
    requires lo != hi && 0 <= first <= |keys|
    ensures Least(keys, lo, hi, base, first, first, base)
  {}

  /** Covering no keyframes is the same for all empty stretches of them. */
  lemma LeastOfNone(keys: seq<Box>, lo: real, hi: real, base: LBBox, first: int, last: int, last': int, l: LBBox)
    requires lo != hi && 0 <= first && last' <= last <= first <= |keys| && Least(keys, lo, hi, base, first, last, l)
    ensures Least(keys, lo, hi, base, first, last', l)
  {}

  lemma LeastStep(keys: seq<Box>, lo: real, hi: real, base: LBBox, first: int, k: int, l: LBBox)
    requires lo != hi && 0 <= first <= k < |keys| && Least(keys, lo, hi, base, first, k, l)
    ensures Least(keys, lo, hi, base, first, k + 1, Widen(l, Fraction(lo, hi, k as real), keys[k]))
  {
    hide Fraction, Lerp, Widen;
    var f, box := Fraction(lo, hi, k as real), keys[k];
    var l' := Widen(l, f, box);
    forall j | first <= j < k + 1 ensures CoversKey(keys, lo, hi, l', j) {
      WidenCovers(l, f, box, Fraction(lo, hi, j as real), keys[j]);
      assert j < k ==> CoversKey(keys, lo, hi, l, j);
    }
    forall d | Outward(d) && CoversKeys(keys, lo, hi, Shift(base, d), first, k + 1)
      ensures Within(Offset(base, l'), d)
    {
      assert CoversKeys(keys, lo, hi, Shift(base, d), first, k);
      assert CoversKey(keys, lo, hi, Shift(base, d), k);
      WidenLeast(base, l, f, box, d);
    }
    WidenIsShift(base, l, f, box);
  }

  lemma WidenIsShift(base: LBBox, l: LBBox, f: real, box: Box)
    requires l == Shift(base, Offset(base, l)) && Outward(Offset(base, l))
    ensures Widen(l, f, box) == Shift(base, Offset(base, Widen(l, f, box))) && Outward(Offset(base, Widen(l, f, box)))
  {
    hide Lerp;
  }

  lemma WidenLeast(base: LBBox, l: LBBox, f: real, box: Box, d: Box)
    requires l == Shift(base, Offset(base, l)) && Within(Offset(base, l), d)
    requires Within(box, Interpolate(Shift(base, d), f))
    ensures Within(Offset(base, Widen(l, f, box)), d)
  {
    InterpolateShift(base, d, f);
    InterpolateShift(base, Offset(base, l), f);
    hide Lerp, Shift;
  }

  /** What is inside `base` at some moment stays inside. */
  lemma LeastKeeps(keys: seq<Box>, lo: real, hi: real, base: LBBox, first: int, last: int, l: LBBox, f: real)
    requires lo != hi && 0 <= first && last <= |keys| && Least(keys, lo, hi, base, first, last, l)
    ensures CoversAt(keys, lo, hi, base, f) ==> CoversAt(keys, lo, hi, l, f)
  {
    hide Lerp, Motion, Mix;
    InterpolateShift(base, Offset(base, l), f);
  }

  /** `first .. last - 1` are at least the keyframes strictly inside `(lo, hi)`. */
  ghost predicate Inside(keys: seq<Box>, lo: real, hi: real, first: int, last: int) {
    forall k: int :: 0 <= k < |keys| && StrictlyInside(lo, hi, k) ==> first <= k < last
  }

  ghost predicate StrictlyInside(lo: real, hi: real, k: int) {
    lo < k as real < hi
  }

  /** The loop over the keyframes `first .. last - 1` makes bounds conservative that are right at their ends. */
  lemma LeastIsConservative(keys: seq<Box>, lo: real, hi: real, base: LBBox, first: int, last: int, l: LBBox)
    requires lo < hi && 0 <= first && last <= |keys| && 2 <= |keys|
    requires Least(keys, lo, hi, base, first, last, l)
    requires Inside(keys, lo, hi, first, last)
    requires CoversAt(keys, lo, hi, base, 0.0) && CoversAt(keys, lo, hi, base, 1.0)
    ensures Conservative(keys, lo, hi, l)
  {
    hide CoversAt, CoversKey, Conservative;
    LeastKeeps(keys, lo, hi, base, first, last, l, 0.0);
    LeastKeeps(keys, lo, hi, base, first, last, l, 1.0);
    PointsSuffice(keys, lo, hi, l);
  }
}

/** The constructors of linear bounds: one linearly moving box around a sequence of keyframe boxes. */
module LinearBounds {
  import opened MotionBounds

  /** The box at position `x`, held still before the first and after the last keyframe. */
  function ClampedMotion(keys: seq<Box>, x: real): Box
    requires 1 <= |keys|
  {
    Motion(keys, Max(0.0, Min(x, (|keys| - 1) as real)))
  }

  /** The box that moves straight from the keyframe box at `lo` to the one at `hi`. */
  function Chord(keys: seq<Box>, lo: real, hi: real): LBBox
    requires 1 <= |keys|
  {
    LBBox(ClampedMotion(keys, lo), ClampedMotion(keys, hi))
  }

  lemma ChordEnds(keys: seq<Box>, lo: real, hi: real)
    requires 1 <= |keys|
    ensures CoversAt(keys, lo, hi, Chord(keys, lo, hi), 0.0) && CoversAt(keys, lo, hi, Chord(keys, lo, hi), 1.0)
  {
    MixEnds(lo, hi);
    LerpEnds(ClampedMotion(keys, lo), ClampedMotion(keys, hi));
  }

  /** What every constructor returns when it goes over the keyframes `first .. last - 1`. */
  ghost predicate Fits(keys: seq<Box>, lo: real, hi: real, first: int, last: int, r: LBBox) {
    && 1 <= |keys| && 0 <= first && last <= |keys|
    && (lo == hi ==> r == Chord(keys, lo, hi))
    && (lo != hi ==> Least(keys, lo, hi, Chord(keys, lo, hi), first, last, r))
  }

  lemma FitsIsConservative(keys: seq<Box>, lo: real, hi: real, first: int, last: int, r: LBBox)
    requires 2 <= |keys| && lo <= hi && Fits(keys, lo, hi, first, last, r) && Inside(keys, lo, hi, first, last)
    ensures Conservative(keys, lo, hi, r)
  {
    hide Least, Inside;
    if lo < hi {
      ChordEnds(keys, lo, hi);
      LeastIsConservative(keys, lo, hi, Chord(keys, lo, hi), first, last, r);
    } else {
      forall f | 0.0 <= f <= 1.0 ensures CoversAt(keys, lo, hi, r, f) {
        StandsStill(keys, lo, f);
      }
    }
  }

  lemma StandsStill(keys: seq<Box>, x: real, f: real)
    requires 1 <= |keys|
    ensures CoversAt(keys, x, x, Chord(keys, x, x), f)
  {
    MixSame(x, f);
    var b := ClampedMotion(keys, x);
    MixSame(b.lower, f);
    MixSame(b.upper, f);
  }

  lemma LerpFlip(a: Box, b: Box, f: real)
    ensures Lerp(a, b, 1.0 - f) == Lerp(b, a, f)
  {}

  /** The keyframes gone over are exactly those that lie strictly inside. */
  lemma InsideExactly(lo: real, hi: real, segments: nat, k: int)
    ensures FirstInside(lo) <= k < LastInside(hi, segments) <==> 0 <= k <= segments && lo < k as real < hi
  {}

  /** The start of the chord as it is computed: with the keyframes `k` and `k + 1`. */
  lemma ChordStart(keys: seq<Box>, lo: real, k: nat)
    requires k + 1 < |keys| && k == (if lo < 0.0 then 0 else lo.Floor)
    ensures ClampedMotion(keys, lo) == Lerp(keys[k], keys[k + 1], Max(0.0, lo - k as real))
  {
    if lo < 0.0 {
      LerpEnds(keys[0], keys[1]);
    }
  }

  /** The end of the chord as it is computed: backwards, with the keyframes `k` and `k - 1`. */
  lemma ChordEnd(keys: seq<Box>, hi: real, k: nat)
    requires 0 < k < |keys| && k == (if (|keys| - 1) as real < hi then |keys| - 1 else Ceil(hi))
    ensures ClampedMotion(keys, hi) == Lerp(keys[k], keys[k - 1], Max(0.0, k as real - hi))
  {
    hide Lerp, Motion;
    if (|keys| - 1) as real < hi {
      LerpEnds(keys[k], keys[k - 1]);
      MotionAtKey(keys, k);
    } else {
      MotionInSegment(keys, k - 1, hi);
      LerpFlip(keys[k - 1], keys[k], k as real - hi);
    }
  }

  // ------------------------------------------------------------ construction

  /** From all keyframes, for the time from the first to the last. */
  method FromKeyframes(bounds: seq<Box>) returns (r: LBBox)
    requires 0 < |bounds|
    ensures Fits(bounds, 0.0, (|bounds| - 1) as real, if |bounds| == 1 then 0 else 1, |bounds| - 1, r)
    ensures Conservative(bounds, 0.0, (|bounds| - 1) as real, r)
  {
    hide Least, Conservative, Inside, Widen, Motion, Mix, Lerp, CoversAt;
    ghost var lo, hi := 0.0, (|bounds| - 1) as real;
    MotionAtKey(bounds, 0);
    MotionAtKey(bounds, |bounds| - 1);
    r := LBBox(bounds[0], bounds[|bounds| - 1]);
    ghost var chord := r;
    assert r == Chord(bounds, lo, hi);
    if |bounds| == 1 {
      ConservativeAtOnce(bounds, r);
      return;
    }
    LeastStart(bounds, lo, hi, chord, 1);
    for i := 1 to |bounds| - 1
      invariant Least(bounds, lo, hi, chord, 1, i, r)
    {
      var f := i as real / (|bounds| - 1) as real;
      LeastStep(bounds, lo, hi, chord, 1, i, r);
      r := Widen(r, f, bounds[i]);
    }
    AllInside(bounds);
    FitsIsConservative(bounds, lo, hi, 1, |bounds| - 1, r);
  }

  lemma ConservativeAtOnce(keys: seq<Box>, r: LBBox)
    requires |keys| == 1 && r == LBBox(keys[0], keys[0])
    ensures Conservative(keys, 0.0, 0.0, r)
  {
    forall f | 0.0 <= f <= 1.0 ensures CoversAt(keys, 0.0, 0.0, r, f) {
      StandsStill(keys, 0.0, f);
      MotionAtKey(keys, 0);
    }
  }

  lemma AllInside(keys: seq<Box>)
    requires 2 <= |keys|
    ensures Inside(keys, 0.0, (|keys| - 1) as real, 1, |keys| - 1)
  {}

  /** For keyframes `begin` to `end`. */
  method ForKeys(bounds: seq<Box>, begin: int, end: int) returns (r: LBBox)
    requires 0 <= begin <= end < |bounds|
    ensures Fits(bounds, begin as real, end as real, begin + 1, if begin == end then begin + 1 else end, r)
    ensures Conservative(bounds, begin as real, end as real, r)
  {
    hide Least, Conservative, Inside, Widen, Motion, Mix, Lerp, CoversAt;
    ghost var lo, hi := begin as real, end as real;
    MotionAtKey(bounds, begin);
    MotionAtKey(bounds, end);
    r := LBBox(bounds[begin], bounds[end]);
    ghost var chord := r;
    assert r == Chord(bounds, lo, hi);
    if begin == end {
      StillConservative(bounds, lo, r);
      return;
    }
    LeastStart(bounds, lo, hi, chord, begin + 1);
    for i := begin + 1 to end
      invariant Least(bounds, lo, hi, chord, begin + 1, i, r)
    {
      var f := (i - begin) as real / (end - begin) as real;
      LeastStep(bounds, lo, hi, chord, begin + 1, i, r);
      r := Widen(r, f, bounds[i]);
    }
    KeysInside(bounds, begin, end);
    FitsIsConservative(bounds, lo, hi, begin + 1, end, r);
  }

  lemma StillConservative(keys: seq<Box>, x: real, r: LBBox)
    requires 1 <= |keys| && r == Chord(keys, x, x)
    ensures Conservative(keys, x, x, r)
  {
    forall f | 0.0 <= f <= 1.0 ensures CoversAt(keys, x, x, r, f) {
      StandsStill(keys, x, f);
    }
  }

  lemma KeysInside(keys: seq<Box>, begin: int, end: int)
    ensures Inside(keys, begin as real, end as real, begin + 1, end)
  {}

  /** The keyframes strictly between `lo` and `hi`, clipped to the keyframes there are. */
  function FirstInside(lo: real): int {
    if lo.Floor < -1 then 0 else lo.Floor + 1
  }

  function LastInside(hi: real, segments: nat): int {
    if Ceil(hi) <= segments then Ceil(hi) else segments + 1
  }

  lemma InsideClipped(keys: seq<Box>, lo: real, hi: real)
    requires 1 <= |keys|
    ensures Inside(keys, lo, hi, FirstInside(lo), LastInside(hi, |keys| - 1))
  {}

  /** The time `t` of `[0, 1]` in segments. */
  function Scaled(t: real, segments: nat): real {
    t * segments as real
  }

  /** How far keyframe `k` is along the way from `lower` to `upper`, both times of `[0, 1]`. */
  function KeyFraction(k: int, segments: nat, lower: real, upper: real): real
    requires 1 <= segments && lower != upper
  {
    (k as real / segments as real - lower) / (upper - lower)
  }

  lemma KeyFractionScaled(k: int, segments: nat, lower: real, upper: real)
    requires 1 <= segments && lower != upper
    ensures Scaled(lower, segments) != Scaled(upper, segments)
    ensures KeyFraction(k, segments, lower, upper) ==
      Fraction(Scaled(lower, segments), Scaled(upper, segments), k as real)
  {
    var s, g, t := segments as real, KeyFraction(k, segments, lower, upper), k as real / segments as real;
    assert (upper - lower) * s == upper * s - lower * s;
    assert g * (upper - lower) == t - lower;
    assert t * s == k as real;
    assert g * ((upper - lower) * s) == (t - lower) * s == t * s - lower * s;
    assert Mix(lower * s, upper * s, g) == lower * s + g * (upper * s - lower * s);
    FractionMix(lower * s, upper * s, g);
  }

  /**
   * For a time range, the keyframes being spread over `[0, 1]`. `ok` tells that only keyframes were asked for that
   * there are. For an ordered range within `[0, 1]` that is so unless the range is one of the two end points.
   */
  method ForTimeRange(bounds: seq<Box>, timeRange: Range, segments: nat) returns (ok: bool, r: LBBox)
    requires |bounds| == segments + 1
    ensures ok <==> 1 <= segments && 0.0 <= timeRange.lower < 1.0 && 0.0 < timeRange.upper <= 1.0
    ensures var lo, hi := Scaled(timeRange.lower, segments), Scaled(timeRange.upper, segments);
      && (ok ==> Fits(bounds, lo, hi, FirstInside(lo), LastInside(hi, segments), r))
      && (ok && timeRange.lower <= timeRange.upper ==> Conservative(bounds, lo, hi, r))
  {
    hide Least, Conservative, Inside, Widen, Motion, Mix, Lerp, CoversAt, Scaled, KeyFraction, Fraction;
    var lower, upper := Scaled(timeRange.lower, segments), Scaled(timeRange.upper, segments);
    ScaledRange(timeRange, segments);
    var ilower, iupper := lower.Floor, Ceil(upper);
    r := LBBox(bounds[0], bounds[0]);
    if !(0 <= ilower <= segments && 0 <= iupper <= segments) {
      return false, r;
    }
    var blower0, bupper1 := bounds[ilower], bounds[iupper];
    if iupper - ilower == 1 {
      r := LBBox(Lerp(blower0, bupper1, lower - ilower as real), Lerp(bupper1, blower0, iupper as real - upper));
      RangeStart(bounds, lower, upper, segments);
      RangeFits(bounds, lower, upper, segments, r);
      return true, r;
    }
    if !(ilower + 1 <= segments && 0 <= iupper - 1) {
      return false, r;
    }
    var blower1, bupper0 := bounds[ilower + 1], bounds[iupper - 1];
    ghost var chord := Chord(bounds, lower, upper);
    RangeStart(bounds, lower, upper, segments);
    r := LBBox(Lerp(blower0, blower1, lower - ilower as real), Lerp(bupper1, bupper0, iupper as real - upper));
    var i := ilower + 1;
    while i < iupper
      invariant ilower + 1 <= i && (i <= iupper || iupper <= ilower + 1 == i)
      invariant lower == upper ==> r == chord
      invariant lower != upper ==> Least(bounds, lower, upper, chord, ilower + 1, i, r)
    {
      var f := KeyFraction(i, segments, timeRange.lower, timeRange.upper);
      KeyFractionScaled(i, segments, timeRange.lower, timeRange.upper);
      LeastStep(bounds, lower, upper, chord, ilower + 1, i, r);
      r := Widen(r, f, bounds[i]);
      i := i + 1;
    }
    if lower != upper && iupper < i { LeastOfNone(bounds, lower, upper, chord, ilower + 1, i, iupper, r); }
    RangeFits(bounds, lower, upper, segments, r);
    ok := true;
  }

  /** Before the loop: the two ends are computed rightly. */
  lemma RangeStart(keys: seq<Box>, lower: real, upper: real, segments: nat)
    requires |keys| == segments + 1 && 0 <= lower.Floor < segments && 1 <= Ceil(upper) <= segments
    ensures var ilower, iupper := lower.Floor, Ceil(upper);
      Chord(keys, lower, upper) == LBBox(Lerp(keys[ilower], keys[ilower + 1], lower - ilower as real),
                                         Lerp(keys[iupper], keys[iupper - 1], iupper as real - upper))
    ensures lower != upper ==>
      Least(keys, lower, upper, Chord(keys, lower, upper), lower.Floor + 1, lower.Floor + 1, Chord(keys, lower, upper))
  {
    hide Lerp, Motion, Least, Chord;
    ChordIs(keys, lower, upper);
    ChordStart(keys, lower, lower.Floor);
    ChordEnd(keys, upper, Ceil(upper));
    if lower != upper { LeastStart(keys, lower, upper, Chord(keys, lower, upper), lower.Floor + 1); }
  }

  lemma ChordIs(keys: seq<Box>, lo: real, hi: real)
    requires 1 <= |keys|
    ensures Chord(keys, lo, hi) == LBBox(ClampedMotion(keys, lo), ClampedMotion(keys, hi))
  {}

  /** After it: what `r` fits, and that it is conservative for an ordered range. */
  lemma RangeFits(keys: seq<Box>, lower: real, upper: real, segments: nat, r: LBBox)
    requires |keys| == segments + 1 && 0 <= lower.Floor < segments && 1 <= Ceil(upper) <= segments
    requires lower == upper ==> r == Chord(keys, lower, upper)
    requires lower != upper ==> Least(keys, lower, upper, Chord(keys, lower, upper), lower.Floor + 1, Ceil(upper), r)
    ensures Fits(keys, lower, upper, FirstInside(lower), LastInside(upper, segments), r)
    ensures lower <= upper ==> Conservative(keys, lower, upper, r)
  {
    hide Least, Conservative, Inside, Motion, Lerp, CoversAt, Chord;
    InsideClipped(keys, lower, upper);
    if lower <= upper { FitsIsConservative(keys, lower, upper, lower.Floor + 1, Ceil(upper), r); }
  }

  lemma ScaledMono(t: real, u: real, segments: nat)
    requires 1 <= segments
    ensures t <= u ==> Scaled(t, segments) <= Scaled(u, segments)
    ensures t < u ==> Scaled(t, segments) < Scaled(u, segments)
  {
    var s := segments as real;
    assert Scaled(u, segments) - Scaled(t, segments) == (u - t) * s;
    if t < u { assert 0.0 < (u - t) * s; }
  }

  /** The failing inputs: at the two end points keyframes `segments + 1` and -1 are asked for. */
  lemma EndPointsAsk(segments: nat)
    requires 1 <= segments
    ensures var x := Scaled(1.0, segments); Ceil(x) - x.Floor != 1 && x.Floor + 1 == segments + 1
    ensures var x := Scaled(0.0, segments); Ceil(x) - x.Floor != 1 && Ceil(x) - 1 == -1
  {}

  lemma ScaledRange(timeRange: Range, segments: nat)
    ensures var lower, upper := Scaled(timeRange.lower, segments), Scaled(timeRange.upper, segments);
      && (0 <= lower.Floor && lower.Floor + 1 <= segments <==> 1 <= segments && 0.0 <= timeRange.lower < 1.0)
      && (1 <= Ceil(upper) <= segments <==> 1 <= segments && 0.0 < timeRange.upper <= 1.0)
      && (1 <= segments ==> (lower <= upper <==> timeRange.lower <= timeRange.upper))
  {
    if 1 <= segments {
      ScaledMono(0.0, timeRange.lower, segments);
      ScaledMono(timeRange.lower, 0.0, segments);
      ScaledMono(timeRange.lower, 1.0, segments);
      ScaledMono(1.0, timeRange.lower, segments);
      ScaledMono(timeRange.lower, timeRange.upper, segments);
      ScaledMono(timeRange.upper, timeRange.lower, segments);
      ScaledMono(0.0, timeRange.upper, segments);
      ScaledMono(timeRange.upper, 0.0, segments);
      ScaledMono(timeRange.upper, 1.0, segments);
      ScaledMono(1.0, timeRange.upper, segments);
      assert Scaled(0.0, segments) == 0.0 && Scaled(1.0, segments) == segments as real;
    }
  }

  // ------------------------------------------------------------ geometry with its own time range

  /** Global time `t` within the time range of the geometry. */
  function Local(t: real, geom: Range): real
    requires geom.lower < geom.upper
  {
    (t - geom.lower) / (geom.upper - geom.lower)
  }

  lemma LocalIsFraction(t: real, geom: Range)
    requires geom.lower < geom.upper
    ensures Local(t, geom) == Fraction(geom.lower, geom.upper, t)
  {}

  lemma LocalInUnit(t: real, geom: Range)
    requires geom.lower < geom.upper && geom.lower <= t <= geom.upper
    ensures 0.0 <= Local(t, geom) <= 1.0
  {
    WeightInUnit(geom.lower, geom.upper, t);
  }

  /** The box of the geometry at global time `t`. */
  ghost function MotionAt(keys: seq<Box>, geom: Range, t: real): Box
    requires 2 <= |keys| && geom.lower < geom.upper && geom.lower <= t <= geom.upper
  {
    LocalInUnit(t, geom);
    ScaledInside(Local(t, geom), |keys| - 1);
    Motion(keys, Scaled(Local(t, geom), |keys| - 1))
  }

  lemma ScaledInside(t: real, segments: nat)
    requires 1 <= segments && 0.0 <= t <= 1.0
    ensures 0.0 <= Scaled(t, segments) <= segments as real
  {
    ScaledMono(0.0, t, segments);
    ScaledMono(t, 1.0, segments);
  }

  ghost predicate CoversAtTime(keys: seq<Box>, geom: Range, range: Range, r: LBBox, f: real)
    requires 2 <= |keys| && geom.lower < geom.upper
  {
    var t := Mix(range.lower, range.upper, f);
    geom.lower <= t <= geom.upper ==> Within(MotionAt(keys, geom, t), Interpolate(r, f))
  }

  /** At every time that is in both ranges, the box of the geometry is inside. */
  ghost predicate ConservativeInTime(keys: seq<Box>, geom: Range, range: Range, r: LBBox)
    requires 2 <= |keys| && geom.lower < geom.upper
  {
    forall f :: 0.0 <= f <= 1.0 ==> CoversAtTime(keys, geom, range, r, f)
  }

  lemma MixScaled(a: real, b: real, geom: Range, segments: nat, f: real)
    requires geom.lower < geom.upper
    ensures Mix(Scaled(Local(a, geom), segments), Scaled(Local(b, geom), segments), f) ==
      Scaled(Local(Mix(a, b, f), geom), segments)
  {
    var d, g, s := geom.upper - geom.lower, geom.lower, segments as real;
    var p, q := Local(a, geom), Local(b, geom);
    assert p * d == a - g && q * d == b - g;
    assert Mix(p, q, f) * d == (1.0 - f) * (p * d) + f * (q * d);
    assert Mix(p, q, f) * d == Mix(a, b, f) - g;
    DivideOut(Mix(p, q, f), d, Mix(a, b, f) - g);
    assert Mix(p, q, f) == Local(Mix(a, b, f), geom);
    assert Mix(p * s, q * s, f) == Mix(p, q, f) * s;
  }

  lemma DivideOut(x: real, d: real, y: real)
    requires d != 0.0 && x * d == y
    ensures x == y / d
  {}

  lemma ConservativeAllTimes(keys: seq<Box>, geom: Range, range: Range, r: LBBox)
    requires 2 <= |keys| && geom.lower < geom.upper
    requires Conservative(keys, Scaled(Local(range.lower, geom), |keys| - 1),
                          Scaled(Local(range.upper, geom), |keys| - 1), r)
    ensures ConservativeInTime(keys, geom, range, r)
  {
    hide Motion, Mix, Lerp, Scaled, Local;
    var lo, hi := Scaled(Local(range.lower, geom), |keys| - 1), Scaled(Local(range.upper, geom), |keys| - 1);
    forall f | 0.0 <= f <= 1.0 ensures CoversAtTime(keys, geom, range, r, f) {
      var t := Mix(range.lower, range.upper, f);
      assert CoversAt(keys, lo, hi, r, f);
      MixScaled(range.lower, range.upper, geom, |keys| - 1, f);
      if geom.lower <= t <= geom.upper {
        LocalInUnit(t, geom);
        ScaledInside(Local(t, geom), |keys| - 1);
      }
    }
  }

  function ClippedLower(lo: real): int {
    if lo.Floor < 0 then 0 else lo.Floor
  }

  function ClippedUpper(hi: real, segments: nat): int {
    if Ceil(hi) <= segments then Ceil(hi) else segments
  }

  /** Between two neighbouring keyframes the chord is the motion itself. */
  lemma SameSegment(keys: seq<Box>, lo: real, hi: real, k: nat)
    requires k + 1 < |keys| && k as real <= lo <= (k + 1) as real && k as real <= hi <= (k + 1) as real
    ensures Conservative(keys, lo, hi, Chord(keys, lo, hi))
  {
    hide Motion, Lerp, CoversAt, Chord;
    ChordEnds(keys, lo, hi);
    forall f | 0.0 <= f <= 1.0 ensures CoversAt(keys, lo, hi, Chord(keys, lo, hi), f) {
      MixEnds(lo, hi);
      MixSame(k as real, f);
      MixSame((k + 1) as real, f);
      MixMono(k as real, k as real, lo, hi, f);
      MixMono(lo, hi, (k + 1) as real, (k + 1) as real, f);
      hide Mix;
      CoversBetween(keys, lo, hi, Chord(keys, lo, hi), k, 0.0, f, 1.0);
    }
  }

  /** With the early return the range lies in one segment; otherwise it is a proper one. */
  lemma EarlyReturn(lo: real, hi: real, segments: nat)
    requires ClippedLower(lo) < ClippedUpper(hi, segments)
    ensures 0 <= ClippedLower(lo) < segments
    ensures LastInside(hi, segments) - FirstInside(lo) == 0 ==>
      var k := ClippedLower(lo); k as real <= lo <= (k + 1) as real && k as real <= hi <= (k + 1) as real
    ensures LastInside(hi, segments) - FirstInside(lo) == 0 ==> ClippedUpper(hi, segments) == ClippedLower(lo) + 1
    ensures LastInside(hi, segments) - FirstInside(lo) != 0 ==> lo < hi && FirstInside(lo) < LastInside(hi, segments)
  {}

  /**
   * For a global time range that may stick out of the time range of the geometry on either side. The second
   * requirement is the assertion of the source; the range may even be empty or turned around.
   */
  method ForGeometry(bounds: seq<Box>, rangeIn: Range, geom: Range, segments: nat) returns (r: LBBox)
    requires |bounds| == segments + 1 && geom.lower < geom.upper
    requires var lo, hi := Scaled(Local(rangeIn.lower, geom), segments), Scaled(Local(rangeIn.upper, geom), segments);
      ClippedUpper(hi, segments) - ClippedLower(lo) > 0
    ensures var lo, hi := Scaled(Local(rangeIn.lower, geom), segments), Scaled(Local(rangeIn.upper, geom), segments);
      Fits(bounds, lo, hi, FirstInside(lo), LastInside(hi, segments), r)
    ensures 1 <= segments && ConservativeInTime(bounds, geom, rangeIn, r)
  {
    hide Least, Conservative, ConservativeInTime, Inside, Widen, Motion, Mix, Lerp, CoversAt;
    hide Scaled, KeyFraction, Fraction, Local;
    var timeRange := Range(Local(rangeIn.lower, geom), Local(rangeIn.upper, geom));
    var lower, upper := Scaled(timeRange.lower, segments), Scaled(timeRange.upper, segments);
    var ilowerc, iupperc := ClippedLower(lower), ClippedUpper(upper, segments);
    var ilowerIter, iupperIter := FirstInside(lower) - 1, LastInside(upper, segments);
    EarlyReturn(lower, upper, segments);
    var blower0, bupper1 := bounds[ilowerc], bounds[iupperc];
    ghost var chord := Chord(bounds, lower, upper);
    ChordStart(bounds, lower, ilowerc);
    ChordEnd(bounds, upper, iupperc);
    InsideClipped(bounds, lower, upper);
    if lower != upper { LeastStart(bounds, lower, upper, chord, ilowerIter + 1); }
    if iupperIter - ilowerIter == 1 {
      r := LBBox(Lerp(blower0, bupper1, Max(0.0, lower - ilowerc as real)),
                 Lerp(bupper1, blower0, Max(0.0, iupperc as real - upper)));
      SameSegment(bounds, lower, upper, ilowerc);
      ConservativeAllTimes(bounds, geom, rangeIn, r);
      return;
    }
    var blower1, bupper0 := bounds[ilowerc + 1], bounds[iupperc - 1];
    r := LBBox(Lerp(blower0, blower1, Max(0.0, lower - ilowerc as real)),
               Lerp(bupper1, bupper0, Max(0.0, iupperc as real - upper)));
    for i := ilowerIter + 1 to iupperIter
      invariant Least(bounds, lower, upper, chord, ilowerIter + 1, i, r)
    {
      var f := KeyFraction(i, segments, timeRange.lower, timeRange.upper);
      KeyFractionScaled(i, segments, timeRange.lower, timeRange.upper);
      LeastStep(bounds, lower, upper, chord, ilowerIter + 1, i, r);
      r := Widen(r, f, bounds[i]);
    }
    FitsIsConservative(bounds, lower, upper, ilowerIter + 1, iupperIter, r);
    ConservativeAllTimes(bounds, geom, rangeIn, r);
  }

  // ------------------------------------------------------------ changing the time range

  function InterpolateRange(l: LBBox, dt: Range): LBBox {
    LBBox(Interpolate(l, dt.lower), Interpolate(l, dt.upper))
  }

  /** Global time `t` in the local time of `dt`. */
  function LocalIn(dt: Range, t: real): real
    requires dt.lower != dt.upper
  {
    var rcp := 1.0 / (dt.upper - dt.lower);
    (t - dt.lower) * rcp
  }

  /** From bounds over `dt` to bounds over `[0, 1]`. */
  function Global(l: LBBox, dt: Range): LBBox
    requires dt.lower != dt.upper
  {
    LBBox(Interpolate(l, LocalIn(dt, 0.0)), Interpolate(l, LocalIn(dt, 1.0)))
  }

  lemma InterpolateWithin(l: LBBox, dt: Range, f: real)
    ensures Interpolate(InterpolateRange(l, dt), f) == Interpolate(l, Mix(dt.lower, dt.upper, f))
  {
    LerpLerp(l.bounds0, l.bounds1, dt.lower, dt.upper, f);
  }

  /** The global bounds at time `t` are the local ones at the local time of `t`. */
  lemma GlobalAt(l: LBBox, dt: Range, t: real)
    requires dt.lower != dt.upper
    ensures Interpolate(Global(l, dt), t) == Interpolate(l, Fraction(dt.lower, dt.upper, t))
  {
    hide Lerp, Mix, LocalIn, Fraction;
    LerpLerp(l.bounds0, l.bounds1, LocalIn(dt, 0.0), LocalIn(dt, 1.0), t);
    LocalMix(dt, t);
    LocalInIsFraction(dt, t);
  }

  lemma LocalMix(dt: Range, t: real)
    requires dt.lower != dt.upper
    ensures Mix(LocalIn(dt, 0.0), LocalIn(dt, 1.0), t) == LocalIn(dt, t)
  {
    AffineMix(dt.lower, 1.0 / (dt.upper - dt.lower), t);
  }

  lemma AffineMix(lower: real, rcp: real, t: real)
    ensures Mix((0.0 - lower) * rcp, (1.0 - lower) * rcp, t) == (t - lower) * rcp
  {}

  lemma LocalInIsFraction(dt: Range, t: real)
    requires dt.lower != dt.upper
    ensures LocalIn(dt, t) == Fraction(dt.lower, dt.upper, t)
  {
    Reciprocal(t - dt.lower, dt.upper - dt.lower, 1.0 / (dt.upper - dt.lower));
  }

  lemma Reciprocal(x: real, size: real, rcp: real)
    requires size != 0.0 && rcp == 1.0 / size
    ensures x * rcp == x / size
  {
    assert rcp * size == 1.0;
    assert (x * rcp) * size == x * (rcp * size);
    DivideOut(x * rcp, size, x);
  }

  /** Going to global bounds and cutting out the range again changes nothing, and the other way round. */
  lemma GlobalRoundTrip(l: LBBox, dt: Range)
    requires dt.lower != dt.upper
    ensures InterpolateRange(Global(l, dt), dt) == l
    ensures Global(InterpolateRange(l, dt), dt) == l
  {
    hide Lerp, Mix, Fraction;
    GlobalAt(l, dt, dt.lower);
    GlobalAt(l, dt, dt.upper);
    FractionEnds(dt.lower, dt.upper);
    LerpEnds(l.bounds0, l.bounds1);
    var m := InterpolateRange(l, dt);
    var g := Global(m, dt);
    GlobalAt(m, dt, 0.0);
    GlobalAt(m, dt, 1.0);
    InterpolateWithin(l, dt, Fraction(dt.lower, dt.upper, 0.0));
    InterpolateWithin(l, dt, Fraction(dt.lower, dt.upper, 1.0));
    MixFraction(dt.lower, dt.upper, 0.0);
    MixFraction(dt.lower, dt.upper, 1.0);
    LerpEnds(g.bounds0, g.bounds1);
  }

  lemma FractionEnds(lo: real, hi: real)
    requires lo != hi
    ensures Fraction(lo, hi, lo) == 0.0 && Fraction(lo, hi, hi) == 1.0
  {
    MixEnds(lo, hi);
    FractionMix(lo, hi, 0.0);
    FractionMix(lo, hi, 1.0);
  }

  ghost predicate CoversLinear(l: LBBox, lo: real, hi: real, r: LBBox, f: real) {
    var x := Mix(lo, hi, f);
    0.0 <= x <= 1.0 ==> Within(Interpolate(l, x), Interpolate(r, f))
  }

  lemma CoversLinearBetween(l: LBBox, lo: real, hi: real, r: LBBox, f0: real, f: real, f1: real)
    requires f0 <= f <= f1 && CoversLinear(l, lo, hi, r, f0) && CoversLinear(l, lo, hi, r, f1)
    requires 0.0 <= Mix(lo, hi, f0) <= 1.0 && 0.0 <= Mix(lo, hi, f1) <= 1.0
    ensures CoversLinear(l, lo, hi, r, f)
  {
    hide Lerp, Mix, Fraction;
    if f0 < f1 {
      var w := Fraction(f0, f1, f);
      MixFraction(f0, f1, f);
      WeightInUnit(f0, f1, f);
      var x0, x1 := Mix(lo, hi, f0), Mix(lo, hi, f1);
      MixMix(lo, hi, f0, f1, w);
      LerpLerp(l.bounds0, l.bounds1, x0, x1, w);
      LerpLerp(r.bounds0, r.bounds1, f0, f1, w);
      LerpWithin(Interpolate(l, x0), Interpolate(l, x1), Interpolate(r, f0), Interpolate(r, f1), w);
    }
  }

  /** The box that is put inside at local time `x` (0 or 1) stays there. */
  lemma TargetPoint(l: LBBox, lo: real, hi: real, b: LBBox, x: real, box: Box)
    requires lo < hi && box == Interpolate(l, x)
    ensures CoversLinear(l, lo, hi, Widen(b, Fraction(lo, hi, x), box), Fraction(lo, hi, x))
  {
    hide Lerp, Mix, Fraction, Widen;
    MixFraction(lo, hi, x);
    WidenCovers(b, Fraction(lo, hi, x), box, 0.0, box);
  }

  lemma TargetKeeps(l: LBBox, lo: real, hi: real, b: LBBox, g: real, box: Box, f: real)
    requires CoversLinear(l, lo, hi, b, f)
    ensures CoversLinear(l, lo, hi, Widen(b, g, box), f)
  {
    hide Lerp, Mix, Widen;
    WidenCovers(b, g, box, f, Interpolate(l, Mix(lo, hi, f)));
  }

  lemma TargetEnds(l: LBBox, lo: real, hi: real, b: LBBox)
    requires b == LBBox(Interpolate(l, Max(0.0, lo)), Interpolate(l, Min(1.0, hi)))
    ensures 0.0 <= lo ==> CoversLinear(l, lo, hi, b, 0.0)
    ensures hi <= 1.0 ==> CoversLinear(l, lo, hi, b, 1.0)
  {
    MixEnds(lo, hi);
    LerpEnds(b.bounds0, b.bounds1);
    hide Lerp, Mix;
  }

  lemma TargetCovered(l: LBBox, lo: real, hi: real, b: LBBox, w: LBBox, r: LBBox, f: real)
    requires lo < hi && 0.0 <= f <= 1.0
    requires b == LBBox(Interpolate(l, Max(0.0, lo)), Interpolate(l, Min(1.0, hi)))
    requires w == Widen(b, Fraction(lo, hi, 0.0), l.bounds0) && r == Widen(w, Fraction(lo, hi, 1.0), l.bounds1)
    ensures CoversLinear(l, lo, hi, r, f)
  {
    hide Lerp, Mix, Fraction, Widen, CoversLinear;
    var x, f0, f1 := Mix(lo, hi, f), Fraction(lo, hi, 0.0), Fraction(lo, hi, 1.0);
    if 0.0 <= x <= 1.0 {
      LerpEnds(l.bounds0, l.bounds1);
      MixEnds(lo, hi);
      MixInside(lo, hi, f);
      MixFraction(lo, hi, 0.0);
      MixFraction(lo, hi, 1.0);
      FractionMix(lo, hi, f);
      FractionMono(lo, hi, 0.0, x);
      FractionMono(lo, hi, x, 1.0);
      TargetEnds(l, lo, hi, b);
      if 0.0 <= lo {
        TargetKeeps(l, lo, hi, b, f0, l.bounds0, 0.0);
        TargetKeeps(l, lo, hi, w, f1, l.bounds1, 0.0);
      } else {
        TargetPoint(l, lo, hi, b, 0.0, l.bounds0);
        TargetKeeps(l, lo, hi, w, f1, l.bounds1, f0);
      }
      if hi <= 1.0 {
        TargetKeeps(l, lo, hi, b, f0, l.bounds0, 1.0);
        TargetKeeps(l, lo, hi, w, f1, l.bounds1, 1.0);
      } else {
        TargetPoint(l, lo, hi, w, 1.0, l.bounds1);
      }
      CoversLinearBetween(l, lo, hi, r, if 0.0 <= lo then 0.0 else f0, f, if hi <= 1.0 then 1.0 else f1);
    } else {
      Outside(l, lo, hi, r, f);
    }
  }

  lemma Outside(l: LBBox, lo: real, hi: real, r: LBBox, f: real)
    requires !(0.0 <= Mix(lo, hi, f) <= 1.0)
    ensures CoversLinear(l, lo, hi, r, f)
  {}

  lemma WidenNothing(l: LBBox, f: real, box: Box)
    requires Interpolate(l, f) == box
    ensures Widen(l, f, box) == l
  {}

  lemma TargetExact(l: LBBox, timeRange: Range, b: LBBox, w: LBBox, r: LBBox)
    requires timeRange.lower < timeRange.upper && b == InterpolateRange(l, timeRange)
    requires w == Widen(b, Fraction(timeRange.lower, timeRange.upper, 0.0), l.bounds0)
    requires r == Widen(w, Fraction(timeRange.lower, timeRange.upper, 1.0), l.bounds1)
    ensures r == b
  {
    hide Lerp, Mix, Fraction, Widen;
    var lo, hi := timeRange.lower, timeRange.upper;
    LerpEnds(l.bounds0, l.bounds1);
    InterpolateWithin(l, timeRange, Fraction(lo, hi, 0.0));
    MixFraction(lo, hi, 0.0);
    WidenNothing(b, Fraction(lo, hi, 0.0), l.bounds0);
    InterpolateWithin(l, timeRange, Fraction(lo, hi, 1.0));
    MixFraction(lo, hi, 1.0);
    WidenNothing(b, Fraction(lo, hi, 1.0), l.bounds1);
  }

  lemma LocalOrder(target: Range, geom: Range)
    requires geom.lower < geom.upper && target.lower < target.upper
    ensures Local(target.lower, geom) < Local(target.upper, geom)
  {
    hide Fraction;
    FractionMono(geom.lower, geom.upper, target.lower, target.upper);
    MixFraction(geom.lower, geom.upper, target.lower);
    MixFraction(geom.lower, geom.upper, target.upper);
    LocalIsFraction(target.lower, geom);
    LocalIsFraction(target.upper, geom);
  }

  /** The box is inside the bounds at fraction `f`. */
  ghost predicate HoldsAt(l: LBBox, f: real, box: Box) {
    Within(box, Interpolate(l, f))
  }

  /**
   * `r` is `base` moved outward, holds the two boxes at the two fractions, and any other way to move `base` outward so
   * that it does moves it at least as far.
   */
  ghost predicate LeastForTwo(base: LBBox, f0: real, box0: Box, f1: real, box1: Box, r: LBBox) {
    && r == Shift(base, Offset(base, r)) && Outward(Offset(base, r))
    && HoldsAt(r, f0, box0) && HoldsAt(r, f1, box1)
    && forall d :: Outward(d) && HoldsAt(Shift(base, d), f0, box0) && HoldsAt(Shift(base, d), f1, box1) ==>
         Within(Offset(base, r), d)
  }

  lemma WidenTwice(base: LBBox, f0: real, box0: Box, f1: real, box1: Box)
    ensures LeastForTwo(base, f0, box0, f1, box1, Widen(Widen(base, f0, box0), f1, box1))
  {
    hide Lerp, Widen;
    var w := Widen(base, f0, box0);
    var r := Widen(w, f1, box1);
    WidenIsShift(base, base, f0, box0);
    WidenIsShift(base, w, f1, box1);
    WidenCovers(base, f0, box0, f0, box0);
    WidenCovers(w, f1, box1, f0, box0);
    forall d | Outward(d) && HoldsAt(Shift(base, d), f0, box0) && HoldsAt(Shift(base, d), f1, box1)
      ensures Within(Offset(base, r), d)
    {
      WidenLeast(base, base, f0, box0, d);
      WidenLeast(base, w, f1, box1, d);
    }
  }

  /** Linear bounds `l` over `rangeIn`, rebuilt for the time range `target`. */
  method ForTarget(rangeIn: Range, l: LBBox, target: Range) returns (r: LBBox)
    requires rangeIn.lower < rangeIn.upper && target.lower < target.upper
    ensures var lo, hi := Local(target.lower, rangeIn), Local(target.upper, rangeIn);
      && (forall f :: 0.0 <= f <= 1.0 ==> CoversLinear(l, lo, hi, r, f))
      && (0.0 <= lo && hi <= 1.0 ==> r == InterpolateRange(l, Range(lo, hi)))
    ensures var lo, hi := Local(target.lower, rangeIn), Local(target.upper, rangeIn);
      && lo < hi
      && LeastForTwo(LBBox(Interpolate(l, Max(0.0, lo)), Interpolate(l, Min(1.0, hi))),
                     Fraction(lo, hi, 0.0), l.bounds0, Fraction(lo, hi, 1.0), l.bounds1, r)
  {
    hide Local, Lerp, Mix, Widen, Fraction, CoversLinear, LeastForTwo;
    var timeRange := Range(Local(target.lower, rangeIn), Local(target.upper, rangeIn));
    LocalOrder(target, rangeIn);
    var clipped := Range(Max(0.0, timeRange.lower), Min(1.0, timeRange.upper));
    var b := LBBox(Lerp(l.bounds0, l.bounds1, clipped.lower), Lerp(l.bounds0, l.bounds1, clipped.upper));
    var f0 := Fraction(timeRange.lower, timeRange.upper, 0.0);
    var w := Widen(b, f0, l.bounds0);
    var f1 := Fraction(timeRange.lower, timeRange.upper, 1.0);
    r := Widen(w, f1, l.bounds1);
    WidenTwice(b, f0, l.bounds0, f1, l.bounds1);
    forall f | 0.0 <= f <= 1.0 ensures CoversLinear(l, timeRange.lower, timeRange.upper, r, f) {
      TargetCovered(l, timeRange.lower, timeRange.upper, b, w, r, f);
    }
    if 0.0 <= timeRange.lower && timeRange.upper <= 1.0 {
      TargetExact(l, timeRange, b, w, r);
    }
  }
}

/** From transcript segments to censor intervals, through floating-point seconds
    (src/core/timestamp_coordinator.cpp, src/core/match_planner.cpp). */
module TimestampPlanner {
  import opened Wrappers
  import opened AudioTimeline
  import C = CensorScheduler
  import M = PhraseMatcher

  const RATE_LIMIT: int := 0x1_0000_0000

  // Twice 2^50: the largest frame numbers for which two rounding errors of 2^-53 stay below one half.
  const FRAME_LIMIT: int := 0x8_0000_0000_0000

  // 2^53: every int64 frame up to it is a double.
  const DOUBLE_LIMIT: int := 0x20_0000_0000_0000

  const UNIT: real := 1.0 / 9007199254740992.0

  datatype Number = Finite(value: real) | NotFinite

  // The two floating-point operations of the trip: frame / rate, and seconds * rate.
  datatype Arithmetic = Arithmetic(divide: (int, nat) -> Number, times: (real, nat) -> Number)

  datatype TimestampConfig = TimestampConfig(sampleRate: nat, delayFrames: int)

  datatype Segment = Segment(startFrame: int, endFrame: int, text: M.Text)

  datatype Speech = Speech(start: Number, end: Number)

  function Normalized(c: TimestampConfig): TimestampConfig
  {
    TimestampConfig(if c.sampleRate == 0 then 48000 else c.sampleRate, if c.delayFrames < 0 then 0 else c.delayFrames)
  }

  /** std::round: to the nearest integer, halves away from zero. */
  function RoundHalfAway(x: real): int
  {
    if x >= 0.0 then (x + 0.5).Floor else -(0.5 - x).Floor
  }

  function RoundSecondsToFrames(a: Arithmetic, seconds: Number, rate: nat): (frames: Option<int>)
    ensures frames.Some? ==> 0 <= frames.value <= INT64_MAX
  {
    if seconds.NotFinite? || seconds.value < 0.0 || rate == 0 then None
    else
      var scaled := a.times(seconds.value, rate);
      if scaled.NotFinite? then None
      else
        var rounded := RoundHalfAway(scaled.value);
        if rounded < 0 || rounded > INT64_MAX then None else Some(rounded)
  }

  /** to_interval: only non-empty intervals of non-negative int64 frames come out, whatever the arithmetic. */
  function ToInterval(a: Arithmetic, c: TimestampConfig, s: Speech): (r: Option<Interval>)
    ensures r.Some? ==> r.value.startFrame < r.value.endFrame && 0 <= r.value.startFrame
    ensures r.Some? && c.delayFrames >= 0 ==> c.delayFrames <= r.value.startFrame && r.value.endFrame <= INT64_MAX
  {
    if
      c.sampleRate == 0 || s.start.NotFinite? || s.end.NotFinite? || s.start.value < 0.0 ||
      s.end.value <= s.start.value
    then None
    else
      var start, end := RoundSecondsToFrames(a, s.start, c.sampleRate), RoundSecondsToFrames(a, s.end, c.sampleRate);
      if start.None? || end.None? then None
      else
        var delayedStart, delayedEnd := AddFrames(start.value, c.delayFrames), AddFrames(end.value, c.delayFrames);
        if delayedStart.None? || delayedEnd.None? || delayedStart.value < 0 || delayedEnd.value <= delayedStart.value
        then None
        else Some(Interval(delayedStart.value, delayedEnd.value))
  }

  // ---- the rounding bound -------------------------------------------------------------------------------

  function Abs(x: real): real { if x < 0.0 then -x else x }

  /** The exact results the two operations round. */
  function Quotient(f: int, r: nat): real
    requires r > 0
  {
    f as real / r as real
  }

  function Product(x: real, r: nat): real { x * r as real }

  /** Relative error at most 2^-53 (section 4.3 of IEEE 754-2019, rounding to nearest in binary64 or wider). */
  predicate Near(rounded: Number, exact: real)
  {
    rounded.Finite? && Abs(rounded.value - exact) <= UNIT * exact
  }

  /** Values whose product with a rate neither underflows nor overflows a double. */
  predicate Scalable(x: real)
  {
    x == 0.0 || 1.0 / 1099511627776.0 <= x <= INT64_MAX as real * 2.0
  }

  /** A frame above 2^53 is rounded to a double before it is divided, so its quotient carries two errors. */
  predicate NearTwice(rounded: Number, exact: real)
  {
    rounded.Finite? && Abs(rounded.value - exact) <= 3.0 * UNIT * exact
  }

  ghost predicate RoundsCorrectly(a: Arithmetic)
  {
    (forall f: int, r: nat :: DOUBLE_LIMIT < f <= INT64_MAX && 0 < r < RATE_LIMIT ==>
      NearTwice(a.divide(f, r), Quotient(f, r))) &&
    (forall f: int, r: nat :: 0 <= f <= DOUBLE_LIMIT && 0 < r < RATE_LIMIT ==> Near(a.divide(f, r), Quotient(f, r))) &&
    (forall x: real, r: nat :: Scalable(x) && 0 < r < RATE_LIMIT ==> Near(a.times(x, r), Product(x, r)))
  }

  // Real division and multiplication, which round nothing.
  const EXACT := Arithmetic(
    (f: int, r: nat) => if r == 0 then NotFinite else Finite(Quotient(f, r)),
    (x: real, r: nat) => Finite(Product(x, r)))

  /** The assumption can be met: exact arithmetic meets it with room to spare. */
  lemma ExactArithmeticRoundsCorrectly()
    ensures RoundsCorrectly(EXACT)
  {
    forall f: int, r: nat | 0 <= f <= DOUBLE_LIMIT && 0 < r < RATE_LIMIT
      ensures Near(EXACT.divide(f, r), Quotient(f, r))
    {
      QuotientBounds(f, r);
    }
    forall f: int, r: nat | DOUBLE_LIMIT < f <= INT64_MAX && 0 < r < RATE_LIMIT
      ensures NearTwice(EXACT.divide(f, r), Quotient(f, r))
    {
      QuotientBounds(f, r);
    }
    forall x: real, r: nat | Scalable(x) && 0 < r < RATE_LIMIT
      ensures Near(EXACT.times(x, r), Product(x, r))
    {
      ProductsOrder(0.0, x, r as real);
    }
  }

  lemma ProductsOrder(x: real, y: real, k: real)
    requires x <= y && 0.0 <= k
    ensures x * k <= y * k
  {
  }

  /** Scaling the quotient back by the rate, exactly: the relative error stays. */
  lemma ErrorScales(v: real, f: int, r: nat)
    requires 0 <= f && 0 < r && Near(Finite(v), Quotient(f, r))
    ensures Abs(Product(v, r) - f as real) <= UNIT * f as real
  {
    var q, k := f as real / r as real, r as real;
    assert q * k == f as real;
    ErrorTimes(v, q, k);
  }

  lemma ErrorTimes(v: real, q: real, k: real)
    requires 0.0 <= k && Abs(v - q) <= UNIT * q
    ensures Abs(v * k - q * k) <= UNIT * (q * k)
  {
    ProductsOrder(v - q, UNIT * q, k);
    ProductsOrder(q - v, UNIT * q, k);
    assert (UNIT * q) * k == UNIT * (q * k);
    assert (v - q) * k == v * k - q * k;
    assert (q - v) * k == q * k - v * k;
  }

  lemma QuotientBounds(f: int, r: nat)
    requires 0 <= f && 0 < r < RATE_LIMIT
    ensures 0.0 <= Quotient(f, r) <= f as real
    ensures f > 0 ==> Quotient(f, r) >= 1.0 / RATE_LIMIT as real
    ensures f == 0 ==> Quotient(f, r) == 0.0
  {
    var q, k := Quotient(f, r), r as real;
    assert q * k == f as real;
    if q < 0.0 {
      ProductsOrder(q, 0.0, k);
    }
    if q > f as real {
      ProductsOrder(1.0, k, q);
    }
    if f > 0 && q < 1.0 / RATE_LIMIT as real {
      ProductsOrder(k, RATE_LIMIT as real, q);
    }
  }

  lemma QuotientIsScalable(a: Arithmetic, f: int, r: nat)
    requires RoundsCorrectly(a) && 0 <= f <= DOUBLE_LIMIT && 0 < r < RATE_LIMIT
    ensures a.divide(f, r).Finite? && Scalable(a.divide(f, r).value) && 0.0 <= a.divide(f, r).value
    ensures Near(a.divide(f, r), Quotient(f, r))
  {
    QuotientBounds(f, r);
    assert Near(a.divide(f, r), Quotient(f, r));
  }

  /** A frame below 2^51 comes back from seconds unchanged, for every non-zero 32-bit sample rate. */
  lemma FrameSurvives(a: Arithmetic, f: int, r: nat)
    requires RoundsCorrectly(a) && 0 <= f < FRAME_LIMIT && 0 < r < RATE_LIMIT
    ensures RoundSecondsToFrames(a, a.divide(f, r), r) == Some(f)
  {
    QuotientIsScalable(a, f, r);
    var v := a.divide(f, r).value;
    ErrorScales(v, f, r);
    TimesIsNear(a, v, r);
    hide Abs, RoundHalfAway, Quotient, Product;
    StillNearest(a.times(v, r).value, Product(v, r), f);
  }

  lemma TimesIsNear(a: Arithmetic, x: real, r: nat)
    requires RoundsCorrectly(a) && Scalable(x) && 0 < r < RATE_LIMIT
    ensures a.times(x, r).Finite? && Abs(a.times(x, r).value - Product(x, r)) <= UNIT * Product(x, r)
  {
    assert Near(a.times(x, r), Product(x, r));
  }

  lemma StillNearest(m: real, p: real, f: int)
    requires 0 <= f < FRAME_LIMIT
    requires Abs(p - f as real) <= UNIT * f as real && Abs(m - p) <= UNIT * p
    ensures RoundHalfAway(m) == f
  {
    assert Abs(m - f as real) < 0.5;
    assert f == 0 ==> m == 0.0;
  }

  // Both operations off by the whole allowed error, upwards.
  const HIGH := Arithmetic(
    (f: int, r: nat) => if r == 0 then NotFinite else Finite(Quotient(f, r) * (1.0 + UNIT)),
    (x: real, r: nat) => Finite(Product(x, r) * (1.0 + UNIT)))

  lemma HighRoundsCorrectly()
    ensures RoundsCorrectly(HIGH)
  {
    forall f: int, r: nat | 0 <= f <= DOUBLE_LIMIT && 0 < r < RATE_LIMIT
      ensures Near(HIGH.divide(f, r), Quotient(f, r))
    {
      QuotientBounds(f, r);
    }
    forall f: int, r: nat | DOUBLE_LIMIT < f <= INT64_MAX && 0 < r < RATE_LIMIT
      ensures NearTwice(HIGH.divide(f, r), Quotient(f, r))
    {
      QuotientBounds(f, r);
    }
    forall x: real, r: nat | Scalable(x) && 0 < r < RATE_LIMIT
      ensures Near(HIGH.times(x, r), Product(x, r))
    {
      ProductsOrder(0.0, x, r as real);
    }
  }

  lemma HighLosesFrame(f: int, r: nat)
    requires FRAME_LIMIT <= f <= DOUBLE_LIMIT && 0 < r < RATE_LIMIT
    ensures RoundSecondsToFrames(HIGH, HIGH.divide(f, r), r) != Some(f)
  {
    QuotientBounds(f, r);
    var q, k := f as real / r as real, r as real;
    assert q * k == f as real;
    var v := q * (1.0 + UNIT);
    assert HIGH.divide(f, r) == Finite(v);
    assert v * k == (q * k) * (1.0 + UNIT);
    assert Product(v, r) == f as real * (1.0 + UNIT);
    RoundsUp(f, f as real * (1.0 + UNIT) * (1.0 + UNIT));
  }

  lemma RoundsUp(f: int, m: real)
    requires f >= FRAME_LIMIT && m == f as real * (1.0 + UNIT) * (1.0 + UNIT)
    ensures RoundHalfAway(m) > f
  {
    assert m >= f as real + 2.0 * UNIT * f as real;
    assert 2.0 * UNIT * f as real >= 0.5;
  }

  /** The bound is exact: under this assumption on the arithmetic, and no other, a frame is sure to come back if and
      only if it is below 2^51. */
  lemma FrameSurvivesExactlyBelowLimit(f: int, r: nat)
    requires 0 <= f <= DOUBLE_LIMIT && 0 < r < RATE_LIMIT
    ensures f < FRAME_LIMIT <==>
      forall a: Arithmetic :: RoundsCorrectly(a) ==> RoundSecondsToFrames(a, a.divide(f, r), r) == Some(f)
  {
    hide RoundSecondsToFrames, RoundsCorrectly;
    if f < FRAME_LIMIT {
      forall a: Arithmetic | RoundsCorrectly(a) ensures RoundSecondsToFrames(a, a.divide(f, r), r) == Some(f) {
        FrameSurvives(a, f, r);
      }
    } else {
      HighRoundsCorrectly();
      HighLosesFrame(f, r);
    }
  }

  /** Distinct frames stay distinct and ordered as seconds. */
  lemma SecondsKeepOrder(a: Arithmetic, s: int, e: int, r: nat)
    requires RoundsCorrectly(a) && 0 <= s < e < FRAME_LIMIT && 0 < r < RATE_LIMIT
    ensures a.divide(s, r).Finite? && a.divide(e, r).Finite? && a.divide(s, r).value < a.divide(e, r).value
  {
    QuotientIsScalable(a, s, r);
    QuotientIsScalable(a, e, r);
    hide RoundsCorrectly, Abs, Quotient, Product;
    var v, w := a.divide(s, r).value, a.divide(e, r).value;
    ErrorScales(v, s, r);
    ErrorScales(w, e, r);
    StillOrdered(Product(v, r), Product(w, r), s, e);
    ProductReflectsOrder(v, w, r);
  }

  lemma ProductReflectsOrder(v: real, w: real, r: nat)
    requires Product(v, r) < Product(w, r)
    ensures v < w
  {
    if w <= v {
      ProductsOrder(w, v, r as real);
    }
  }

  lemma StillOrdered(p: real, t: real, s: int, e: int)
    requires 0 <= s < e < FRAME_LIMIT
    requires Abs(p - s as real) <= UNIT * s as real && Abs(t - e as real) <= UNIT * e as real
    ensures p < t
  {
    assert s as real + 1.0 <= e as real;
  }

  function SpeechOf(a: Arithmetic, c: TimestampConfig, startFrame: int, endFrame: int): Speech
  {
    Speech(a.divide(startFrame, c.sampleRate), a.divide(endFrame, c.sampleRate))
  }

  /** A segment's interval is its own frames, shifted once by the delay; it is lost exactly on int64 overflow. */
  lemma IntervalIsShiftedSegment(a: Arithmetic, c: TimestampConfig, s: int, e: int)
    requires RoundsCorrectly(a) && 0 < c.sampleRate < RATE_LIMIT && 0 <= c.delayFrames
    requires 0 <= s < e < FRAME_LIMIT
    ensures ToInterval(a, c, SpeechOf(a, c, s, e)) ==
      if e + c.delayFrames <= INT64_MAX then Some(Interval(s + c.delayFrames, e + c.delayFrames)) else None
  {
    FrameSurvives(a, s, c.sampleRate);
    FrameSurvives(a, e, c.sampleRate);
    SecondsKeepOrder(a, s, e, c.sampleRate);
    QuotientIsScalable(a, s, c.sampleRate);
  }

  // ---- segments beyond the limit ------------------------------------------------------------------------

  lemma QuotientIsUsable(a: Arithmetic, f: int, r: nat)
    requires RoundsCorrectly(a) && 0 <= f <= INT64_MAX && 0 < r < RATE_LIMIT
    ensures NearTwice(a.divide(f, r), Quotient(f, r)) && Scalable(a.divide(f, r).value) && 0.0 <= a.divide(f, r).value
  {
    QuotientBounds(f, r);
    if f <= DOUBLE_LIMIT {
      QuotientIsScalable(a, f, r);
    } else {
      assert NearTwice(a.divide(f, r), Quotient(f, r));
    }
  }

  lemma DoubleErrorScales(v: real, f: int, r: nat)
    requires 0 <= f && 0 < r && NearTwice(Finite(v), Quotient(f, r))
    ensures Abs(Product(v, r) - f as real) <= 3.0 * UNIT * f as real
  {
    var q, k := f as real / r as real, r as real;
    assert q * k == f as real;
    ProductsOrder(v - q, 3.0 * UNIT * q, k);
    ProductsOrder(q - v, 3.0 * UNIT * q, k);
    assert (3.0 * UNIT * q) * k == 3.0 * UNIT * (q * k);
    assert (v - q) * k == v * k - q * k;
    assert (q - v) * k == q * k - v * k;
  }

  /** A frame at 2^51 or later may move, but stays at 2^51 - 1 or later. */
  lemma FarFrameStaysFar(a: Arithmetic, f: int, r: nat)
    requires RoundsCorrectly(a) && FRAME_LIMIT <= f <= INT64_MAX && 0 < r < RATE_LIMIT
    ensures var n := RoundSecondsToFrames(a, a.divide(f, r), r); n.Some? ==> n.value >= FRAME_LIMIT - 1
  {
    QuotientIsUsable(a, f, r);
    var v := a.divide(f, r).value;
    DoubleErrorScales(v, f, r);
    TimesIsNear(a, v, r);
    hide Abs, RoundHalfAway, Quotient, Product;
    NoFurtherThanOne(a.times(v, r).value, Product(v, r), f);
  }

  /** A far frame up to 2^62 converts, and moves up by less than 2^13. */
  lemma FarFrameConverts(a: Arithmetic, f: int, r: nat)
    requires RoundsCorrectly(a) && FRAME_LIMIT <= f <= 0x4000_0000_0000_0000 && 0 < r < RATE_LIMIT
    ensures var n := RoundSecondsToFrames(a, a.divide(f, r), r); n.Some? && n.value <= 0x4000_0000_0000_2000
  {
    QuotientIsUsable(a, f, r);
    var v := a.divide(f, r).value;
    DoubleErrorScales(v, f, r);
    TimesIsNear(a, v, r);
    hide Abs, RoundHalfAway, Quotient, Product;
    NotMuchMore(a.times(v, r).value, Product(v, r), f);
  }

  lemma NotMuchMore(m: real, p: real, f: int)
    requires FRAME_LIMIT <= f <= 0x4000_0000_0000_0000
    requires Abs(p - f as real) <= 3.0 * UNIT * f as real && Abs(m - p) <= UNIT * p
    ensures 0 <= RoundHalfAway(m) <= 0x4000_0000_0000_2000
  {
    assert 0.0 < p <= f as real * (1.0 + 3.0 * UNIT);
    assert 0.0 <= m <= p * (1.0 + UNIT);
    assert p <= 0x4000_0000_0000_0000 as real * (1.0 + 3.0 * UNIT);
  }

  lemma FarSecondsAreLater(a: Arithmetic, s: int, e: int, r: nat)
    requires RoundsCorrectly(a) && 0 <= s < FRAME_LIMIT <= e <= INT64_MAX && 0 < r < RATE_LIMIT
    ensures a.divide(s, r).Finite? && a.divide(e, r).Finite? && a.divide(s, r).value < a.divide(e, r).value
  {
    QuotientIsScalable(a, s, r);
    QuotientIsUsable(a, e, r);
    hide RoundsCorrectly, Abs, Quotient, Product;
    var v, w := a.divide(s, r).value, a.divide(e, r).value;
    ErrorScales(v, s, r);
    DoubleErrorScales(w, e, r);
    FarStillOrdered(Product(v, r), Product(w, r), s, e);
    ProductReflectsOrder(v, w, r);
  }

  lemma FarStillOrdered(p: real, t: real, s: int, e: int)
    requires 0 <= s < FRAME_LIMIT <= e
    requires Abs(p - s as real) <= UNIT * s as real && Abs(t - e as real) <= 3.0 * UNIT * e as real
    ensures p < t
  {
    assert s as real <= FRAME_LIMIT as real - 1.0;
    assert t >= e as real * (1.0 - 3.0 * UNIT) >= FRAME_LIMIT as real * (1.0 - 3.0 * UNIT);
  }

  lemma NoFurtherThanOne(m: real, p: real, f: int)
    requires f >= FRAME_LIMIT && Abs(p - f as real) <= 3.0 * UNIT * f as real && Abs(m - p) <= UNIT * p
    ensures RoundHalfAway(m) >= FRAME_LIMIT - 1
  {
    assert p >= f as real * (1.0 - 3.0 * UNIT);
    assert m >= p * (1.0 - UNIT);
    assert p * (1.0 - UNIT) >= FRAME_LIMIT as real * (1.0 - 3.0 * UNIT) * (1.0 - UNIT) by {
      assert p >= FRAME_LIMIT as real * (1.0 - 3.0 * UNIT);
    }
    assert m >= FRAME_LIMIT as real - 1.0;
  }

  // ---- planning -----------------------------------------------------------------------------------------

  /** The segment is well formed and its text holds a configured phrase. */
  ghost predicate Matching(s: Segment, o: M.Options, originals: seq<M.Text>)
  {
    0 <= s.startFrame < s.endFrame && M.HasMatch(s.text, o, originals)
  }

  ghost function Collected(
    a: Arithmetic, c: TimestampConfig, o: M.Options, originals: seq<M.Text>, q: seq<Segment>): seq<Interval>
  {
    if q == [] then []
    else
      var rest, s := Collected(a, c, o, originals, q[..|q| - 1]), q[|q| - 1];
      var i := ToInterval(a, c, SpeechOf(a, c, s.startFrame, s.endFrame));
      if Matching(s, o, originals) && i.Some? then rest + [i.value] else rest
  }

  /** Where a segment lands: its own frames shifted once by the delay, if that fits int64; only for a segment that
      ends at 2^51 or later, where frames do not survive the trip, what the arithmetic makes of it. */
  function Landing(a: Arithmetic, c: TimestampConfig, s: Segment): Option<Interval>
  {
    if s.endFrame >= FRAME_LIMIT then ToInterval(a, c, SpeechOf(a, c, s.startFrame, s.endFrame))
    else if s.endFrame + c.delayFrames > INT64_MAX then None
    else Some(Interval(s.startFrame + c.delayFrames, s.endFrame + c.delayFrames))
  }

  /** A matching segment censors frame f. */
  ghost predicate Censors(a: Arithmetic, c: TimestampConfig, o: M.Options, originals: seq<M.Text>, s: Segment, f: int)
  {
    Matching(s, o, originals) && Landing(a, c, s).Some? && C.Holds(Landing(a, c, s).value, f)
  }

  ghost function Shifted(
    a: Arithmetic, c: TimestampConfig, o: M.Options, originals: seq<M.Text>, q: seq<Segment>): seq<Interval>
  {
    if q == [] then []
    else
      var rest, s := Shifted(a, c, o, originals, q[..|q| - 1]), q[|q| - 1];
      if Matching(s, o, originals) && Landing(a, c, s).Some? then rest + [Landing(a, c, s).value] else rest
  }

  /** Every well-formed segment is converted to where it lands. */
  lemma SegmentLands(a: Arithmetic, c: TimestampConfig, s: Segment)
    requires RoundsCorrectly(a) && 0 < c.sampleRate < RATE_LIMIT && 0 <= c.delayFrames && 0 <= s.startFrame < s.endFrame
    ensures ToInterval(a, c, SpeechOf(a, c, s.startFrame, s.endFrame)) == Landing(a, c, s)
  {
    hide RoundsCorrectly, ToInterval;
    if s.endFrame < FRAME_LIMIT {
      IntervalIsShiftedSegment(a, c, s.startFrame, s.endFrame);
    }
  }

  /** Wherever its far ends land, a segment that lands at all holds the frames below 2^51 - 1 that it should, and no
      other: whatever the segment, the frames of a chunk are censored exactly. */
  lemma NearFramesAreExact(a: Arithmetic, c: TimestampConfig, s: Segment, f: int)
    requires RoundsCorrectly(a) && 0 < c.sampleRate < RATE_LIMIT && 0 <= c.delayFrames
    requires 0 <= s.startFrame < s.endFrame <= INT64_MAX && f - c.delayFrames < FRAME_LIMIT - 1
    requires Landing(a, c, s).Some?
    ensures C.Holds(Landing(a, c, s).value, f) <==> s.startFrame <= f - c.delayFrames < s.endFrame
  {
    hide RoundsCorrectly, RoundSecondsToFrames;
    if s.endFrame >= FRAME_LIMIT {
      FarFrameStaysFar(a, s.endFrame, c.sampleRate);
      if s.startFrame >= FRAME_LIMIT {
        FarFrameStaysFar(a, s.startFrame, c.sampleRate);
      } else {
        FrameSurvives(a, s.startFrame, c.sampleRate);
      }
    }
  }

  /** And a segment that begins before 2^51 - 1 does land, unless its end comes near the end of int64. */
  lemma NearStartLands(a: Arithmetic, c: TimestampConfig, s: Segment)
    requires RoundsCorrectly(a) && 0 < c.sampleRate < RATE_LIMIT && 0 <= c.delayFrames <= 0x2000_0000_0000_0000
    requires 0 <= s.startFrame < s.endFrame <= 0x4000_0000_0000_0000 && s.startFrame < FRAME_LIMIT - 1
    ensures Landing(a, c, s).Some?
  {
    if s.endFrame >= FRAME_LIMIT {
      FarFrameStaysFar(a, s.endFrame, c.sampleRate);
      FarFrameConverts(a, s.endFrame, c.sampleRate);
      FarSecondsAreLater(a, s.startFrame, s.endFrame, c.sampleRate);
      FrameSurvives(a, s.startFrame, c.sampleRate);
      QuotientIsScalable(a, s.startFrame, c.sampleRate);
      hide RoundsCorrectly, RoundSecondsToFrames;
    }
  }

  lemma {:induction false} CollectedIsShifted(
    a: Arithmetic, c: TimestampConfig, o: M.Options, originals: seq<M.Text>, q: seq<Segment>)
    requires RoundsCorrectly(a) && 0 < c.sampleRate < RATE_LIMIT && 0 <= c.delayFrames
    ensures Collected(a, c, o, originals, q) == Shifted(a, c, o, originals, q)
  {
    hide RoundsCorrectly, ToInterval, M.HasMatch;
    if q != [] {
      var s := q[|q| - 1];
      CollectedIsShifted(a, c, o, originals, q[..|q| - 1]);
      if 0 <= s.startFrame < s.endFrame {
        SegmentLands(a, c, s);
      }
    }
  }

  lemma CensorsUnfolds(a: Arithmetic, c: TimestampConfig, o: M.Options, originals: seq<M.Text>, s: Segment, f: int)
    ensures Censors(a, c, o, originals, s, f) <==>
      Matching(s, o, originals) && Landing(a, c, s).Some? && C.Holds(Landing(a, c, s).value, f)
  {
  }

  lemma {:induction false} ShiftedCovers(
    a: Arithmetic, c: TimestampConfig, o: M.Options, originals: seq<M.Text>, q: seq<Segment>, f: int)
    ensures C.Covered(Shifted(a, c, o, originals, q), f) <==> exists s :: s in q && Censors(a, c, o, originals, s, f)
  {
    hide Matching, Landing, Censors;
    if q != [] {
      var front, last := q[..|q| - 1], q[|q| - 1];
      assert q == front + [last];
      ShiftedCovers(a, c, o, originals, front, f);
      CensorsUnfolds(a, c, o, originals, last, f);
      if Landing(a, c, last).Some? {
        C.CoveredAppend(Shifted(a, c, o, originals, front), Landing(a, c, last).value, f);
      }
    }
  }

  /** The plan censors frame f exactly when f - delay lies in a matching segment that ends below 2^51 (see Landing
      for one that does not): no frame is lost or gained on the way through seconds, and the delay is added once. */
  lemma PlanCensorsExactlyMatchingFrames(
    a: Arithmetic, c: TimestampConfig, o: M.Options, originals: seq<M.Text>, q: seq<Segment>, f: int)
    requires RoundsCorrectly(a) && 0 < c.sampleRate < RATE_LIMIT && 0 <= c.delayFrames
    ensures var planned := C.Merge(Collected(a, c, o, originals, q));
      C.Covered(planned, f) <==> exists s :: s in q && Censors(a, c, o, originals, s, f)
  {
    hide C.Merge, Censors, C.Covered, RoundsCorrectly, Collected, Shifted;
    CollectedIsShifted(a, c, o, originals, q);
    C.MergeIsCanonical(Shifted(a, c, o, originals, q));
    ShiftedCovers(a, c, o, originals, q, f);
  }

  /** In plain terms, for a segment below the limit. */
  lemma CensorsItsShiftedFrames(
    a: Arithmetic, c: TimestampConfig, o: M.Options, originals: seq<M.Text>, s: Segment, f: int)
    requires s.endFrame < FRAME_LIMIT
    ensures Censors(a, c, o, originals, s, f) <==>
      Matching(s, o, originals) && s.endFrame + c.delayFrames <= INT64_MAX &&
        s.startFrame <= f - c.delayFrames < s.endFrame
  {
  }

  /** TimestampCoordinator::plan, on segments already in seconds. */
  function Speeches(a: Arithmetic, c: TimestampConfig, q: seq<Speech>): seq<Interval>
  {
    if q == [] then []
    else
      var rest, i := Speeches(a, c, q[..|q| - 1]), ToInterval(a, c, q[|q| - 1]);
      if i.Some? then rest + [i.value] else rest
  }

  method PlanSpeech(a: Arithmetic, config: TimestampConfig, segments: seq<Speech>) returns (intervals: seq<Interval>)
    ensures intervals == C.Merge(Speeches(a, Normalized(config), segments))
    ensures C.Canonical(intervals) && C.SameFrames(intervals, Speeches(a, Normalized(config), segments))
  {
    hide ToInterval, C.Merge;
    var c := Normalized(config);
    var found := [];
    for i := 0 to |segments|
      invariant found == Speeches(a, c, segments[..i])
    {
      assert segments[..i + 1][..i] == segments[..i];
      var interval := ToInterval(a, c, segments[i]);
      if interval.Some? {
        found := found + [interval.value];
      }
    }
    assert segments[..|segments|] == segments;
    intervals := C.MergeIntervals(found);
  }

  class MatchPlanner {
    const options: M.Options
    const timestamp: TimestampConfig
    var matcher: M.Config

    constructor (phrases: seq<M.Text>, options: M.Options, timestamp: TimestampConfig)
      ensures this.options == options && this.timestamp == Normalized(timestamp) && matcher == M.Configure(phrases)
    {
      this.options := options;
      this.timestamp := Normalized(timestamp);
      new;
      matcher := M.SetPhrases(phrases);
    }

    method SetPhrases(phrases: seq<M.Text>)
      modifies this`matcher
      ensures matcher == M.Configure(phrases)
    {
      matcher := M.SetPhrases(phrases);
    }

    method Plan(a: Arithmetic, segments: seq<Segment>) returns (intervals: seq<Interval>)
      ensures timestamp.sampleRate > 0 ==>
        intervals == C.Merge(Collected(a, timestamp, options, matcher.originals, segments))
      ensures timestamp.sampleRate == 0 ==> intervals == []
    {
      hide ToInterval, C.Merge, M.IsAnswer;
      intervals := [];
      if timestamp.sampleRate == 0 {
        return;
      }
      var found := [];
      for i := 0 to |segments|
        invariant found == Collected(a, timestamp, options, matcher.originals, segments[..i])
      {
        assert segments[..i + 1][..i] == segments[..i];
        var s := segments[i];
        if s.startFrame < 0 || s.endFrame <= s.startFrame {
          continue;
        }
        var matches := M.Find(s.text, options, matcher.originals);
        if |matches| == 0 {
          continue;
        }
        assert matches[0] in matches;
        var interval := ToInterval(a, timestamp, SpeechOf(a, timestamp, s.startFrame, s.endFrame));
        if interval.Some? {
          found := found + [interval.value];
        }
      }
      assert segments[..|segments|] == segments;
      intervals := C.MergeIntervals(found);
    }
  }
}

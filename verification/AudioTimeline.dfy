/** The absolute audio timeline (src/core/audio_timeline.cpp): epochs, anchors and interval mapping. */
module AudioTimeline {
  import opened Wrappers

  const INT64_MAX: int := 0x7FFF_FFFF_FFFF_FFFF
  const UINT64_MAX: int := 0xFFFF_FFFF_FFFF_FFFF

  datatype Chunk = Chunk(firstFrame: int, frameCount: int, sampleRate: nat, discontinuity: bool)

  datatype Anchor = Anchor(firstFrame: int, frameCount: int, sampleRate: nat, generation: nat)

  datatype Interval = Interval(startFrame: int, endFrame: int)

  datatype Status = Anchored | Advanced | WasReset | InvalidChunk | SampleRateMismatch | NonContiguous

  datatype Update = Update(status: Status, generation: nat, anchor: Option<Anchor>)

  datatype Timeline = Timeline(
    sampleRate: nat, anchored: bool, requiresDiscontinuity: bool, nextFrame: int, generation: nat)

  /** int64 addition of two non-negative frame numbers, refused when it would overflow. */
  function AddFrames(left: int, right: int): Option<int>
  {
    if right > 0 && left > INT64_MAX - right then None
    else if right < 0 && left < -INT64_MAX - 1 - right then None
    else Some(left + right)
  }

  function NextGeneration(g: nat): nat
  {
    if g == UINT64_MAX then g else g + 1
  }

  function Init(sampleRate: nat): Timeline
  {
    Timeline(if sampleRate == 0 then 48000 else sampleRate, false, false, 0, 0)
  }

  function Reset(t: Timeline): Timeline
  {
    t.(anchored := false, requiresDiscontinuity := false, nextFrame := 0, generation := NextGeneration(t.generation))
  }

  function Accept(t: Timeline, c: Chunk): (Timeline, Update)
  {
    if c.firstFrame < 0 || c.frameCount <= 0 then (t, Update(InvalidChunk, t.generation, None))
    else if c.sampleRate == 0 || c.sampleRate != t.sampleRate then
      (t, Update(SampleRateMismatch, t.generation, None))
    else if AddFrames(c.firstFrame, c.frameCount).None? then (t, Update(InvalidChunk, t.generation, None))
    else if !t.anchored && t.requiresDiscontinuity && !c.discontinuity then
      (t, Update(NonContiguous, t.generation, None))
    else if t.anchored && !c.discontinuity && c.firstFrame != t.nextFrame then
      var g := NextGeneration(t.generation);
      (Timeline(t.sampleRate, false, true, 0, g), Update(NonContiguous, g, None))
    else
      var g := if !t.anchored || c.discontinuity then NextGeneration(t.generation) else t.generation;
      var status := if !t.anchored then Anchored else if c.discontinuity then WasReset else Advanced;
      (Timeline(t.sampleRate, true, false, c.firstFrame + c.frameCount, g),
       Update(status, g, Some(Anchor(c.firstFrame, c.frameCount, c.sampleRate, g))))
  }

  predicate ValidAnchor(t: Timeline, a: Anchor)
  {
    t.anchored && a.generation == t.generation && a.sampleRate == t.sampleRate &&
    a.firstFrame >= 0 && a.frameCount > 0 && AddFrames(a.firstFrame, a.frameCount).Some?
  }

  predicate ValidRelative(i: Interval, frameCount: int)
  {
    frameCount > 0 && 0 <= i.startFrame < i.endFrame <= frameCount
  }

  function MapInterval(t: Timeline, a: Anchor, rel: Interval): Option<Interval>
  {
    if !ValidAnchor(t, a) || !ValidRelative(rel, a.frameCount) then None
    else
      var s, e := AddFrames(a.firstFrame, rel.startFrame), AddFrames(a.firstFrame, rel.endFrame);
      if s.None? || e.None? || s.value < 0 || e.value <= s.value then None
      else Some(Interval(s.value, e.value))
  }

  /** The vector form: unmapped entries are dropped, order is kept. */
  function ToAbsolute(t: Timeline, a: Anchor, rels: seq<Interval>): seq<Interval>
  {
    if rels == [] then []
    else
      var rest := ToAbsolute(t, a, rels[..|rels| - 1]);
      match MapInterval(t, a, rels[|rels| - 1])
      case Some(i) => rest + [i]
      case None => rest
  }

  /** A relative interval maps exactly when its anchor is live and it lies inside the chunk; the result then lies
      inside the chunk's absolute range and keeps its width. */
  lemma MapsExactlyLiveIntervals(t: Timeline, a: Anchor, rel: Interval)
    ensures MapInterval(t, a, rel).Some? <==> ValidAnchor(t, a) && ValidRelative(rel, a.frameCount)
    ensures MapInterval(t, a, rel).Some? ==>
      var m := MapInterval(t, a, rel).value;
      a.firstFrame <= m.startFrame < m.endFrame <= a.firstFrame + a.frameCount <= INT64_MAX &&
      m.endFrame - m.startFrame == rel.endFrame - rel.startFrame
  {
  }

  lemma MappingKeepsOrder(t: Timeline, a: Anchor, x: Interval, y: Interval)
    requires MapInterval(t, a, x).Some? && MapInterval(t, a, y).Some?
    ensures x.startFrame <= y.startFrame <==>
      MapInterval(t, a, x).value.startFrame <= MapInterval(t, a, y).value.startFrame
    ensures x.endFrame <= y.startFrame <==>
      MapInterval(t, a, x).value.endFrame <= MapInterval(t, a, y).value.startFrame
  {
  }

  /** Every interval of the mapped vector is the image of one of the inputs, and every live input is there. */
  lemma {:induction false} VectorMapsExactlyLiveEntries(t: Timeline, a: Anchor, rels: seq<Interval>, m: Interval)
    ensures m in ToAbsolute(t, a, rels) <==> exists i :: 0 <= i < |rels| && MapInterval(t, a, rels[i]) == Some(m)
  {
    if rels != [] {
      var front := rels[..|rels| - 1];
      VectorMapsExactlyLiveEntries(t, a, front, m);
      if m in ToAbsolute(t, a, rels) && m in ToAbsolute(t, a, front) {
        var i :| 0 <= i < |front| && MapInterval(t, a, front[i]) == Some(m);
        assert rels[i] == front[i];
      }
      if i :| 0 <= i < |rels| && MapInterval(t, a, rels[i]) == Some(m) {
        if i < |front| {
          assert front[i] == rels[i];
        }
      }
    }
  }

  // ---- runs: any sequence of chunks and resets -------------------------------------------------

  datatype Event = Offer(chunk: Chunk) | DoReset

  function Step(t: Timeline, e: Event): Timeline
  {
    match e
    case Offer(c) => Accept(t, c).0
    case DoReset => Reset(t)
  }

  function Issued(t: Timeline, e: Event): Option<Anchor>
  {
    match e
    case Offer(c) => Accept(t, c).1.anchor
    case DoReset => None
  }

  function Run(t: Timeline, es: seq<Event>): Timeline
    decreases es
  {
    if es == [] then t else Run(Step(t, es[0]), es[1..])
  }

  /** Anchors issued while running `es`, in order. */
  function Anchors(t: Timeline, es: seq<Event>): seq<Anchor>
    decreases es
  {
    if es == [] then []
    else
      var rest := Anchors(Step(t, es[0]), es[1..]);
      match Issued(t, es[0])
      case Some(a) => [a] + rest
      case None => rest
  }

  lemma {:induction false} GenerationNeverDecreases(t: Timeline, es: seq<Event>)
    requires t.generation <= UINT64_MAX
    ensures t.generation <= Run(t, es).generation <= UINT64_MAX
    ensures Run(t, es).sampleRate == t.sampleRate
    decreases es
  {
    if es != [] {
      GenerationNeverDecreases(Step(t, es[0]), es[1..]);
    }
  }

  /** An anchor issued next, if it carries the current generation, starts where the timeline stands. */
  predicate FitsNext(t: Timeline, a: Anchor)
  {
    a.generation >= t.generation &&
    (a.generation == t.generation < UINT64_MAX ==> t.anchored && a.firstFrame == t.nextFrame)
  }

  /** Generations never decrease along the list, and neighbours of one unsaturated generation meet. */
  ghost predicate Chained(a: seq<Anchor>)
  {
    (forall k :: 0 <= k < |a| ==> 0 <= a[k].firstFrame && 0 < a[k].frameCount) &&
    (forall k :: 0 < k < |a| ==> a[k - 1].generation <= a[k].generation) &&
    (forall k :: 0 < k < |a| && a[k - 1].generation == a[k].generation < UINT64_MAX ==> Meets(a, k))
  }

  predicate Meets(a: seq<Anchor>, k: nat)
    requires 0 < k < |a|
  {
    a[k].firstFrame == a[k - 1].firstFrame + a[k - 1].frameCount
  }

  lemma {:induction false} AnchorsChain(t: Timeline, es: seq<Event>)
    requires t.generation <= UINT64_MAX
    ensures Chained(Anchors(t, es))
    ensures Anchors(t, es) != [] ==> FitsNext(t, Anchors(t, es)[0])
    decreases es
  {
    if es != [] {
      var u := Step(t, es[0]);
      var rest := Anchors(u, es[1..]);
      AnchorsChain(u, es[1..]);
      match Issued(t, es[0])
      case None =>
        NoAnchorMeansNoAdvance(t, es[0]);
      case Some(a) =>
        assert Anchors(t, es) == [a] + rest;
        AnchorIsWhereTimelineStands(t, es[0]);
        PrependChained(u, a, rest);
    }
  }

  lemma NoAnchorMeansNoAdvance(t: Timeline, e: Event)
    requires t.generation <= UINT64_MAX && Issued(t, e) == None
    ensures Step(t, e).generation >= t.generation
    ensures Step(t, e).generation == t.generation < UINT64_MAX ==> Step(t, e) == t
  {
  }

  lemma AnchorIsWhereTimelineStands(t: Timeline, e: Event)
    requires t.generation <= UINT64_MAX && Issued(t, e).Some?
    ensures var a, u := Issued(t, e).value, Step(t, e);
      u.anchored && u.generation == a.generation && u.nextFrame == a.firstFrame + a.frameCount &&
      0 <= a.firstFrame && 0 < a.frameCount && FitsNext(t, a)
  {
  }

  lemma PrependChained(u: Timeline, a: Anchor, rest: seq<Anchor>)
    requires u.generation == a.generation && u.nextFrame == a.firstFrame + a.frameCount
    requires 0 <= a.firstFrame && 0 < a.frameCount
    requires Chained(rest) && (rest != [] ==> FitsNext(u, rest[0]))
    ensures Chained([a] + rest)
  {
    var all := [a] + rest;
    forall k | 0 < k < |all| && all[k - 1].generation == all[k].generation < UINT64_MAX
      ensures Meets(all, k)
    {
      if k > 1 {
        assert rest[k - 2].generation == rest[k - 1].generation;
        assert Meets(rest, k - 1);
      }
    }
    forall k | 0 < k < |all|
      ensures all[k - 1].generation <= all[k].generation
    {
      if k > 1 {
        assert rest[(k - 1) - 1].generation <= rest[k - 1].generation;
      }
    }
  }

  /** The anchors of one generation tile one contiguous frame range: consecutive ones meet end to start, over any
      run and below saturation of the generation counter. */
  lemma SameGenerationIsContiguous(rate: nat, es: seq<Event>, i: nat, j: nat)
    requires i < j < |Anchors(Init(rate), es)|
    requires Anchors(Init(rate), es)[i].generation == Anchors(Init(rate), es)[j].generation < UINT64_MAX
    ensures var a := Anchors(Init(rate), es);
      a[i].firstFrame + a[i].frameCount <= a[j].firstFrame &&
      forall k :: i < k <= j ==> a[k].generation == a[i].generation && Meets(a, k)
  {
    AnchorsChain(Init(rate), es);
    SpanIsContiguous(Anchors(Init(rate), es), i, j);
  }

  lemma {:induction false} SpanIsContiguous(a: seq<Anchor>, i: nat, j: nat)
    requires i < j < |a| && a[i].generation == a[j].generation < UINT64_MAX && Chained(a)
    ensures a[i].firstFrame + a[i].frameCount <= a[j].firstFrame
    ensures forall k :: i < k <= j ==> a[k].generation == a[i].generation && Meets(a, k)
    decreases j - i
  {
    GenerationsSorted(a, i, j - 1);
    assert Meets(a, j);
    if i + 1 < j {
      SpanIsContiguous(a, i, j - 1);
    }
  }

  lemma {:induction false} GenerationsSorted(a: seq<Anchor>, i: nat, j: nat)
    requires i <= j < |a|
    requires forall k :: 0 < k < |a| ==> a[k - 1].generation <= a[k].generation
    ensures a[i].generation <= a[j].generation
    decreases j - i
  {
    if i < j {
      GenerationsSorted(a, i, j - 1);
    }
  }

  /** Events that end an epoch in state `t`: a reset, an accepted marked chunk, or a detected gap. */
  predicate EndsEpoch(t: Timeline, e: Event)
  {
    match e
    case DoReset => true
    case Offer(c) =>
      var (_, u) := Accept(t, c);
      (c.discontinuity && u.anchor.Some?) || (t.anchored && u.status == NonContiguous)
  }

  /** No anchor issued before the end of an epoch maps anything afterwards, however the run goes on, as long as
      the generation counter is not saturated where the epoch ends. */
  lemma StaleAnchorNeverMaps(t: Timeline, a: Anchor, e: Event, later: seq<Event>, rel: Interval)
    requires a.generation <= t.generation < UINT64_MAX && EndsEpoch(t, e)
    ensures MapInterval(Run(Step(t, e), later), a, rel) == None
  {
    GenerationNeverDecreases(Step(t, e), later);
  }

  lemma {:induction false} IssuedGenerationsBounded(t: Timeline, es: seq<Event>, a: Anchor)
    requires t.generation <= UINT64_MAX && a in Anchors(t, es)
    ensures a.generation <= Run(t, es).generation
    decreases es
  {
    var u := Step(t, es[0]);
    GenerationNeverDecreases(u, es[1..]);
    if Issued(t, es[0]) != Some(a) {
      IssuedGenerationsBounded(u, es[1..], a);
    }
  }

  /** The same over a whole run from the start: whatever was issued before the epoch ended is dead after it. */
  lemma AnchorsDieWithTheirEpoch(rate: nat, before: seq<Event>, e: Event, later: seq<Event>, a: Anchor, rel: Interval)
    requires a in Anchors(Init(rate), before) && EndsEpoch(Run(Init(rate), before), e)
    requires Run(Init(rate), before).generation < UINT64_MAX
    ensures MapInterval(Run(Step(Run(Init(rate), before), e), later), a, rel) == None
  {
    IssuedGenerationsBounded(Init(rate), before, a);
    StaleAnchorNeverMaps(Run(Init(rate), before), a, e, later, rel);
  }

  /** At saturation the guarantee is gone, and only there: ending an epoch leaves the generation alone exactly
      when it is already the maximum. */
  lemma EpochEndsAdvanceGenerationExactlyBelowSaturation(t: Timeline, e: Event)
    requires t.generation <= UINT64_MAX && EndsEpoch(t, e)
    ensures Step(t, e).generation == t.generation <==> t.generation == UINT64_MAX
  {
  }

  /** After `e`, no anchor issued up to `t` ever maps anything, however the run goes on. */
  ghost predicate OldAnchorsAreDead(t: Timeline, e: Event)
  {
    forall a: Anchor, later: seq<Event>, rel: Interval ::
      a.generation <= t.generation ==> MapInterval(Run(Step(t, e), later), a, rel) == None
  }

  /** The exact condition: the end of an epoch kills every older anchor for good if and only if the generation
      counter is not saturated. */
  lemma OldAnchorsDieExactlyBelowSaturation(t: Timeline, e: Event)
    requires t.sampleRate > 0 && t.generation <= UINT64_MAX && EndsEpoch(t, e)
    ensures OldAnchorsAreDead(t, e) <==> t.generation < UINT64_MAX
  {
    if t.generation < UINT64_MAX {
      forall a: Anchor, later: seq<Event>, rel: Interval | a.generation <= t.generation
        ensures MapInterval(Run(Step(t, e), later), a, rel) == None
      {
        StaleAnchorNeverMaps(t, a, e, later, rel);
      }
    } else {
      SaturatedRunRevives(t, e);
    }
  }

  /** A marked chunk after the end of a saturated epoch makes an anchor of the old generation live again. */
  lemma SaturatedRunRevives(t: Timeline, e: Event)
    requires t.sampleRate > 0 && t.generation == UINT64_MAX && EndsEpoch(t, e)
    ensures var later := [Offer(Chunk(0, 1, t.sampleRate, true))];
      var was := Anchor(0, 1, t.sampleRate, t.generation);
      MapInterval(Run(Step(t, e), later), was, Interval(0, 1)) == Some(Interval(0, 1))
  {
    var u, later := Step(t, e), [Offer(Chunk(0, 1, t.sampleRate, true))];
    EpochEndsAdvanceGenerationExactlyBelowSaturation(t, e);
    assert later[1..] == [];
    assert Run(u, later) == Step(u, later[0]);
  }

  /** The counterexample at saturation: after a marked discontinuity the old anchor still maps. */
  lemma SaturatedAnchorStillMaps()
    ensures var t := Timeline(48000, true, false, 100, UINT64_MAX);
      var stale := Anchor(0, 100, 48000, UINT64_MAX);
      EndsEpoch(t, Offer(Chunk(500, 100, 48000, true))) &&
      MapInterval(Step(t, Offer(Chunk(500, 100, 48000, true))), stale, Interval(0, 10)) == Some(Interval(0, 10))
  {
  }

  /** Chunks that break contiguity are never guessed into place: one that is neither first nor marked nor next
      is rejected, and everything unmarked after it too, until a marked chunk starts a fresh epoch. */
  lemma {:induction false} GapRejectsUntilMarked(t: Timeline, es: seq<Event>)
    requires !t.anchored && t.requiresDiscontinuity
    requires forall i :: 0 <= i < |es| ==> es[i].Offer? && !es[i].chunk.discontinuity
    ensures Anchors(t, es) == [] && Run(t, es) == t
  {
    if es != [] {
      assert es[0].Offer?;
      GapRejectsUntilMarked(Step(t, es[0]), es[1..]);
    }
  }

  // ---- the object -----------------------------------------------------------------------------

  class AudioTimelineCoordinator {
    const sampleRate: nat
    var anchored: bool
    var requiresDiscontinuity: bool
    var nextFrame: int
    var generation: nat

    ghost function State(): Timeline
      reads this
    {
      Timeline(sampleRate, anchored, requiresDiscontinuity, nextFrame, generation)
    }

    constructor (rate: nat)
      ensures State() == Init(rate)
    {
      sampleRate := if rate == 0 then 48000 else rate;
      anchored, requiresDiscontinuity, nextFrame, generation := false, false, 0, 0;
    }

    method AcceptChunk(chunk: Chunk) returns (update: Update)
      modifies this
      ensures (State(), update) == Accept(old(State()), chunk)
      ensures update.anchor.Some? ==> ValidAnchor(State(), update.anchor.value)
    {
      update := Update(InvalidChunk, generation, None);
      if chunk.firstFrame < 0 || chunk.frameCount <= 0 {
        return;
      }
      if chunk.sampleRate == 0 || chunk.sampleRate != sampleRate {
        update := update.(status := SampleRateMismatch);
        return;
      }
      var chunkEnd := AddFrames(chunk.firstFrame, chunk.frameCount);
      if chunkEnd.None? {
        return;
      }
      if !anchored && requiresDiscontinuity && !chunk.discontinuity {
        update := update.(status := NonContiguous);
        return;
      }
      var firstChunk := !anchored;
      var explicitReset := chunk.discontinuity && anchored;
      if !firstChunk && !explicitReset && chunk.firstFrame != nextFrame {
        anchored := false;
        requiresDiscontinuity := true;
        nextFrame := 0;
        generation := NextGeneration(generation);
        update := Update(NonContiguous, generation, None);
        return;
      }
      if firstChunk || explicitReset || chunk.discontinuity {
        generation := NextGeneration(generation);
      }
      anchored := true;
      requiresDiscontinuity := false;
      nextFrame := chunkEnd.value;
      var status :=
        if firstChunk then Anchored else if explicitReset || chunk.discontinuity then WasReset else Advanced;
      var anchor := Anchor(chunk.firstFrame, chunk.frameCount, chunk.sampleRate, generation);
      update := Update(status, generation, Some(anchor));
    }

    method ResetTimeline()
      modifies this
      ensures State() == Reset(old(State()))
      ensures !anchored && forall a :: !ValidAnchor(State(), a)
    {
      anchored := false;
      requiresDiscontinuity := false;
      nextFrame := 0;
      generation := NextGeneration(generation);
    }

    method MapAll(anchor: Anchor, relative: seq<Interval>) returns (absolute: seq<Interval>)
      ensures absolute == ToAbsolute(State(), anchor, relative)
    {
      absolute := [];
      for i := 0 to |relative|
        invariant absolute == ToAbsolute(State(), anchor, relative[..i])
      {
        assert relative[..i + 1][..i] == relative[..i];
        var timeline := Timeline(sampleRate, anchored, requiresDiscontinuity, nextFrame, generation);
        var mapped := MapInterval(timeline, anchor, relative[i]);
        if mapped.Some? {
          absolute := absolute + [mapped.value];
        }
      }
      assert relative[..|relative|] == relative;
    }
  }
}

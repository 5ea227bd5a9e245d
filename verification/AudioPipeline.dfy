/** One chunk through the end-to-end pipeline (src/core/audio_pipeline.cpp): validation, timeline, transcription,
    planning, rendering and the pass-through outcomes. */
module AudioPipeline {
  import opened Wrappers
  import opened R = ReplacementRenderer
  import T = AudioTimeline
  import P = TimestampPlanner
  import C = CensorScheduler
  import M = PhraseMatcher

  type Interval = T.Interval

  // Captured audio; a sample may be NaN or infinite.
  datatype Capture = Capture(sampleRate: nat, channels: nat, samples: seq<P.Number>)

  datatype AudioFrame = AudioFrame(firstFrame: int, audio: Capture, discontinuity: bool)

  datatype Status = Processed | InvalidAudio | TimelineRejected | RuntimeFailure

  datatype Result = Result(
    status: Status, timelineStatus: T.Status, output: AudioFrame, transcript: seq<P.Segment>, intervals: seq<Interval>)

  datatype Config = Config(sampleRate: nat, replacement: AudioBuffer, fade: nat, matching: M.Options, delayFrames: int)

  // What the chunk meets outside this code: double arithmetic, the transcriber (None when it throws) and the
  // waveform of the default beep.
  datatype World = World(arithmetic: P.Arithmetic, transcribe: seq<real> -> Option<seq<P.Segment>>, tone: nat -> real)

  function Rate(c: Config): nat { if c.sampleRate == 0 then 48000 else c.sampleRate }

  function Timestamp(c: Config): P.TimestampConfig
  {
    P.Normalized(P.TimestampConfig(Rate(c), c.delayFrames))
  }

  function Frames(a: Capture): nat
  {
    if a.channels == 0 then 0 else |a.samples| / a.channels
  }

  predicate ValidAudio(a: Capture, rate: nat)
  {
    a.sampleRate == rate && a.channels != 0 && Frames(a) != 0 && |a.samples| % a.channels == 0 &&
    forall i :: 0 <= i < |a.samples| ==> a.samples[i].Finite?
  }

  predicate ValidFrame(f: AudioFrame, rate: nat)
  {
    ValidAudio(f.audio, rate) && f.firstFrame >= 0 && Frames(f.audio) <= T.INT64_MAX
  }

  /** The samples of validated audio, as numbers. */
  function Plain(a: Capture): (b: AudioBuffer)
    requires forall i :: 0 <= i < |a.samples| ==> a.samples[i].Finite?
    ensures FrameCount(b) == Frames(a) && b.channels == a.channels && |b.samples| == |a.samples|
  {
    AudioBuffer(a.sampleRate, a.channels, seq(|a.samples|, i requires 0 <= i < |a.samples| => a.samples[i].value))
  }

  function Captured(b: AudioBuffer): Capture
  {
    Capture(b.sampleRate, b.channels, seq(|b.samples|, i requires 0 <= i < |b.samples| => P.Finite(b.samples[i])))
  }

  function ChunkOf(f: AudioFrame): T.Chunk
  {
    T.Chunk(f.firstFrame, Frames(f.audio), f.audio.sampleRate, f.discontinuity)
  }

  // ---- mono ---------------------------------------------------------------------------------------------

  function ChannelSum(b: AudioBuffer, f: nat, channels: nat): real
    requires channels <= b.channels && f < FrameCount(b)
  {
    if channels == 0 then 0.0
    else
      IndexInRange(f, channels - 1, b.channels, FrameCount(b), |b.samples|);
      ChannelSum(b, f, channels - 1) + b.samples[f * b.channels + channels - 1]
  }

  function Mono(b: AudioBuffer): (mono: seq<real>)
    ensures |mono| == FrameCount(b)
  {
    seq(FrameCount(b), f requires 0 <= f < FrameCount(b) => ChannelSum(b, f, b.channels) / b.channels as real)
  }

  lemma {:induction false} SumStaysInRange(b: AudioBuffer, f: nat, channels: nat, low: real, high: real)
    requires channels <= b.channels && f < FrameCount(b)
    requires forall s :: 0 <= s < |b.samples| ==> low <= b.samples[s] <= high
    ensures low * channels as real <= ChannelSum(b, f, channels) <= high * channels as real
  {
    if channels > 0 {
      SumStaysInRange(b, f, channels - 1, low, high);
      IndexInRange(f, channels - 1, b.channels, FrameCount(b), |b.samples|);
      assert channels as real == (channels - 1) as real + 1.0;
      assert low * channels as real == low * (channels - 1) as real + low;
      assert high * channels as real == high * (channels - 1) as real + high;
    }
  }

  lemma Scaled(x: real, y: real, k: real)
    requires x < y && 0.0 < k
    ensures x * k < y * k
  {
  }

  lemma Mean(sum: real, n: nat, low: real, high: real)
    requires n > 0 && low * n as real <= sum <= high * n as real
    ensures low <= sum / n as real <= high
  {
    var q := sum / n as real;
    assert q * n as real == sum;
    if q < low {
      Scaled(q, low, n as real);
    }
    if q > high {
      Scaled(high, q, n as real);
    }
  }

  /** What the transcriber hears has one sample a frame and stays within the range of the input. */
  lemma MonoStaysInRange(b: AudioBuffer, f: nat, low: real, high: real)
    requires f < FrameCount(b) && forall s :: 0 <= s < |b.samples| ==> low <= b.samples[s] <= high
    ensures low <= Mono(b)[f] <= high
  {
    SumStaysInRange(b, f, b.channels, low, high);
    Mean(ChannelSum(b, f, b.channels), b.channels, low, high);
  }

  /** Every channel counts alike: moving one sample by d moves its frame of the mix by d over the number of channels,
      and no other frame. */
  lemma ChannelsCountAlike(a: AudioBuffer, b: AudioBuffer, f: nat, c: nat, g: nat)
    requires a.channels == b.channels && c < a.channels && f < FrameCount(a) && g < FrameCount(a)
    requires |a.samples| == |b.samples|
    requires forall s :: 0 <= s < |a.samples| && s != f * a.channels + c ==> a.samples[s] == b.samples[s]
    ensures f * a.channels + c < |a.samples|
    ensures var s := f * a.channels + c;
      (Mono(b)[g] - Mono(a)[g]) * a.channels as real == if g == f then b.samples[s] - a.samples[s] else 0.0
  {
    IndexInRange(f, c, a.channels, FrameCount(a), |a.samples|);
    SumMoves(a, b, f, c, g, a.channels);
    MonoAt(a, g);
    MonoAt(b, g);
    hide ChannelSum, Mono;
    MeansDiffer(ChannelSum(b, g, a.channels), ChannelSum(a, g, a.channels), a.channels as real);
  }

  lemma MonoAt(b: AudioBuffer, f: nat)
    requires f < FrameCount(b)
    ensures Mono(b)[f] == ChannelSum(b, f, b.channels) / b.channels as real
  {
  }

  lemma MeansDiffer(x: real, y: real, n: real)
    requires n > 0.0
    ensures (x / n - y / n) * n == x - y
  {
    var p, q := x / n, y / n;
    assert p * n == x && q * n == y;
    assert (p - q) * n == p * n - q * n;
  }

  lemma {:induction false} SumMoves(a: AudioBuffer, b: AudioBuffer, f: nat, c: nat, g: nat, channels: nat)
    requires a.channels == b.channels && c < a.channels && f < FrameCount(a) && g < FrameCount(a)
    requires |a.samples| == |b.samples| && channels <= a.channels && f * a.channels + c < |a.samples|
    requires forall s :: 0 <= s < |a.samples| && s != f * a.channels + c ==> a.samples[s] == b.samples[s]
    ensures var s := f * a.channels + c;
      ChannelSum(b, g, channels) - ChannelSum(a, g, channels) ==
        if g == f && c < channels then b.samples[s] - a.samples[s] else 0.0
  {
    if channels > 0 {
      SumMoves(a, b, f, c, g, channels - 1);
      IndexInRange(g, channels - 1, a.channels, FrameCount(a), |a.samples|);
      IndexInRange(f, c, a.channels, FrameCount(a), |a.samples|);
      assert g * a.channels + (channels - 1) == f * a.channels + c ==> g == f && channels - 1 == c;
    }
  }

  lemma SingleChannelIsItself(b: AudioBuffer)
    requires b.channels == 1
    ensures Mono(b) == b.samples
  {
    forall f | 0 <= f < |b.samples|
      ensures Mono(b)[f] == b.samples[f]
    {
      assert ChannelSum(b, f, 1) == ChannelSum(b, f, 0) + b.samples[f * 1 + 0];
    }
  }

  method ToMono(b: AudioBuffer) returns (mono: seq<real>)
    ensures mono == Mono(b)
  {
    if b.channels == 1 {
      SingleChannelIsItself(b);
      return b.samples[..FrameCount(b)];
    }
    mono := [];
    for frame := 0 to FrameCount(b)
      invariant mono == Mono(b)[..frame]
    {
      var sum := 0.0;
      for channel := 0 to b.channels
        invariant sum == ChannelSum(b, frame, channel)
      {
        IndexInRange(frame, channel, b.channels, FrameCount(b), |b.samples|);
        sum := sum + b.samples[frame * b.channels + channel];
      }
      mono := mono + [sum / b.channels as real];
    }
  }

  // ---- replacement --------------------------------------------------------------------------------------

  predicate UsableFor(r: AudioBuffer, rate: nat)
  {
    r.sampleRate == rate && r.channels != 0 && FrameCount(r) != 0 && |r.samples| % r.channels == 0
  }

  /** default_beep_for: at most a quarter of a second, at least one frame, at most the input's length. */
  function DefaultBeep(a: Capture, tone: nat -> real): AudioBuffer
    requires a.channels > 0
  {
    var quarter := if a.sampleRate / 4 < 1 then 1 else a.sampleRate / 4;
    var frames := Min(Frames(a), quarter);
    AudioBuffer(a.sampleRate, a.channels, seq(frames * a.channels, i requires i >= 0 => tone(i / a.channels)))
  }

  function Replacement(c: Config, a: Capture, tone: nat -> real): AudioBuffer
    requires a.channels > 0
  {
    if UsableFor(c.replacement, a.sampleRate) then c.replacement else DefaultBeep(a, tone)
  }

  /** Whole frames, at least one, of at least one channel. */
  ghost predicate WholeFrames(r: AudioBuffer)
  {
    exists frames: nat :: frames > 0 && r.channels > 0 && |r.samples| == frames * r.channels
  }

  /** Every channel of frame n has the tone's value n. */
  predicate HoldsTone(b: AudioBuffer, tone: nat -> real)
  {
    b.channels > 0 && forall i: nat :: i < |b.samples| ==> b.samples[i] == tone(i / b.channels)
  }

  /** The configured replacement is used if and only if it has the input's rate and is made of whole frames, at least
      one, of any number of channels; otherwise the beep, as long as the input but at most a quarter of a second, with
      the input's channels and the same tone on each. */
  lemma ReplacementIsChosenExactly(c: Config, a: Capture, tone: nat -> real)
    requires a.channels > 0
    ensures var r, chosen := c.replacement, Replacement(c, a, tone);
      var usable := r.sampleRate == a.sampleRate && WholeFrames(r);
      (usable ==> chosen == r) &&
      (!usable ==>
        chosen.sampleRate == a.sampleRate && chosen.channels == a.channels && HoldsTone(chosen, tone) &&
        FrameCount(chosen) == Min(Frames(a), if a.sampleRate < 4 then 1 else a.sampleRate / 4))
  {
    UsableExactly(c.replacement, a.sampleRate);
    BeepLength(a, tone);
    hide UsableFor, DefaultBeep, WholeFrames, HoldsTone;
  }

  lemma UsableExactly(r: AudioBuffer, rate: nat)
    ensures UsableFor(r, rate) <==> r.sampleRate == rate && WholeFrames(r)
  {
    if r.channels > 0 {
      if frames: nat :| frames > 0 && |r.samples| == frames * r.channels {
        DivMod(frames, 0, r.channels);
      }
      assert |r.samples| == FrameCount(r) * r.channels + |r.samples| % r.channels;
    }
  }

  lemma BeepLength(a: Capture, tone: nat -> real)
    requires a.channels > 0
    ensures var beep := DefaultBeep(a, tone);
      beep.sampleRate == a.sampleRate && beep.channels == a.channels &&
      HoldsTone(beep, tone) &&
      FrameCount(beep) == Min(Frames(a), if a.sampleRate < 4 then 1 else a.sampleRate / 4)
  {
    DivMod(Min(Frames(a), if a.sampleRate < 4 then 1 else a.sampleRate / 4), 0, a.channels);
  }

  /** A matched stretch of validated audio is never left as it was for want of a replacement. */
  lemma ReplacementIsAlwaysUsable(c: Config, a: Capture, rate: nat, tone: nat -> real)
    requires ValidAudio(a, rate) && rate > 0
    ensures Usable(Replacement(c, a, tone))
  {
    if !UsableFor(c.replacement, a.sampleRate) {
      var quarter := if a.sampleRate / 4 < 1 then 1 else a.sampleRate / 4;
      DivMod(Min(Frames(a), quarter), 0, a.channels);
    }
  }

  // ---- process ------------------------------------------------------------------------------------------

  /** The transcript mapped to absolute frames: segments outside the chunk are dropped. */
  function AbsoluteTranscript(t: T.Timeline, a: T.Anchor, q: seq<P.Segment>): seq<P.Segment>
  {
    if q == [] then []
    else
      var rest, s := AbsoluteTranscript(t, a, q[..|q| - 1]), q[|q| - 1];
      match T.MapInterval(t, a, T.Interval(s.startFrame, s.endFrame))
      case Some(i) => rest + [s.(startFrame := i.startFrame, endFrame := i.endFrame)]
      case None => rest
  }

  ghost function PlanFor(w: World, c: Config, originals: seq<M.Text>, q: seq<P.Segment>): seq<Interval>
  {
    C.Merge(P.Collected(w.arithmetic, Timestamp(c), c.matching, originals, q))
  }

  ghost function Rendered(w: World, c: Config, frame: AudioFrame, plan: seq<Interval>): AudioFrame
    requires ValidFrame(frame, Rate(c))
  {
    frame.(audio := Captured(Render(Plain(frame.audio), plan, Replacement(c, frame.audio, w.tone), c.fade)))
  }

  ghost function Process(
    w: World, c: Config, originals: seq<M.Text>, t: T.Timeline, frame: AudioFrame): (T.Timeline, Result)
  {
    if !ValidFrame(frame, Rate(c)) then (t, Result(InvalidAudio, T.InvalidChunk, frame, [], []))
    else
      var (u, update) := T.Accept(t, ChunkOf(frame));
      if update.anchor.None? then (u, Result(TimelineRejected, update.status, frame, [], []))
      else
        match w.transcribe(Mono(Plain(frame.audio)))
        case None => (u, Result(RuntimeFailure, update.status, frame, [], []))
        case Some(heard) =>
          var plan := PlanFor(w, c, originals, heard);
          (u, Result(Processed, update.status, Rendered(w, c, frame, plan),
                     AbsoluteTranscript(u, update.anchor.value, heard), T.ToAbsolute(u, update.anchor.value, plan)))
  }

  /** A chunk is refused as invalid unless it has the configured rate, at least one channel and one frame, whole frames,
      finite samples only, and a first frame and a length that int64 can hold. */
  lemma InvalidExactly(w: World, c: Config, originals: seq<M.Text>, t: T.Timeline, frame: AudioFrame)
    ensures var a := frame.audio;
      Process(w, c, originals, t, frame).1.status != InvalidAudio <==>
        a.sampleRate == (if c.sampleRate == 0 then 48000 else c.sampleRate) && frame.firstFrame >= 0 &&
        (forall x :: x in a.samples ==> x.Finite?) &&
        exists frames: nat :: 0 < frames < 0x8000_0000_0000_0000 && a.channels > 0 && |a.samples| == frames * a.channels
  {
    hide T.Accept, Render, Mono, PlanFor, T.ToAbsolute;
    var a := frame.audio;
    if a.channels > 0 {
      if frames: nat :| |a.samples| == frames * a.channels {
        DivMod(frames, 0, a.channels);
      }
      assert |a.samples| == Frames(a) * a.channels + |a.samples| % a.channels;
    }
    assert (forall x :: x in a.samples ==> x.Finite?) <==> forall i :: 0 <= i < |a.samples| ==> a.samples[i].Finite?;
  }

  /** Every outcome other than `Processed` hands back the very frame that came in and claims nothing about it. */
  lemma OnlyProcessedChangesAudio(w: World, c: Config, originals: seq<M.Text>, t: T.Timeline, frame: AudioFrame)
    ensures var r := Process(w, c, originals, t, frame).1;
      (r.status != Processed ==> r.output == frame && r.intervals == [] && r.transcript == []) &&
      (r.status == Processed <==>
        ValidFrame(frame, Rate(c)) && T.Accept(t, ChunkOf(frame)).1.anchor.Some? &&
        w.transcribe(Mono(Plain(frame.audio))).Some?) &&
      (r.status == InvalidAudio <==> !ValidFrame(frame, Rate(c))) &&
      (r.status == InvalidAudio ==> Process(w, c, originals, t, frame).0 == t)
  {
    hide T.Accept, Render, Mono, PlanFor, T.ToAbsolute;
  }

  lemma PlainRoundTrip(a: Capture)
    requires forall i :: 0 <= i < |a.samples| ==> a.samples[i].Finite?
    ensures Captured(Plain(a)) == a
  {
  }

  /** The meaning of processing, frame by frame: a frame of the chunk changes only if a matching segment, shifted
      by the delay, holds it; then every channel gets the replacement's sample times the fade gain. */
  lemma OnlyMatchingFramesChange(
    w: World, c: Config, originals: seq<M.Text>, t: T.Timeline, frame: AudioFrame, f: nat, ch: nat)
    requires P.RoundsCorrectly(w.arithmetic) && Rate(c) < P.RATE_LIMIT
    requires Process(w, c, originals, t, frame).1.status == Processed
    requires f < Frames(frame.audio) && ch < frame.audio.channels
    ensures var input, output := frame.audio, Process(w, c, originals, t, frame).1.output.audio;
      var i := f * input.channels + ch;
      var plan := PlanFor(w, c, originals, w.transcribe(Mono(Plain(input))).value);
      i < |input.samples| == |output.samples| &&
      (!HeldByMatch(w, c, originals, frame, f) ==> output.samples[i] == input.samples[i]) &&
      (HeldByMatch(w, c, originals, frame, f) ==>
        exists k :: 0 <= k < |plan| && C.Holds(plan[k], f) &&
          output.samples[i] ==
            P.Finite(Replaced(Replacement(c, input, w.tone), plan[k], Frames(input), c.fade, f, ch, input.channels)))
  {
    hide T.Accept, C.Merge, Render, Mono, P.RoundsCorrectly, HeldByMatch, Replaced, Replacement, P.Collected,
         T.ToAbsolute;
    var heard := w.transcribe(Mono(Plain(frame.audio))).value;
    var plan := PlanFor(w, c, originals, heard);
    PlanHoldsExactlyMatches(w, c, originals, frame, f);
    assert C.Covered(plan, f) <==> HeldByMatch(w, c, originals, frame, f);
    ReplacementIsAlwaysUsable(c, frame.audio, Rate(c), w.tone);
    PlanIsMerged(w, c, originals, heard);
    RenderIsPointwise(Plain(frame.audio), plan, Replacement(c, frame.audio, w.tone), c.fade, f, ch);
  }

  lemma PlanIsMerged(w: World, c: Config, originals: seq<M.Text>, q: seq<P.Segment>)
    ensures C.Merge(PlanFor(w, c, originals, q)) == PlanFor(w, c, originals, q)
  {
    var found := P.Collected(w.arithmetic, Timestamp(c), c.matching, originals, q);
    C.MergeIsIdempotentAndOrderIndependent(found, found);
  }

  /** A segment of this chunk's transcript matches a phrase and, shifted by the delay, holds frame f. */
  ghost predicate HeldByMatch(w: World, c: Config, originals: seq<M.Text>, frame: AudioFrame, f: int)
    requires ValidFrame(frame, Rate(c)) && w.transcribe(Mono(Plain(frame.audio))).Some?
  {
    exists s :: s in w.transcribe(Mono(Plain(frame.audio))).value &&
      P.Censors(w.arithmetic, Timestamp(c), c.matching, originals, s, f)
  }

  /** Some configured phrase, normalized, stands in the normalized text within the boundary rule. */
  ghost predicate Speaks(phrases: seq<M.Text>, o: M.Options, text: M.Text)
  {
    exists p, pos: nat :: p in phrases && M.Normalize(M.ModeOf(o), p) != [] &&
      M.IsHit(M.Normalize(M.ModeOf(o), text), M.Normalize(M.ModeOf(o), p), o, pos)
  }

  /** From configuration to censored frames: with case-insensitive matching and the phrases as configured, frame f is
      held by a match if and only if it lies where some well-formed segment lands whose text speaks one of them. */
  lemma ConfiguredPhrasesHoldFrames(w: World, c: Config, phrases: seq<M.Text>, frame: AudioFrame, f: int)
    requires ValidFrame(frame, Rate(c)) && w.transcribe(Mono(Plain(frame.audio))).Some? && !c.matching.caseSensitive
    ensures HeldByMatch(w, c, M.Configure(phrases).originals, frame, f) <==>
      exists s :: s in w.transcribe(Mono(Plain(frame.audio))).value && 0 <= s.startFrame < s.endFrame &&
        Speaks(phrases, c.matching, s.text) && P.Landing(w.arithmetic, Timestamp(c), s).Some? &&
        C.Holds(P.Landing(w.arithmetic, Timestamp(c), s).value, f)
  {
    hide Mono, Plain, P.Landing, M.HasMatch, Speaks, C.Holds;
    forall s ensures P.Matching(s, c.matching, M.Configure(phrases).originals) <==>
        0 <= s.startFrame < s.endFrame && Speaks(phrases, c.matching, s.text)
    {
      SpokenIsMatched(phrases, c.matching, s.text);
    }
  }

  lemma SpokenIsMatched(phrases: seq<M.Text>, o: M.Options, text: M.Text)
    requires !o.caseSensitive
    ensures M.HasMatch(text, o, M.Configure(phrases).originals) <==> Speaks(phrases, o, text)
  {
    hide M.HasMatch, M.IsHit, M.Normalize;
    M.ConfiguredPhrasesDecide(phrases, o, text);
  }

  lemma PlanHoldsExactlyMatches(w: World, c: Config, originals: seq<M.Text>, frame: AudioFrame, f: int)
    requires P.RoundsCorrectly(w.arithmetic) && Rate(c) < P.RATE_LIMIT
    requires ValidFrame(frame, Rate(c)) && w.transcribe(Mono(Plain(frame.audio))).Some?
    ensures C.Covered(PlanFor(w, c, originals, w.transcribe(Mono(Plain(frame.audio))).value), f) <==>
      HeldByMatch(w, c, originals, frame, f)
  {
    hide Mono, Plain, P.RoundsCorrectly, P.Censors, C.Covered, P.Collected;
    var heard := w.transcribe(Mono(Plain(frame.audio))).value;
    P.PlanCensorsExactlyMatchingFrames(w.arithmetic, Timestamp(c), c.matching, originals, heard, f);
  }

  /** The reported intervals are exactly the planned ones that lie inside the chunk, moved to absolute frames; one
      that spills past the chunk is rendered (clipped) but not reported. */
  lemma ReportedIntervalsLieInTheChunk(
    w: World, c: Config, originals: seq<M.Text>, t: T.Timeline, frame: AudioFrame, m: Interval)
    requires Process(w, c, originals, t, frame).1.status == Processed
    ensures m in Process(w, c, originals, t, frame).1.intervals <==>
      T.Interval(m.startFrame - frame.firstFrame, m.endFrame - frame.firstFrame)
        in PlanFor(w, c, originals, w.transcribe(Mono(Plain(frame.audio))).value) &&
      frame.firstFrame <= m.startFrame < m.endFrame <= frame.firstFrame + Frames(frame.audio)
  {
    hide Mono, Plain, Rendered, PlanFor, AbsoluteTranscript, T.ToAbsolute;
    var (u, update) := T.Accept(t, ChunkOf(frame));
    var plan := PlanFor(w, c, originals, w.transcribe(Mono(Plain(frame.audio))).value);
    var a := update.anchor.value;
    T.VectorMapsExactlyLiveEntries(u, a, plan, m);
    var rel := T.Interval(m.startFrame - frame.firstFrame, m.endFrame - frame.firstFrame);
    assert T.ValidAnchor(u, a) && a.firstFrame == frame.firstFrame && a.frameCount == Frames(frame.audio);
    forall i | 0 <= i < |plan|
      ensures T.MapInterval(u, a, plan[i]) == Some(m) <==>
        plan[i] == rel && frame.firstFrame <= m.startFrame < m.endFrame <= frame.firstFrame + Frames(frame.audio)
    {
      MapsToExactly(u, a, plan[i], m);
    }
  }

  /** The reported transcript is made of the heard segments that lie inside the chunk, text and all, moved to absolute
      frames. */
  lemma TranscriptIsMoved(
    w: World, c: Config, originals: seq<M.Text>, t: T.Timeline, frame: AudioFrame, m: P.Segment)
    requires Process(w, c, originals, t, frame).1.status == Processed
    ensures m in Process(w, c, originals, t, frame).1.transcript <==>
      m.(startFrame := m.startFrame - frame.firstFrame, endFrame := m.endFrame - frame.firstFrame)
        in w.transcribe(Mono(Plain(frame.audio))).value &&
      frame.firstFrame <= m.startFrame < m.endFrame <= frame.firstFrame + Frames(frame.audio)
  {
    hide Mono, Plain, Rendered, PlanFor, AbsoluteTranscript, T.ToAbsolute, T.MapInterval;
    var (u, update) := T.Accept(t, ChunkOf(frame));
    var a := update.anchor.value;
    assert T.ValidAnchor(u, a) && a.firstFrame == frame.firstFrame && a.frameCount == Frames(frame.audio);
    MovedExactly(u, a, w.transcribe(Mono(Plain(frame.audio))).value, m);
  }

  lemma {:induction false} MovedExactly(t: T.Timeline, a: T.Anchor, q: seq<P.Segment>, m: P.Segment)
    requires T.ValidAnchor(t, a)
    ensures m in AbsoluteTranscript(t, a, q) <==>
      m.(startFrame := m.startFrame - a.firstFrame, endFrame := m.endFrame - a.firstFrame) in q &&
      a.firstFrame <= m.startFrame < m.endFrame <= a.firstFrame + a.frameCount
  {
    hide T.MapInterval;
    if q != [] {
      var front, s := q[..|q| - 1], q[|q| - 1];
      assert q == front + [s];
      MovedExactly(t, a, front, m);
      MapsToExactly(t, a, T.Interval(s.startFrame, s.endFrame), T.Interval(m.startFrame, m.endFrame));
      if i :| T.MapInterval(t, a, T.Interval(s.startFrame, s.endFrame)) == Some(i) {
        MapsToExactly(t, a, T.Interval(s.startFrame, s.endFrame), i);
      }
    }
  }

  /** In the order heard. */
  lemma {:induction false} TranscriptKeepsOrder(t: T.Timeline, a: T.Anchor, q: seq<P.Segment>, later: seq<P.Segment>)
    ensures AbsoluteTranscript(t, a, q + later) == AbsoluteTranscript(t, a, q) + AbsoluteTranscript(t, a, later)
  {
    hide T.MapInterval;
    if later == [] {
      assert q + later == q;
    } else {
      assert (q + later)[..|q + later| - 1] == q + later[..|later| - 1];
      TranscriptKeepsOrder(t, a, q, later[..|later| - 1]);
    }
  }

  lemma MapsToExactly(t: T.Timeline, a: T.Anchor, x: Interval, m: Interval)
    requires T.ValidAnchor(t, a)
    ensures T.MapInterval(t, a, x) == Some(m) <==>
      x == T.Interval(m.startFrame - a.firstFrame, m.endFrame - a.firstFrame) &&
      a.firstFrame <= m.startFrame < m.endFrame <= a.firstFrame + a.frameCount
  {
  }

  // ---- the object ---------------------------------------------------------------------------------------

  class EndToEndAudioPipeline {
    const config: Config
    const timeline: T.AudioTimelineCoordinator
    const planner: P.MatchPlanner

    ghost predicate Valid()
    {
      timeline.sampleRate == Rate(config) && planner.options == config.matching &&
        planner.timestamp == Timestamp(config)
    }

    constructor (config: Config, phrases: seq<M.Text>)
      ensures Valid() && this.config == config && fresh(timeline) && fresh(planner)
      ensures timeline.State() == T.Init(config.sampleRate) && planner.matcher == M.Configure(phrases)
    {
      this.config := config;
      timeline := new T.AudioTimelineCoordinator(config.sampleRate);
      planner := new P.MatchPlanner(phrases, config.matching, P.TimestampConfig(Rate(config), config.delayFrames));
    }

    /** to_absolute on the transcript. */
    method MapTranscript(anchor: T.Anchor, q: seq<P.Segment>) returns (absolute: seq<P.Segment>)
      ensures absolute == AbsoluteTranscript(timeline.State(), anchor, q)
    {
      hide T.MapInterval;
      absolute := [];
      for i := 0 to |q|
        invariant absolute == AbsoluteTranscript(timeline.State(), anchor, q[..i])
      {
        assert q[..i + 1][..i] == q[..i];
        var t := T.Timeline(timeline.sampleRate, timeline.anchored, timeline.requiresDiscontinuity, timeline.nextFrame,
                            timeline.generation);
        var mapped := T.MapInterval(t, anchor, T.Interval(q[i].startFrame, q[i].endFrame));
        if mapped.Some? {
          absolute := absolute + [q[i].(startFrame := mapped.value.startFrame, endFrame := mapped.value.endFrame)];
        }
      }
      assert q[..|q|] == q;
    }

    method ProcessFrame(w: World, frame: AudioFrame) returns (result: Result)
      requires Valid()
      modifies timeline
      ensures Valid()
      ensures (timeline.State(), result) == Process(w, config, planner.matcher.originals, old(timeline.State()), frame)
    {
      hide T.Accept, Render, Mono, Replacement, AbsoluteTranscript, T.ToAbsolute, P.Collected, C.Merge;
      result := Result(InvalidAudio, T.InvalidChunk, frame, [], []);
      if !ValidFrame(frame, Rate(config)) {
        return;
      }
      var update := timeline.AcceptChunk(ChunkOf(frame));
      result := result.(timelineStatus := update.status);
      if update.anchor.None? {
        result := result.(status := TimelineRejected);
        return;
      }
      var mono := ToMono(Plain(frame.audio));
      var heard := w.transcribe(mono);
      if heard.None? {
        result := result.(status := RuntimeFailure);
        return;
      }
      var plan := planner.Plan(w.arithmetic, heard.value);
      var transcript := MapTranscript(update.anchor.value, heard.value);
      var intervals := timeline.MapAll(update.anchor.value, plan);
      var replacement := Replacement(config, frame.audio, w.tone);
      var rendered := RenderBuffer(Plain(frame.audio), plan, replacement, config.fade);
      result := result.(status := Processed, output := frame.(audio := Captured(rendered)), transcript := transcript,
                        intervals := intervals);
    }
  }
}

/** Rendering replacement audio over censored frames (src/core/replacement_renderer.cpp). Samples are real
    numbers: rounding of the gain product is not part of this model. */
module ReplacementRenderer {
  import opened CensorScheduler

  datatype AudioBuffer = AudioBuffer(sampleRate: nat, channels: nat, samples: seq<real>)

  function FrameCount(a: AudioBuffer): nat
  {
    if a.channels == 0 then 0 else |a.samples| / a.channels
  }

  function Min(x: int, y: int): int
  {
    if x < y then x else y
  }

  function FadeGain(frame: nat, length: nat, fadeFrames: nat): real
    requires frame < length
  {
    var fade := Min(fadeFrames, length / 2);
    if fadeFrames == 0 || fade == 0 then 1.0
    else if frame < fade then (frame + 1) as real / (fade + 1) as real
    else if length - frame <= fade then (length - frame) as real / (fade + 1) as real
    else 1.0
  }

  /** The gain is in (0, 1] and symmetric about the middle of the interval. */
  lemma FadeIsSymmetricAndBounded(frame: nat, length: nat, fadeFrames: nat)
    requires frame < length
    ensures 0.0 < FadeGain(frame, length, fadeFrames) <= 1.0
    ensures FadeGain(frame, length, fadeFrames) == FadeGain(length - 1 - frame, length, fadeFrames)
    ensures fadeFrames < frame + 1 && fadeFrames < length - frame ==> FadeGain(frame, length, fadeFrames) == 1.0
  {
    var fade := Min(fadeFrames, length / 2);
    if frame < fade {
      Proportion(frame + 1, fade + 1);
    } else if length - frame <= fade {
      Proportion(length - frame, fade + 1);
    }
  }

  lemma Proportion(a: nat, b: nat)
    requires 0 < a <= b
    ensures 0.0 < a as real / b as real <= 1.0
  {
  }

  lemma IndexInRange(f: nat, c: nat, channels: nat, frames: nat, size: nat)
    requires c < channels && f < frames && frames == size / channels
    ensures 0 <= f * channels + c < frames * channels <= size
    ensures (f * channels + c) / channels == f && (f * channels + c) % channels == c
  {
    assert f * channels + c < (f + 1) * channels;
    assert (f + 1) * channels <= frames * channels;
    assert frames * channels + size % channels == size;
    DivMod(f, c, channels);
  }

  lemma DivMod(f: nat, c: nat, channels: nat)
    requires c < channels
    ensures (f * channels + c) / channels == f && (f * channels + c) % channels == c
  {
    var s := f * channels + c;
    var q, r := s / channels, s % channels;
    assert s == q * channels + r;
    StepsApart(q, f, channels);
    StepsApart(f, q, channels);
  }

  lemma {:induction false} StepsApart(a: nat, b: nat, n: nat)
    ensures a < b ==> a * n + n <= b * n
    decreases b
  {
    if a < b {
      assert b * n == (b - 1) * n + n;
      StepsApart(a, b - 1, n);
    }
  }

  /** The source sample: frames repeat cyclically, channels map one to one, from mono, or clamp to the last. */
  function ReplacementSample(r: AudioBuffer, frame: nat, channel: nat, outputChannels: nat): real
  {
    if r.channels == 0 || FrameCount(r) == 0 then 0.0
    else
      var f := frame % FrameCount(r);
      var c := if r.channels == outputChannels && channel < r.channels then channel
               else if r.channels == 1 then 0 else Min(channel, r.channels - 1);
      IndexInRange(f, c, r.channels, FrameCount(r), |r.samples|);
      r.samples[f * r.channels + c]
  }

  predicate Usable(r: AudioBuffer)
  {
    r.sampleRate != 0 && r.channels != 0 && FrameCount(r) != 0 && |r.samples| % r.channels == 0
  }

  // ---- the specification, sample by sample --------------------------------------------------------------

  function ClipBegin(x: Interval): nat
  {
    Max(0, x.startFrame)
  }

  function ClipEnd(x: Interval, frames: nat): int
  {
    Min(frames, x.endFrame)
  }

  /** What frame `f`, channel `c` becomes inside interval `x` of a buffer of `frames` frames. */
  function Replaced(r: AudioBuffer, x: Interval, frames: nat, fade: nat, f: nat, c: nat, channels: nat): real
    requires f < frames && Holds(x, f)
  {
    var k := f - ClipBegin(x);
    ReplacementSample(r, k, c, channels) * FadeGain(k, ClipEnd(x, frames) - ClipBegin(x), fade)
  }

  /** Sample `s` after painting the intervals in order, later ones over earlier ones. */
  function Painted(input: AudioBuffer, q: seq<Interval>, r: AudioBuffer, fade: nat, s: nat): real
    requires s < |input.samples|
  {
    if q == [] || input.channels == 0 then input.samples[s]
    else
      var x, f := q[|q| - 1], s / input.channels;
      if f < FrameCount(input) && Holds(x, f)
      then Replaced(r, x, FrameCount(input), fade, f, s % input.channels, input.channels)
      else Painted(input, q[..|q| - 1], r, fade, s)
  }

  function Render(input: AudioBuffer, intervals: seq<Interval>, r: AudioBuffer, fade: nat): (out: AudioBuffer)
    ensures |out.samples| == |input.samples|
  {
    if input.channels == 0 || FrameCount(input) == 0 || !Usable(r) then input
    else
      input.(samples := seq(|input.samples|, s requires 0 <= s < |input.samples| =>
                              Painted(input, Merge(intervals), r, fade, s)))
  }

  // ---- meaning --------------------------------------------------------------------------------------------

  lemma {:induction false} PaintedInOneInterval(
    input: AudioBuffer, q: seq<Interval>, r: AudioBuffer, fade: nat, s: nat, i: nat)
    requires Canonical(q) && input.channels > 0 && s < |input.samples| && i < |q|
    requires s / input.channels < FrameCount(input) && Holds(q[i], s / input.channels)
    ensures Painted(input, q, r, fade, s) ==
      Replaced(r, q[i], FrameCount(input), fade, s / input.channels, s % input.channels, input.channels)
  {
    if i < |q| - 1 {
      assert q[i].endFrame < q[|q| - 1].startFrame;
      PaintedInOneInterval(input, q[..|q| - 1], r, fade, s, i);
    }
  }

  lemma {:induction false} UncoveredStays(input: AudioBuffer, q: seq<Interval>, r: AudioBuffer, fade: nat, s: nat)
    requires input.channels > 0 && s < |input.samples|
    requires s / input.channels >= FrameCount(input) || !Covered(q, s / input.channels)
    ensures Painted(input, q, r, fade, s) == input.samples[s]
  {
    if q != [] {
      var front := q[..|q| - 1];
      assert forall i :: 0 <= i < |front| ==> front[i] == q[i];
      UncoveredStays(input, front, r, fade, s);
    }
  }

  /** Every frame outside the merged intervals keeps its samples. A frame inside the merged interval x gets, on
      every channel, the replacement's frame (f - begin) mod R on the mapped channel times the fade gain. */
  lemma RenderIsPointwise(input: AudioBuffer, intervals: seq<Interval>, r: AudioBuffer, fade: nat, f: nat, c: nat)
    requires c < input.channels && f < FrameCount(input)
    ensures var s := f * input.channels + c; s < |input.samples|
    ensures var s, out := f * input.channels + c, Render(input, intervals, r, fade).samples;
      (!Usable(r) || !Covered(intervals, f) ==> out[s] == input.samples[s]) &&
      (forall i :: Usable(r) && 0 <= i < |Merge(intervals)| && Holds(Merge(intervals)[i], f) ==>
        out[s] == Replaced(r, Merge(intervals)[i], FrameCount(input), fade, f, c, input.channels))
    ensures Covered(intervals, f) <==> exists i :: 0 <= i < |Merge(intervals)| && Holds(Merge(intervals)[i], f)
  {
    hide Merge;
    var s, q := f * input.channels + c, Merge(intervals);
    IndexInRange(f, c, input.channels, FrameCount(input), |input.samples|);
    MergeIsCanonical(intervals);
    assert Covered(q, f) <==> Covered(intervals, f);
    if Usable(r) {
      if !Covered(intervals, f) {
        UncoveredStays(input, q, r, fade, s);
      }
      forall i | 0 <= i < |q| && Holds(q[i], f)
        ensures Render(input, intervals, r, fade).samples[s] ==
          Replaced(r, q[i], FrameCount(input), fade, f, c, input.channels)
      {
        PaintedInOneInterval(input, q, r, fade, s, i);
      }
    }
  }

  // ---- the painted samples --------------------------------------------------------------------------------

  /** The gain rises and falls in equal steps: over the e frames at each end, e being the fade or half the interval if
      that is less, it is 1, 2, .., e parts of e + 1; in between it is 1. */
  lemma FadeIsLinear(frame: nat, length: nat, fadeFrames: nat)
    requires frame < length
    ensures var e := if fadeFrames <= length / 2 then fadeFrames else length / 2;
      FadeGain(frame, length, fadeFrames) * (e + 1) as real == Min(Min(frame + 1, length - frame), e + 1) as real
  {
    var e := Min(fadeFrames, length / 2);
    var steps := Min(Min(frame + 1, length - frame), e + 1);
    Halves(length);
    if steps == e + 1 {
      assert FadeGain(frame, length, fadeFrames) == 1.0;
    } else {
      assert FadeGain(frame, length, fadeFrames) == steps as real / (e + 1) as real;
      hide FadeGain;
      Divided(steps, e + 1);
    }
  }

  lemma Halves(n: nat)
    ensures n / 2 + n / 2 <= n
  {
  }

  lemma Divided(a: int, n: nat)
    requires n > 0
    ensures a as real / n as real * n as real == a as real
  {
  }

  /** Where channel c of the output is read in a frame of the replacement: the same channel, the only one, or the last
      one there is. */
  function SourceChannel(r: AudioBuffer, c: nat, channels: nat): nat
    requires r.channels > 0
  {
    if r.channels == channels then c else if r.channels == 1 then 0 else if c < r.channels then c else r.channels - 1
  }

  /** The samples of a censored stretch, in the replacement's own: frame k of the stretch is frame k mod R of the
      replacement, with the gain that frame k has in the clipped stretch. */
  lemma PaintedSample(
    input: AudioBuffer, intervals: seq<Interval>, r: AudioBuffer, fade: nat, f: nat, c: nat, i: nat)
    requires c < input.channels && f < FrameCount(input) && Usable(r)
    requires i < |Merge(intervals)| && Holds(Merge(intervals)[i], f)
    ensures var x, s := Merge(intervals)[i], f * input.channels + c;
      var begin := if x.startFrame < 0 then 0 else x.startFrame;
      var end := if x.endFrame < FrameCount(input) then x.endFrame else FrameCount(input);
      var k, R := f - begin, |r.samples| / r.channels;
      var source := k % R * r.channels + SourceChannel(r, c, input.channels);
      s < |input.samples| && 0 <= k < end - begin && source < |r.samples| &&
      Render(input, intervals, r, fade).samples[s] == r.samples[source] * FadeGain(k, end - begin, fade)
  {
    hide Merge, Render, FadeGain;
    RenderIsPointwise(input, intervals, r, fade, f, c);
    var k := f - ClipBegin(Merge(intervals)[i]);
    IndexInRange(k % FrameCount(r), SourceChannel(r, c, input.channels), r.channels, FrameCount(r), |r.samples|);
  }

  /** Without a fade and with equal channel counts, a censored stretch is the replacement repeated: sample j of the
      stretch is sample j mod n of its n samples. */
  lemma StretchRepeatsReplacement(
    input: AudioBuffer, intervals: seq<Interval>, r: AudioBuffer, f: nat, c: nat, i: nat)
    requires c < input.channels == r.channels && f < FrameCount(input) && Usable(r)
    requires i < |Merge(intervals)| && Holds(Merge(intervals)[i], f)
    ensures var x, s := Merge(intervals)[i], f * input.channels + c;
      var begin := if x.startFrame < 0 then 0 else x.startFrame;
      var j := s - begin * input.channels;
      s < |input.samples| && j >= 0 && r.samples != [] &&
      Render(input, intervals, r, 0).samples[s] == r.samples[j % |r.samples|]
  {
    hide Merge, Render;
    PaintedSample(input, intervals, r, 0, f, c, i);
    var k := f - ClipBegin(Merge(intervals)[i]);
    WholeSamples(r);
    hide Usable, FrameCount, FadeGain, IsValid, Holds;
    var j := f * input.channels + c - ClipBegin(Merge(intervals)[i]) * input.channels;
    FromBegin(f, k, c, input.channels);
    IndexWraps(j, k, c, r.channels, FrameCount(r), |r.samples|);
    NoFade(k, ClipEnd(Merge(intervals)[i], FrameCount(input)) - ClipBegin(Merge(intervals)[i]));
  }

  lemma NoFade(frame: nat, length: nat)
    requires frame < length
    ensures FadeGain(frame, length, 0) == 1.0
  {
  }

  lemma FromBegin(f: nat, k: nat, c: nat, channels: nat)
    requires k <= f
    ensures f * channels + c - (f - k) * channels == k * channels + c
  {
  }

  lemma WholeSamples(r: AudioBuffer)
    requires Usable(r)
    ensures |r.samples| == FrameCount(r) * r.channels && FrameCount(r) == |r.samples| / r.channels
    ensures r.channels > 0 && FrameCount(r) > 0 && r.samples != []
  {
  }

  lemma IndexWraps(j: nat, k: nat, c: nat, channels: nat, frames: nat, n: nat)
    requires c < channels && frames > 0 && j == k * channels + c && n == frames * channels
    ensures n > 0 && j % n == k % frames * channels + c
  {
    var q, m := k / frames, k % frames;
    assert k == q * frames + m;
    assert j == q * n + (m * channels + c);
    StepsApart(m, frames, channels);
    DivMod(q, m * channels + c, n);
  }

  /** Interval lists that cover the same frames render the same audio. */
  lemma RenderDependsOnFramesOnly(input: AudioBuffer, a: seq<Interval>, b: seq<Interval>, r: AudioBuffer, fade: nat)
    requires SameFrames(a, b)
    ensures Render(input, a, r, fade) == Render(input, b, r, fade)
  {
    hide Merge;
    MergeDecidesSameFrames(a, b);
  }

  // ---- the loops --------------------------------------------------------------------------------------------

  lemma ClipsExactly(x: Interval, frames: nat)
    ensures forall f: nat :: f < frames && Holds(x, f) <==> ClipBegin(x) <= f < ClipEnd(x, frames)
    ensures ClipEnd(x, frames) <= frames
  {
  }

  /** The two inner loops: overwrite one clipped interval in place. */
  method PaintInterval(output: array<real>, input: AudioBuffer, r: AudioBuffer, fade: nat, x: Interval)
    requires output.Length == |input.samples| && input.channels > 0
    modifies output
    ensures forall s :: 0 <= s < output.Length ==>
      output[s] == if s / input.channels < FrameCount(input) && Holds(x, s / input.channels)
        then Replaced(r, x, FrameCount(input), fade, s / input.channels, s % input.channels, input.channels)
        else old(output[s])
  {
    hide Replaced, FrameCount;
    ClipsExactly(x, FrameCount(input));
    var begin, end := ClipBegin(x), ClipEnd(x, FrameCount(input));
    hide Holds, ClipBegin, ClipEnd;
    if end <= 0 || begin >= end {
      return;
    }
    for f := begin to end
      invariant forall s :: 0 <= s < output.Length ==>
        output[s] == if begin <= s / input.channels < f
          then Replaced(r, x, FrameCount(input), fade, s / input.channels, s % input.channels, input.channels)
          else old(output[s])
    {
      PaintFrame(output, input, r, fade, x, f);
    }
  }

  /** Sample positions and (frame, channel) pairs determine each other. */
  lemma SampleIndex(f: nat, c: nat, input: AudioBuffer)
    requires c < input.channels && f < FrameCount(input)
    ensures f * input.channels + c < |input.samples|
    ensures (f * input.channels + c) / input.channels == f && (f * input.channels + c) % input.channels == c
    ensures forall s: nat :: s / input.channels == f && s % input.channels == c ==> s == f * input.channels + c
  {
    IndexInRange(f, c, input.channels, FrameCount(input), |input.samples|);
    forall s: nat | s / input.channels == f && s % input.channels == c
      ensures s == f * input.channels + c
    {
      assert s == (s / input.channels) * input.channels + s % input.channels;
    }
  }

  method PaintFrame(output: array<real>, input: AudioBuffer, r: AudioBuffer, fade: nat, x: Interval, f: nat)
    requires output.Length == |input.samples| && input.channels > 0 && f < FrameCount(input) && Holds(x, f)
    modifies output
    ensures forall s :: 0 <= s < output.Length ==>
      output[s] == if s / input.channels == f
        then Replaced(r, x, FrameCount(input), fade, f, s % input.channels, input.channels)
        else old(output[s])
  {
    for channel := 0 to input.channels
      invariant forall s :: 0 <= s < output.Length ==>
        output[s] == if s / input.channels == f && s % input.channels < channel
          then Replaced(r, x, FrameCount(input), fade, f, s % input.channels, input.channels)
          else old(output[s])
    {
      hide Replaced, FrameCount;
      SampleIndex(f, channel, input);
      var value := ReplaceOne(r, x, FrameCount(input), fade, f, channel, input.channels);
      output[f * input.channels + channel] := value;
    }
  }

  method ReplaceOne(r: AudioBuffer, x: Interval, frames: nat, fade: nat, f: nat, c: nat, channels: nat)
    returns (v: real)
    requires f < frames && Holds(x, f)
    ensures v == Replaced(r, x, frames, fade, f, c, channels)
  {
    var frame, length := f - ClipBegin(x), ClipEnd(x, frames) - ClipBegin(x);
    var gain := FadeGain(frame, length, fade);
    v := ReplacementSample(r, frame, c, channels) * gain;
  }

  /** render(): copy the input, merge the intervals, paint each one in place. */
  method RenderBuffer(input: AudioBuffer, intervals: seq<Interval>, r: AudioBuffer, fade: nat)
    returns (out: AudioBuffer)
    ensures out == Render(input, intervals, r, fade)
  {
    if input.channels == 0 || FrameCount(input) == 0 || !Usable(r) {
      return input;
    }
    hide Merge, Replaced;
    var merged := MergeIntervals(intervals);
    var output := new real[|input.samples|](i requires 0 <= i < |input.samples| => input.samples[i]);
    for i := 0 to |merged|
      invariant forall s :: 0 <= s < output.Length ==> output[s] == Painted(input, merged[..i], r, fade, s)
    {
      assert merged[..i + 1][..i] == merged[..i];
      PaintInterval(output, input, r, fade, merged[i]);
    }
    assert merged[..|merged|] == merged;
    return input.(samples := output[..]);
  }
}

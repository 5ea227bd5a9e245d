/** The bridge's clock: which blocks follow one another, what a timestamp jump does, and when the delay is over
    (src/obs/native_audio_bridge.cpp:319-380, 521-581, 635-735). */
module BridgeTiming {
  import T = AudioTimeline
  import G = GapRecovery
  import S = BridgeSafety
  import opened BridgeMachine

  // ---- the clock ------------------------------------------------------------------------------------------

  /** A block ends `frames / rate` seconds after its timestamp, in whole nanoseconds, or at the largest timestamp. */
  lemma EndTimeExactly(p: Packet, rate: nat)
    requires rate > 0 && p.timestamp <= T.UINT64_MAX
    ensures var t := EndTime(p, rate);
      p.timestamp <= t <= T.UINT64_MAX && (t - p.timestamp) * rate <= p.frames * 1_000_000_000 &&
      (t < T.UINT64_MAX ==> p.frames * 1_000_000_000 < (t - p.timestamp + 1) * rate)
  {
    var t, n := EndTime(p, rate), p.frames * 1_000_000_000;
    var d := n / rate;
    assert n == d * rate + n % rate;
    if t < p.timestamp + d {
      Scaled(t - p.timestamp, d, rate);
    }
  }

  lemma Scaled(a: nat, b: nat, n: nat)
    requires a <= b
    ensures a * n <= b * n
  {
  }

  /** Block q starts when p ends or up to one second later. */
  predicate Follows(p: Packet, q: Packet, rate: nat)
  {
    EndTime(p, rate) <= q.timestamp <= EndTime(p, rate) + 1_000_000_000
  }

  /** A block breaks the stream exactly when it does not start within a second from the end of the one before, or the
      frame counter would overflow. */
  lemma StreamBreaksExactly(s: Stream, timestamp: nat, frames: nat, rate: nat)
    requires 0 <= s.nextFrame <= T.INT64_MAX
    ensures var (v, drop) := BeginBlock(s, timestamp, frames, rate);
      v.discontinuity == drop && v.hasStream &&
      (drop <==> (s.hasStream && !(s.lastEnd <= timestamp <= s.lastEnd + 1_000_000_000)) ||
                 s.nextFrame + frames > T.INT64_MAX) &&
      v.lastEnd == EndTime(G.Packet(s.nextFrame, frames, timestamp, false, true), rate)
  {
  }

  // ---- neighbours in the delay queue ----------------------------------------------------------------------

  ghost predicate TimesInv(s: State)
  {
    var raw, rate, stream := s.host.raw, s.timeline.sampleRate, s.host.stream;
    (forall i :: 0 < i < |raw| ==> Follows(raw[i - 1], raw[i], rate)) &&
    (raw != [] || s.cb.CbRaw? ==> stream.hasStream) &&
    (raw != [] && !s.cb.CbRaw? ==> stream.lastEnd == EndTime(raw[|raw| - 1], rate)) &&
    (s.cb.CbRaw? ==>
      stream.lastEnd == EndTime(s.cb.p, rate) && (raw != [] ==> Follows(raw[|raw| - 1], s.cb.p, rate)))
  }

  lemma BeginKeepsTimes(s: State, ts: nat, frames: nat, finite: bool)
    requires S.Shape(s) && TimesInv(s) && Enabled(s, BeginBlockStep(ts, frames, finite)) && S.NoOverflow(s, frames)
    ensures TimesInv(Begin(s, ts, frames, finite))
  {
    hide Readable, Duration, AddTimestamp;
    StreamBreaksExactly(s.host.stream, ts, frames, s.timeline.sampleRate);
  }

  lemma PoppedFollows(raw: seq<Packet>, rate: nat)
    requires raw != [] && forall i :: 0 < i < |raw| ==> Follows(raw[i - 1], raw[i], rate)
    ensures forall i :: 0 < i < |raw[1..]| ==> Follows(raw[1..][i - 1], raw[1..][i], rate)
  {
    hide Follows;
    forall i | 0 < i < |raw[1..]| ensures Follows(raw[1..][i - 1], raw[1..][i], rate) {
      assert raw[1..][i - 1] == raw[i] && raw[1..][i] == raw[i + 1];
      assert Follows(raw[i + 1 - 1], raw[i + 1], rate);
    }
  }

  lemma CallbackKeepsTimes(s: State)
    requires S.Shape(s) && TimesInv(s) && !s.cb.CbIdle?
    ensures TimesInv(CallbackStep(s))
  {
    hide EndTime, HasFirst, S.CarriesNewest;
    var v := CallbackStep(s);
    if s.cb.CbRaw? {
      forall i | 0 < i < |v.host.raw| ensures Follows(v.host.raw[i - 1], v.host.raw[i], s.timeline.sampleRate) {
        assert v.host.raw[i - 1] == s.host.raw[i - 1];
      }
    } else if s.cb.CbRawLost? || s.cb.CbRawLostGap? {
    } else if Consuming(s.cb) {
      assert v.host.raw == s.host.raw || (s.host.raw != [] && v.host.raw == s.host.raw[1..]);
      assert v.host.stream == s.host.stream && !v.cb.CbRaw?;
      if v.host.raw != s.host.raw {
        PoppedFollows(s.host.raw, s.timeline.sampleRate);
      }
    } else {
    }
  }

  lemma StepKeepsTimes(s: State, step: Step)
    requires S.Inv(s) && TimesInv(s) && Enabled(s, step) && S.Clean(s, step)
    ensures TimesInv(Apply(s, step)) && Apply(s, step).timeline.sampleRate == s.timeline.sampleRate
  {
    hide S.FlowInv, S.RawInv, S.KnownInv, S.EmittedInv, S.ScanInv, EndTime, HasFirst;
    RateStays(s, step);
    match step
    case BeginBlockStep(ts, frames, finite) => BeginKeepsTimes(s, ts, frames, finite);
    case CallbackMoves => CallbackKeepsTimes(s);
    case _ =>
  }

  lemma RateStays(s: State, step: Step)
    requires S.Shape(s) && Enabled(s, step)
    ensures Apply(s, step).timeline.sampleRate == s.timeline.sampleRate
  {
    hide HasFirst, EndTime, BeginBlock;
  }

  lemma {:induction false} EveryRunKeepsTimes(states: seq<State>, steps: seq<Step>, rate: nat, k: nat)
    requires S.IsRun(states, steps) && states[0] == Init(rate) && k <= |steps|
    ensures TimesInv(states[k])
  {
    hide TimesInv, S.Inv, Enabled, Apply, S.Clean;
    if k > 0 {
      EveryRunKeepsTimes(states, steps, rate, k - 1);
      S.EveryRunKeepsInv(states, steps, rate, k - 1);
      StepKeepsTimes(states[k - 1], steps[k - 1]);
    } else {
      assert TimesInv(Init(rate)) by { FreshTimes(rate); }
    }
  }

  lemma FreshTimes(rate: nat)
    ensures TimesInv(Init(rate))
  {
  }

  /** In every reachable state each block of the delay queue starts at the end of the one before it, or at most one
      second later: no jump is ever bridged by it. */
  lemma NeighboursFollow(states: seq<State>, steps: seq<Step>, rate: nat, k: nat, i: nat)
    requires S.IsRun(states, steps) && states[0] == Init(rate) && k <= |steps| && 0 < i < |states[k].host.raw|
    ensures var before, block := states[k].host.raw[i - 1], states[k].host.raw[i];
      var end := EndTime(before, states[k].timeline.sampleRate);
      block.first == before.first + before.frames && end <= block.timestamp <= end + 1_000_000_000
  {
    hide EndTime;
    EveryRunKeepsTimes(states, steps, rate, k);
    S.EveryRunKeepsInv(states, steps, rate, k);
  }

  // ---- what a jump is -------------------------------------------------------------------------------------

  /** Neither a new block nor a new stream begins in steps i up to j. */
  predicate NothingBegins(steps: seq<Step>, i: nat, j: nat)
    requires i <= j <= |steps|
  {
    forall m :: i <= m < j ==> !steps[m].BeginBlockStep? && !steps[m].StartCalled?
  }

  lemma {:induction false} StreamStays(states: seq<State>, steps: seq<Step>, rate: nat, i: nat, j: nat)
    requires S.IsRun(states, steps) && states[0] == Init(rate) && i <= j <= |steps| && NothingBegins(steps, i, j)
    ensures states[j].host.stream == states[i].host.stream
    ensures states[j].timeline.sampleRate == states[i].timeline.sampleRate
  {
    hide Enabled, Apply, S.Clean, S.Inv;
    if i < j {
      StreamStays(states, steps, rate, i, j - 1);
      S.EveryRunKeepsInv(states, steps, rate, j - 1);
      OnlyBeginningChangesStream(states[j - 1], steps[j - 1]);
    }
  }

  lemma OnlyBeginningChangesStream(s: State, step: Step)
    requires S.Inv(s) && Enabled(s, step) && !step.BeginBlockStep? && !step.StartCalled?
    ensures Apply(s, step).host.stream == s.host.stream
    ensures Apply(s, step).timeline.sampleRate == s.timeline.sampleRate
  {
    hide HasFirst, EndTime, BeginBlock;
    RateStays(s, step);
  }

  /** A block that begins right after another one in the same stream is a discontinuity if and only if it does not
      follow it. If it is, the delay queue is emptied and old results are to be dropped; if not, both stay as they
      were. */
  lemma JumpExactly(states: seq<State>, steps: seq<Step>, rate: nat, i: nat, j: nat)
    requires S.IsRun(states, steps) && states[0] == Init(rate) && i < j < |steps|
    requires steps[i].BeginBlockStep? && steps[j].BeginBlockStep? && NothingBegins(steps, i + 1, j)
    ensures states[i + 1].cb.CbRaw? && states[j + 1].cb.CbRaw?
    ensures var s, v, before, block := states[j], states[j + 1], states[i + 1].cb.p, states[j + 1].cb.p;
      block.timestamp == steps[j].timestamp && block.frames == steps[j].frames &&
      (v.host.stream.discontinuity <==> !Follows(before, block, s.timeline.sampleRate)) &&
      (v.host.stream.discontinuity ==> v.host.raw == [] && v.flags.resetResults) &&
      (!v.host.stream.discontinuity ==> v.host.raw == s.host.raw && v.flags.resetResults == s.flags.resetResults)
  {
    hide S.Inv, TimesInv, EndTime, BeginBlock;
    BeganAt(states, steps, rate, i);
    BeganAt(states, steps, rate, j);
    StreamStays(states, steps, rate, i + 1, j);
    BreaksExactlyAt(states[j], steps[j]);
  }

  /** The first block of a stream is never one. */
  lemma FirstBlockIsNoJump(states: seq<State>, steps: seq<Step>, rate: nat, i: nat, j: nat)
    requires S.IsRun(states, steps) && states[0] == Init(rate) && i < j < |steps|
    requires steps[i].StartCalled? && steps[j].BeginBlockStep? && NothingBegins(steps, i + 1, j)
    ensures !states[j + 1].host.stream.discontinuity && states[j + 1].host.raw == states[j].host.raw
  {
    hide S.Inv, EndTime, BeginBlock;
    StreamStays(states, steps, rate, i + 1, j);
    assert Enabled(states[i], steps[i]) && states[i + 1] == Apply(states[i], steps[i]);
    S.EveryRunKeepsInv(states, steps, rate, j);
    BreaksExactlyAt(states[j], steps[j]);
    assert Enabled(states[j], steps[j]) && states[j + 1] == Apply(states[j], steps[j]);
  }

  lemma BeganAt(states: seq<State>, steps: seq<Step>, rate: nat, j: nat)
    requires S.IsRun(states, steps) && states[0] == Init(rate) && j < |steps| && steps[j].BeginBlockStep?
    ensures S.Inv(states[j]) && Enabled(states[j], steps[j]) && S.Clean(states[j], steps[j])
    ensures states[j + 1] == Apply(states[j], steps[j]) && states[j + 1].cb.CbRaw?
    ensures states[j + 1].timeline == states[j].timeline
    ensures var v := states[j + 1];
      v.host.stream.hasStream && v.host.stream.lastEnd == EndTime(v.cb.p, v.timeline.sampleRate)
  {
    S.EveryRunKeepsInv(states, steps, rate, j);
    hide S.Inv;
  }

  lemma BreaksExactlyAt(s: State, step: Step)
    requires S.Inv(s) && Enabled(s, step) && S.Clean(s, step) && step.BeginBlockStep?
    ensures var v, stream := Apply(s, step), s.host.stream;
      v.cb.CbRaw? && v.cb.p.timestamp == step.timestamp && v.cb.p.frames == step.frames &&
      (v.host.stream.discontinuity <==>
        stream.hasStream && !(stream.lastEnd <= step.timestamp <= stream.lastEnd + 1_000_000_000)) &&
      (v.host.stream.discontinuity ==> v.host.raw == [] && v.flags.resetResults) &&
      (!v.host.stream.discontinuity ==> v.host.raw == s.host.raw && v.flags.resetResults == s.flags.resetResults)
  {
    hide Duration, AddTimestamp, S.FlowInv, S.RawInv, S.KnownInv, S.EmittedInv, S.ScanInv, Readable;
    StreamBreaksExactly(s.host.stream, step.timestamp, step.frames, s.timeline.sampleRate);
  }

  // ---- the callback's way through a block -----------------------------------------------------------------

  /** While a block is being handled, the other threads leave the callback's state alone, only add results, and never
      take a noted loss back. */
  lemma OthersLeaveCallbackAlone(s: State, step: Step)
    requires S.Shape(s) && Enabled(s, step) && !s.cb.CbIdle? && !step.CallbackMoves?
    ensures var v := Apply(s, step);
      v.cb == s.cb && v.host == s.host && v.flags.resetResults == s.flags.resetResults &&
      s.q.results <= v.q.results && (s.flags.gap ==> v.flags.gap)
  {
    hide HasFirst, EndTime, BeginBlock, S.CarriesNewest;
  }

  /** Where the callback stands with a block p that broke the stream: the delay queue holds p alone, the results that
      were there (`stale`) are still to be dropped or just have been, and p carries the mark once it is published. */
  ghost predicate Jumped(s: State, p: Packet, stale: seq<Packet>, log: seq<Emission>)
  {
    s.host.stream.discontinuity && s.host.emitted == log && !s.cb.CbIdle? && s.cb.p.(mark := false) == p &&
    s.host.raw == (if s.cb.CbRaw? then [] else [p]) &&
    (match s.cb
     case CbRaw(q) => q == p && s.flags.resetResults && stale <= s.q.results
     case CbIngress(_) => s.flags.resetResults && stale <= s.q.results
     case CbIngressLost(_) => s.flags.resetResults && stale <= s.q.results
     case CbMark(_) => s.flags.resetResults && stale <= s.q.results
     case CbPublish(q) => s.flags.resetResults && stale <= s.q.results && q.mark
     case CbConsume(_) => s.flags.resetResults && stale <= s.q.results
     case CbDiscard(_) => stale <= s.q.results
     case CbDiscardTo(_, n) => stale <= s.q.results && |stale| <= n
     case CbOldest(_) => true
     case _ => false)
  }

  lemma JumpedStep(s: State, step: Step, p: Packet, stale: seq<Packet>, log: seq<Emission>)
    requires S.Shape(s) && Enabled(s, step) && Jumped(s, p, stale, log)
    ensures var v := Apply(s, step);
      Jumped(v, p, stale, log) ||
      (s.cb.CbOldest? && v.cb.CbIdle? && v.host.raw == [p] && v.host.emitted == log + [Silent])
  {
    hide HasFirst, S.CarriesNewest, BeginBlock;
    if !step.CallbackMoves? {
      OthersLeaveCallbackAlone(s, step);
    } else {
      assert s.cb.CbRaw? ==> [] + [s.cb.p] == [p];
    }
  }

  lemma {:induction false} JumpedRun(
    states: seq<State>, steps: seq<Step>, rate: nat, j: nat, k: nat, p: Packet, stale: seq<Packet>, log: seq<Emission>)
    requires S.IsRun(states, steps) && states[0] == Init(rate) && j <= k <= |steps|
    requires Jumped(states[j], p, stale, log) && forall m :: j < m <= k ==> !states[m].cb.CbIdle?
    ensures Jumped(states[k], p, stale, log)
  {
    hide Jumped, S.Inv, Enabled, Apply, S.Clean;
    if j < k {
      assert !states[k].cb.CbIdle?;
      JumpedRun(states, steps, rate, j, k - 1, p, stale, log);
      S.EveryRunKeepsInv(states, steps, rate, k - 1);
      JumpedStepOf(states[k - 1], steps[k - 1], p, stale, log);
    }
  }

  lemma JumpedStepOf(s: State, step: Step, p: Packet, stale: seq<Packet>, log: seq<Emission>)
    requires S.Inv(s) && Enabled(s, step) && Jumped(s, p, stale, log) && !Apply(s, step).cb.CbIdle?
    ensures Jumped(Apply(s, step), p, stale, log)
  {
    hide Jumped, Apply;
    JumpedStep(s, step, p, stale, log);
  }

  /** The effect of a jump, through any interleaving: the block that broke the stream is given to the chain with the
      mark, nothing is returned for it, it is alone in the delay queue afterwards, and the step that drops results
      drops every one that was there at the jump. */
  lemma JumpTakesEffect(states: seq<State>, steps: seq<Step>, rate: nat, j: nat, k: nat)
    requires S.IsRun(states, steps) && states[0] == Init(rate) && j < k < |steps|
    requires steps[j].BeginBlockStep? && states[j + 1].host.stream.discontinuity
    requires steps[k].CallbackMoves? && forall m :: j < m <= k ==> !states[m].cb.CbIdle?
    ensures var s, v, block := states[k], states[k + 1], states[j + 1].cb.p;
      (v.cb.CbPublish? ==> v.cb.p == block.(mark := true)) &&
      (s.cb.CbConsume? ==> v.cb.CbDiscard?) &&
      (s.cb.CbDiscardTo? ==> forall r :: r in states[j].q.results ==> r !in v.q.results) &&
      (v.cb.CbIdle? ==> v.host.raw == [block] && v.host.emitted == states[j].host.emitted + [Silent])
  {
    hide S.Inv, TimesInv, EndTime, BeginBlock;
    var s, block := states[k], states[j + 1].cb.p;
    var stale, log := states[j].q.results, states[j].host.emitted;
    BeganAt(states, steps, rate, j);
    BreaksExactlyAt(states[j], steps[j]);
    JumpedRun(states, steps, rate, j + 1, k, block, stale, log);
    S.EveryRunKeepsInv(states, steps, rate, k);
    assert Enabled(s, steps[k]) && states[k + 1] == Apply(s, steps[k]);
    LastJumpedStep(s, block, stale, log);
  }

  lemma LastJumpedStep(s: State, p: Packet, stale: seq<Packet>, log: seq<Emission>)
    requires S.Inv(s) && Enabled(s, CallbackMoves) && Jumped(s, p, stale, log)
    ensures var v := Apply(s, CallbackMoves);
      (v.cb.CbPublish? ==> v.cb.p == p.(mark := true)) &&
      (s.cb.CbConsume? ==> v.cb.CbDiscard?) &&
      (s.cb.CbDiscardTo? ==> forall r :: r in stale ==> r !in v.q.results) &&
      (v.cb.CbIdle? ==> v.host.raw == [p] && v.host.emitted == log + [Silent])
  {
    hide HasFirst, S.CarriesNewest, BeginBlock, S.FlowInv, S.RawInv, S.KnownInv, S.EmittedInv, S.ScanInv, EndTime;
    JumpedStep(s, CallbackMoves, p, stale, log);
    if s.cb.CbDiscardTo? {
      S.ResultsAscend(s);
      DroppedIsGone(s.q.results, s.cb.n, stale);
    }
  }

  lemma DroppedIsGone(q: seq<Packet>, n: nat, stale: seq<Packet>)
    requires n <= |q| && |stale| <= n && stale <= q
    requires forall i, j :: 0 <= i < j < |q| ==> q[i].first < q[j].first
    ensures forall r :: r in stale ==> r !in q[n..]
  {
    forall r | r in stale ensures r !in q[n..] {
      var i :| 0 <= i < |stale| && stale[i] == r;
      assert q[i] == r;
    }
  }

  // ---- when the delay is over -----------------------------------------------------------------------------

  /** The callback on its way from judging the delay to its return value. */
  ghost predicate Judging(s: State, p: Packet, raw: seq<Packet>, log: seq<Emission>)
  {
    (s.cb.CbScanStart? || s.cb.CbScan?) && s.cb.p == p && s.host.raw == raw && s.host.emitted == log
  }

  lemma JudgingStep(s: State, step: Step, p: Packet, raw: seq<Packet>, log: seq<Emission>)
    requires S.Shape(s) && Enabled(s, step) && Judging(s, p, raw, log)
    ensures var v := Apply(s, step);
      Judging(v, p, raw, log) ||
      (v.cb.CbIdle? && raw != [] && v.host.raw == raw[1..] && |v.host.emitted| == |log| + 1 &&
       v.host.emitted[..|log|] == log && (v.host.emitted[|log|].Processed? || v.host.emitted[|log|].Undelayed?))
  {
    hide HasFirst, S.CarriesNewest, BeginBlock, EndTime;
    if !step.CallbackMoves? {
      OthersLeaveCallbackAlone(s, step);
    }
  }

  lemma {:induction false} JudgingRun(
    states: seq<State>, steps: seq<Step>, rate: nat, j: nat, k: nat, p: Packet, raw: seq<Packet>, log: seq<Emission>)
    requires S.IsRun(states, steps) && states[0] == Init(rate) && j <= k <= |steps|
    requires Judging(states[j], p, raw, log) && forall m :: j < m <= k ==> !states[m].cb.CbIdle?
    ensures Judging(states[k], p, raw, log)
  {
    hide Judging, S.Inv, Enabled, Apply, S.Clean;
    if j < k {
      assert !states[k].cb.CbIdle?;
      JudgingRun(states, steps, rate, j, k - 1, p, raw, log);
      S.EveryRunKeepsInv(states, steps, rate, k - 1);
      JudgingStepOf(states[k - 1], steps[k - 1], p, raw, log);
    }
  }

  lemma JudgingStepOf(s: State, step: Step, p: Packet, raw: seq<Packet>, log: seq<Emission>)
    requires S.Inv(s) && Enabled(s, step) && Judging(s, p, raw, log) && !Apply(s, step).cb.CbIdle?
    ensures Judging(Apply(s, step), p, raw, log)
  {
    hide Judging, Apply;
    JudgingStep(s, step, p, raw, log);
  }

  /** The delay, exactly. From the moment it is judged (step j) to the callback's return (step k), through any
      interleaving: nothing is returned and the delay queue stays if and only if the block in hand ends less than
      1.5 s after the oldest block; otherwise the oldest block leaves the queue and exactly one block is returned. */
  lemma SilentExactlyWhileFilling(states: seq<State>, steps: seq<Step>, rate: nat, j: nat, k: nat)
    requires S.IsRun(states, steps) && states[0] == Init(rate) && j <= k < |steps|
    requires states[j].cb.CbOldest? && steps[j].CallbackMoves? && forall m :: j < m <= k ==> !states[m].cb.CbIdle?
    requires states[k + 1].cb.CbIdle?
    ensures states[j].host.raw != []
    ensures var s, v, clock := states[j], states[k + 1], states[j].timeline.sampleRate;
      var filling := EndTime(s.cb.p, clock) < EndTime(s.host.raw[0], clock) + 1_500_000_000;
      |v.host.emitted| == |s.host.emitted| + 1 && v.host.emitted[..|s.host.emitted|] == s.host.emitted &&
      (v.host.emitted[|s.host.emitted|].Silent? <==> filling) &&
      v.host.raw == (if filling then s.host.raw else s.host.raw[1..])
  {
    hide S.Inv, EndTime, S.Clean, Judging;
    S.EveryRunKeepsInv(states, steps, rate, j);
    assert Enabled(states[j], steps[j]) && states[j + 1] == Apply(states[j], steps[j]);
    JudgedAt(states[j]);
    if j < k {
      var s := states[j];
      JudgingRun(states, steps, rate, j + 1, k, s.cb.p, s.host.raw, s.host.emitted);
      S.EveryRunKeepsInv(states, steps, rate, k);
      JudgingEnds(states[k], steps[k], s.cb.p, s.host.raw, s.host.emitted);
    }
  }

  lemma JudgedAt(s: State)
    requires S.Inv(s) && s.cb.CbOldest?
    ensures var v, clock := CallbackStep(s), s.timeline.sampleRate;
      s.host.raw != [] &&
      if EndTime(s.cb.p, clock) < EndTime(s.host.raw[0], clock) + 1_500_000_000
      then v.cb.CbIdle? && v.host.raw == s.host.raw && v.host.emitted == s.host.emitted + [Silent]
      else Judging(v, s.cb.p, s.host.raw, s.host.emitted)
  {
    hide EndTime, S.FlowInv, S.KnownInv, S.EmittedInv, S.ScanInv, HasFirst;
  }

  lemma JudgingEnds(s: State, step: Step, p: Packet, raw: seq<Packet>, log: seq<Emission>)
    requires S.Inv(s) && Enabled(s, step) && Judging(s, p, raw, log) && Apply(s, step).cb.CbIdle?
    ensures var v := Apply(s, step);
      raw != [] && v.host.raw == raw[1..] && |v.host.emitted| == |log| + 1 && v.host.emitted[..|log|] == log &&
      !v.host.emitted[|log|].Silent?
  {
    hide Apply, EndTime;
    JudgingStep(s, step, p, raw, log);
  }

  // ---- a full delay queue, and what else loses blocks -----------------------------------------------------

  /** The callback with a block p for which the delay queue had no room. */
  ghost predicate Overrun(s: State, p: Packet, log: seq<Emission>)
  {
    (s.cb == CbRawLost(p) || (s.cb == CbRawLostGap(p) && s.flags.resetResults)) && s.host.raw == [] &&
    s.host.emitted == log
  }

  lemma {:induction false} OverrunRun(
    states: seq<State>, steps: seq<Step>, rate: nat, j: nat, k: nat, p: Packet, log: seq<Emission>)
    requires S.IsRun(states, steps) && states[0] == Init(rate) && j <= k <= |steps|
    requires Overrun(states[j], p, log) && forall m :: j < m <= k ==> !states[m].cb.CbIdle?
    ensures Overrun(states[k], p, log)
  {
    hide Overrun, S.Inv, Enabled, Apply, S.Clean;
    if j < k {
      OverrunRun(states, steps, rate, j, k - 1, p, log);
      S.EveryRunKeepsInv(states, steps, rate, k - 1);
      OverrunStep(states[k - 1], steps[k - 1], p, log);
    }
  }

  lemma OverrunStep(s: State, step: Step, p: Packet, log: seq<Emission>)
    requires S.Inv(s) && Enabled(s, step) && Overrun(s, p, log)
    ensures var v := Apply(s, step);
      Overrun(v, p, log) ||
      (v.cb.CbIdle? && v.host.raw == [] && v.host.emitted == log + [PassThrough(p)] && v.flags.resetResults &&
       v.flags.gap)
  {
    hide HasFirst, S.CarriesNewest, BeginBlock, EndTime, S.FlowInv, S.RawInv, S.KnownInv, S.EmittedInv, S.ScanInv;
    if !step.CallbackMoves? {
      OthersLeaveCallbackAlone(s, step);
    }
  }

  /** A block is passed through undelayed when it finds 96 blocks in the delay queue: the queue is then empty, old
      results are to be dropped and a loss is noted. With room, it is appended. */
  lemma FullQueuePassesThrough(states: seq<State>, steps: seq<Step>, rate: nat, j: nat, k: nat)
    requires S.IsRun(states, steps) && states[0] == Init(rate) && j <= k < |steps|
    requires states[j].cb.CbRaw? && steps[j].CallbackMoves?
    ensures var s, v := states[j], states[j + 1];
      |s.host.raw| < 96 ==> v.host.raw == s.host.raw + [s.cb.p] && v.cb == CbIngress(s.cb.p)
    ensures |states[j].host.raw| >= 96 && (forall m :: j < m <= k ==> !states[m].cb.CbIdle?) && states[k + 1].cb.CbIdle?
      ==> var s, v := states[j], states[k + 1];
        v.host.raw == [] && v.host.emitted == s.host.emitted + [PassThrough(s.cb.p)] && v.flags.resetResults &&
        v.flags.gap
  {
    hide S.Inv, S.Clean;
    var s := states[j];
    assert Enabled(s, steps[j]) && states[j + 1] == Apply(s, steps[j]);
    if |s.host.raw| >= 96 && (forall m :: j < m <= k ==> !states[m].cb.CbIdle?) && states[k + 1].cb.CbIdle? {
      assert k > j;
      OverrunRun(states, steps, rate, j + 1, k, s.cb.p, s.host.emitted);
      S.EveryRunKeepsInv(states, steps, rate, k);
      assert Enabled(states[k], steps[k]) && states[k + 1] == Apply(states[k], steps[k]);
      OverrunStep(states[k], steps[k], s.cb.p, s.host.emitted);
    }
  }

  /** The worker loses a block exactly when it finds 95 results waiting; the submit thread exactly when it is about to
      note the loss. Otherwise what is in flight stays in flight, in order. */
  lemma BlocksAreLostExactly(states: seq<State>, steps: seq<Step>, rate: nat, k: nat)
    requires S.IsRun(states, steps) && states[0] == Init(rate) && k < |steps|
    ensures var s, v := states[k], states[k + 1];
      steps[k].WorkerMoves? ==> (S.Flow(v) == S.Flow(s) <==> !(s.worker.WOut? && |s.q.results| == 95))
    ensures var s, v := states[k], states[k + 1];
      steps[k].SubmitMoves? ==>
        (S.Flow(v) == S.Flow(s) <==> !v.sub.SubStoreGap?) &&
        (v.sub.SubStoreGap? <==>
          (s.sub.SubReady? && (!s.flags.ready || steps[k].fails)) ||
          (s.sub.SubPush? && (steps[k].fails || |s.q.core| >= 96)))
  {
    S.EveryRunKeepsInv(states, steps, rate, k);
    hide S.Inv, S.Flow, S.Clean;
    assert Enabled(states[k], steps[k]) && states[k + 1] == Apply(states[k], steps[k]);
    if steps[k].WorkerMoves? {
      WorkerLoses(states[k]);
    } else if steps[k].SubmitMoves? {
      SubmitLoses(states[k], steps[k].fails);
    }
  }

  lemma WorkerLoses(s: State)
    requires S.Inv(s)
    ensures S.Flow(WorkerStep(s)) == S.Flow(s) <==> !(s.worker.WOut? && |s.q.results| == 95)
  {
    hide S.FlowInv, S.RawInv, S.KnownInv, S.EmittedInv, S.ScanInv, S.Chain, Readable, S.CarriesNewest;
    S.WorkerDelivers(s);
    var v := WorkerStep(s);
    match s.worker
    case WIdle => assert S.Flow(v) == S.Flow(s);
    case WGot(p) => assert S.Flow(v) == S.Flow(s);
    case WOut(p) =>
      if v.worker.WIdle? {
        assert |S.Flow(v)| == |S.Flow(s)| - 1;
      } else {
        assert S.Flow(v) == S.Flow(s);
      }
    case WPublish(p) => assert S.Flow(v) == S.Flow(s);
  }

  lemma SubmitLoses(s: State, fails: bool)
    requires S.Inv(s)
    ensures var v := SubmitStep(s, fails);
      (S.Flow(v) == S.Flow(s) <==> !v.sub.SubStoreGap?) &&
      (v.sub.SubStoreGap? <==>
        (s.sub.SubReady? && (!s.flags.ready || fails)) || (s.sub.SubPush? && (fails || |s.q.core| >= 96)))
  {
    hide S.FlowInv, S.RawInv, S.KnownInv, S.EmittedInv, S.ScanInv, S.Chain, Readable, S.CarriesNewest;
    S.SubmitMovesOrLoses(s, fails);
    var v := SubmitStep(s, fails);
    if v.sub.SubStoreGap? {
      assert |S.Flow(v)| == |S.Flow(s)| - 1;
    }
  }

  // ---- lifecycle ------------------------------------------------------------------------------------------

  /** Each phase of a stop clears its part: no block is submitted as ready any more, then no ingress block and no noted
      loss is left, then no result and no reset. A start ends the timeline's epoch: a kept timeline goes on with the
      next generation, a rebuilt one starts over. */
  lemma LifecycleClears(states: seq<State>, steps: seq<Step>, rate: nat, k: nat)
    requires S.IsRun(states, steps) && states[0] == Init(rate) && k < |steps|
    ensures var v := states[k + 1];
      (steps[k].StopCalled? ==> !v.flags.ready && v.phase.Closing?) &&
      (steps[k].SubmitJoined? ==> v.q.ingress == [] && !v.flags.gap && v.phase.Draining?) &&
      (steps[k].WorkerJoined? ==> v.q.results == [] && !v.flags.resetResults && v.phase.Stopped?)
    ensures var t, v := states[k].timeline, states[k + 1].timeline;
      steps[k].StartCalled? ==>
        !v.anchored && !v.requiresDiscontinuity && v.sampleRate == t.sampleRate &&
        v.generation ==
          if steps[k].rebuilt then 1 else if t.generation == T.UINT64_MAX then t.generation else t.generation + 1
  {
    S.EveryRunKeepsInv(states, steps, rate, k);
    hide S.Inv, S.Clean;
    assert Enabled(states[k], steps[k]) && states[k + 1] == Apply(states[k], steps[k]);
    if steps[k].StartCalled? {
      RateIsPositive(states[k]);
    }
  }

  lemma RateIsPositive(s: State)
    requires S.Inv(s)
    ensures s.timeline.sampleRate > 0
  {
  }
}

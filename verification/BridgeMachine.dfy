/** The native audio bridge as a step relation (src/obs/native_audio_bridge.cpp): the host callback, the submit
    thread, the pipeline worker and the lifecycle calls over shared atomics.

    The three index-based queues appear as sequences, one step per point at which a ring operation takes effect
    (module SpscRing): the fullness test, the publish, the load that fixes what a reader sees, the advance.
    Lifecycle calls are serialized against the callback, as the source states. */
module BridgeMachine {
  import T = AudioTimeline
  import G = GapRecovery

  type Packet = G.Packet

  const RAW_CAPACITY := 96
  const INGRESS_CAPACITY := 31  // 32 slots, one always empty
  const RESULT_CAPACITY := 95   // 96 slots, one always empty
  const CORE_CAPACITY := 96
  const MAX_FRAMES := 4096
  const DELAY_NS := 1_500_000_000
  const JUMP_NS := 1_000_000_000
  const SECOND_NS := 1_000_000_000

  datatype Stream = Stream(hasStream: bool, discontinuity: bool, lastEnd: nat, nextFrame: int)

  // What filter_audio returns: nothing while the delay fills, a processed delayed block, or the block it was given.
  datatype Emission =
    | Silent
    | Processed(first: int, frames: nat, timestamp: nat, oldest: Packet, slotEnd: nat, currentEnd: nat)
    | Undelayed(current: Packet, oldest: Packet, hadResult: bool)
    | PassThrough(current: Packet)

  // The callback's program counter; `p` is the block being handled.
  datatype Callback =
    | CbIdle
    | CbRaw(p: Packet)
    | CbRawLost(p: Packet)
    | CbRawLostGap(p: Packet)
    | CbIngress(p: Packet)
    | CbIngressLost(p: Packet)
    | CbMark(p: Packet)
    | CbPublish(p: Packet)
    | CbConsume(p: Packet)
    | CbDiscard(p: Packet)
    | CbDiscardTo(p: Packet, n: nat)
    | CbOldest(p: Packet)
    | CbScanStart(p: Packet)
    | CbScan(p: Packet, n: nat, had: bool)

  datatype Submit =
    | SubLook
    | SubReady(p: Packet)
    | SubPush(p: Packet)
    | SubStoreGap(p: Packet)
    | SubAdvance(p: Packet)

  datatype Worker =
    | WIdle
    | WGot(p: Packet)
    | WOut(p: Packet)
    | WPublish(p: Packet)

  datatype Phase = Stopped | Live | Closing | Draining

  datatype Flags = Flags(resetResults: bool, gap: bool, ready: bool)

  datatype Queues = Queues(ingress: seq<Packet>, core: seq<Packet>, results: seq<Packet>)

  // `known` remembers the length of every block begun in this stream, by first frame.
  datatype Host = Host(stream: Stream, raw: seq<Packet>, emitted: seq<Emission>, known: map<int, nat>)

  datatype State = State(
    cb: Callback, host: Host, flags: Flags, q: Queues, sub: Submit, worker: Worker, timeline: T.Timeline, phase: Phase)

  // ---- pure helpers of the source ---------------------------------------------------------------

  function Duration(frames: nat, rate: nat): nat
  {
    if rate == 0 then 0 else frames * SECOND_NS / rate
  }

  function AddTimestamp(timestamp: nat, duration: nat): nat
  {
    if timestamp + duration > T.UINT64_MAX then T.UINT64_MAX else timestamp + duration
  }

  function EndTime(p: Packet, rate: nat): nat
  {
    AddTimestamp(p.timestamp, Duration(p.frames, rate))
  }

  /** begin_stream_block: the new stream state and whether old results must be dropped. */
  function BeginBlock(s: Stream, timestamp: nat, frames: nat, rate: nat): (Stream, bool)
  {
    var jump := s.hasStream && (timestamp < s.lastEnd || timestamp - s.lastEnd > JUMP_NS);
    var overflow := frames > T.INT64_MAX - (if s.nextFrame > 0 then s.nextFrame else 0);
    (Stream(true, jump || overflow, AddTimestamp(timestamp, Duration(frames, rate)),
            if overflow then 0 else s.nextFrame + frames),
     jump || overflow)
  }

  predicate HasFirst(q: seq<Packet>, first: int)
  {
    exists i :: 0 <= i < |q| && q[i].first == first
  }

  predicate CopyOk(p: Packet)
  {
    0 < p.frames <= MAX_FRAMES
  }

  // ---- the callback -----------------------------------------------------------------------------

  function Begin(s: State, timestamp: nat, frames: nat, finite: bool): State
    requires s.cb.CbIdle?
  {
    var (stream, drop) := BeginBlock(s.host.stream, timestamp, frames, s.timeline.sampleRate);
    var p := G.Packet(s.host.stream.nextFrame, frames, timestamp, false, finite);
    s.(cb := CbRaw(p),
       host := s.host.(stream := stream, raw := if stream.discontinuity then [] else s.host.raw,
                       known := s.host.known[p.first := frames]),
       flags := s.flags.(resetResults := s.flags.resetResults || drop))
  }

  function Emit(s: State, e: Emission): State
  {
    s.(cb := CbIdle, host := s.host.(emitted := s.host.emitted + [e]))
  }

  function EmitAndPop(s: State, e: Emission): State
    requires s.host.raw != []
  {
    s.(cb := CbIdle, host := s.host.(emitted := s.host.emitted + [e], raw := s.host.raw[1..]))
  }

  function CaptureStep(s: State): State
    requires s.cb.CbRaw? || s.cb.CbRawLost? || s.cb.CbRawLostGap?
  {
    var p := s.cb.p;
    match s.cb
    case CbRaw(_) =>
      if |s.host.raw| >= RAW_CAPACITY then s.(cb := CbRawLost(p), host := s.host.(raw := []))
      else s.(cb := CbIngress(p), host := s.host.(raw := s.host.raw + [p]))
    case CbRawLost(_) => s.(cb := CbRawLostGap(p), flags := s.flags.(resetResults := true))
    case CbRawLostGap(_) => Emit(s.(flags := s.flags.(gap := true)), PassThrough(p))
  }

  function IngressStep(s: State): State
    requires s.cb.CbIngress? || s.cb.CbIngressLost? || s.cb.CbMark? || s.cb.CbPublish?
  {
    var p := s.cb.p;
    match s.cb
    case CbIngress(_) => if |s.q.ingress| == INGRESS_CAPACITY then s.(cb := CbIngressLost(p)) else s.(cb := CbMark(p))
    case CbIngressLost(_) => s.(cb := CbConsume(p), flags := s.flags.(gap := true))
    case CbMark(_) =>
      if s.host.stream.discontinuity then s.(cb := CbPublish(p.(mark := true)))
      else s.(cb := CbPublish(p.(mark := s.flags.gap)), flags := s.flags.(gap := false))
    case CbPublish(_) => s.(cb := CbConsume(p), q := s.q.(ingress := s.q.ingress + [p]))
  }

  predicate Consuming(cb: Callback)
  {
    cb.CbConsume? || cb.CbDiscard? || cb.CbDiscardTo? || cb.CbOldest? || cb.CbScanStart? || cb.CbScan?
  }

  function OldestStep(s: State): State
    requires s.cb.CbOldest?
  {
    var p := s.cb.p;
    if s.host.raw == [] then Emit(s, Undelayed(p, p, false))
    else
      var rate := s.timeline.sampleRate;
      var slotEnd, currentEnd := EndTime(s.host.raw[0], rate), EndTime(p, rate);
      if currentEnd < slotEnd || currentEnd - slotEnd < DELAY_NS then Emit(s, Silent) else s.(cb := CbScanStart(p))
  }

  function ScanStep(s: State): State
    requires s.cb.CbScan? && s.host.raw != [] && s.cb.n <= |s.q.results|
  {
    var p, oldest, rate := s.cb.p, s.host.raw[0], s.timeline.sampleRate;
    var fallback := Undelayed(p, oldest, s.cb.had);
    if s.cb.n == 0 then EmitAndPop(s, fallback)
    else
      var r, rest := s.q.results[0], s.q.(results := s.q.results[1..]);
      if r.first < oldest.first then s.(cb := CbScan(p, s.cb.n - 1, s.cb.had), q := rest)
      else if r.first == oldest.first then
        var e := if CopyOk(r)
          then Processed(r.first, r.frames, oldest.timestamp, oldest, EndTime(oldest, rate), EndTime(p, rate))
          else fallback;
        EmitAndPop(s.(q := rest), e)
      else EmitAndPop(s, fallback)
  }

  function ConsumeStep(s: State): State
    requires Consuming(s.cb) && Readable(s)
  {
    var p := s.cb.p;
    match s.cb
    case CbConsume(_) =>
      s.(cb := if s.flags.resetResults then CbDiscard(p) else CbOldest(p), flags := s.flags.(resetResults := false))
    case CbDiscard(_) => s.(cb := CbDiscardTo(p, |s.q.results|))
    case CbDiscardTo(_, n) => s.(cb := CbOldest(p), q := s.q.(results := s.q.results[n..]))
    case CbOldest(_) => OldestStep(s)
    case CbScanStart(_) => s.(cb := CbScan(p, |s.q.results|, HasFirst(s.q.results, s.host.raw[0].first)))
    case CbScan(_, _, _) => ScanStep(s)
  }

  /** What the callback has seen of the result queue is still there, and scanning has an oldest block. */
  predicate Readable(s: State)
  {
    (s.cb.CbDiscardTo? || s.cb.CbScan? ==> s.cb.n <= |s.q.results|) &&
    (s.cb.CbScanStart? || s.cb.CbScan? ==> s.host.raw != [])
  }

  // ---- the submit thread ------------------------------------------------------------------------

  /** `fails` covers every way submission can fail besides a full core queue: a worker that is not accepting or
      an allocation failure. */
  function SubmitStep(s: State, fails: bool): State
    requires !s.sub.SubLook? ==> s.q.ingress != []
  {
    match s.sub
    case SubLook => if s.q.ingress == [] then s else s.(sub := SubReady(s.q.ingress[0]))
    case SubReady(p) => s.(sub := if s.flags.ready && !fails then SubPush(p) else SubStoreGap(p))
    case SubPush(p) =>
      if fails || |s.q.core| >= CORE_CAPACITY then s.(sub := SubStoreGap(p))
      else s.(sub := SubAdvance(p), q := s.q.(core := s.q.core + [p]))
    case SubStoreGap(p) => s.(sub := SubAdvance(p), flags := s.flags.(gap := true))
    case SubAdvance(_) => s.(sub := SubLook, q := s.q.(ingress := s.q.ingress[1..]))
  }

  // ---- the pipeline worker ----------------------------------------------------------------------

  function WorkerStep(s: State): State
  {
    match s.worker
    case WIdle =>
      if s.q.core == [] then s
      else s.(worker := WGot(s.q.core[0]), q := s.q.(core := s.q.core[1..]))
    case WGot(p) => s.(worker := WOut(p), timeline := G.DeliverOne(s.timeline, p))
    case WOut(p) => s.(worker := if |s.q.results| == RESULT_CAPACITY then WIdle else WPublish(p))
    case WPublish(p) => s.(worker := WIdle, q := s.q.(results := s.q.results + [p]))
  }

  // ---- lifecycle --------------------------------------------------------------------------------

  /** stop() joins the submit thread, then drains the worker, then clears the results; start() resets the rest.
      The worker leaves with nothing queued or in hand (module ProcessingWorker). */
  datatype Step =
    | BeginBlockStep(timestamp: nat, frames: nat, finite: bool)
    | CallbackMoves
    | SubmitMoves(fails: bool)
    | WorkerMoves
    | RuntimeReports(isReady: bool)
    | StopCalled
    | SubmitJoined
    | WorkerJoined
    | StartCalled(rebuilt: bool)

  predicate Enabled(s: State, step: Step)
  {
    match step
    case BeginBlockStep(ts, frames, _) =>
      s.phase.Live? && s.cb.CbIdle? && 0 < frames <= MAX_FRAMES && ts <= T.UINT64_MAX
    case CallbackMoves => !s.cb.CbIdle? && Readable(s)
    case SubmitMoves(_) => (s.phase.Live? || s.phase.Closing?) && (!s.sub.SubLook? ==> s.q.ingress != [])
    case WorkerMoves => !s.phase.Stopped?
    case RuntimeReports(_) => true
    case StopCalled => s.phase.Live? && s.cb.CbIdle?
    case SubmitJoined => s.phase.Closing? && s.sub.SubLook?
    case WorkerJoined => s.phase.Draining? && s.worker.WIdle? && s.q.core == []
    case StartCalled(_) => s.phase.Stopped?
  }

  function CallbackStep(s: State): State
    requires !s.cb.CbIdle? && Readable(s)
  {
    if s.cb.CbRaw? || s.cb.CbRawLost? || s.cb.CbRawLostGap? then CaptureStep(s)
    else if Consuming(s.cb) then ConsumeStep(s)
    else IngressStep(s)
  }

  /** `rebuilt`: update() replaced the pipeline, and with it the timeline, before starting again. */
  function Start(s: State, rebuilt: bool): State
  {
    var timeline := if rebuilt then T.Init(s.timeline.sampleRate) else s.timeline;
    State(CbIdle, Host(Stream(false, false, 0, 0), [], [], map[]), Flags(true, false, false),
          s.q.(ingress := []), s.sub, s.worker, T.Reset(timeline), Live)
  }

  function Apply(s: State, step: Step): State
    requires Enabled(s, step)
  {
    match step
    case BeginBlockStep(ts, frames, finite) => Begin(s, ts, frames, finite)
    case CallbackMoves => CallbackStep(s)
    case SubmitMoves(fails) => SubmitStep(s, fails)
    case WorkerMoves => WorkerStep(s)
    case RuntimeReports(isReady) => s.(flags := s.flags.(ready := isReady))
    case StopCalled => s.(phase := Closing, flags := s.flags.(ready := false))
    case SubmitJoined => s.(phase := Draining, q := s.q.(ingress := []), flags := s.flags.(gap := false))
    case WorkerJoined => s.(phase := Stopped, q := s.q.(results := []), flags := s.flags.(resetResults := false))
    case StartCalled(rebuilt) => Start(s, rebuilt)
  }

  function Init(rate: nat): State
  {
    State(CbIdle, Host(Stream(false, false, 0, 0), [], [], map[]), Flags(false, false, false),
          Queues([], [], []), SubLook, WIdle, T.Init(rate), Stopped)
  }
}

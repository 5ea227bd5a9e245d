/** What every reachable state of the bridge keeps: gap recovery, order and alignment of delayed output. */
module BridgeSafety {
  import T = AudioTimeline
  import G = GapRecovery
  import opened BridgeMachine

  // ---- what is where ------------------------------------------------------------------------------

  /** In the worker's hand, before the timeline has seen it. */
  function WorkerHand(w: Worker): seq<Packet>
  {
    if w.WGot? then [w.p] else []
  }

  /** In the worker's hand, on its way to the result queue. */
  function Outgoing(w: Worker): seq<Packet>
  {
    if w.WOut? || w.WPublish? then [w.p] else []
  }

  /** The submit thread keeps the block it handles at the head of the ingress queue until it advances. */
  predicate LetGo(sub: Submit)
  {
    sub.SubStoreGap? || sub.SubAdvance?
  }

  function Waiting(sub: Submit, ingress: seq<Packet>): seq<Packet>
  {
    if LetGo(sub) && ingress != [] then ingress[1..] else ingress
  }

  function Decided(cb: Callback): seq<Packet>
  {
    if cb.CbPublish? then [cb.p] else []
  }

  /** Everything between the callback and the timeline, oldest first. */
  function Chain(s: State): seq<Packet>
  {
    WorkerHand(s.worker) + s.q.core + (Waiting(s.sub, s.q.ingress) + Decided(s.cb))
  }

  /** Everything that may still become output, oldest first. */
  function Flow(s: State): seq<Packet>
  {
    s.q.results + Outgoing(s.worker) + Chain(s)
  }

  predicate Undecided(cb: Callback)
  {
    cb.CbRaw? || cb.CbIngress? || cb.CbMark?
  }

  /** Where the next block to enter the chain begins. */
  function Front(s: State): int
  {
    if Undecided(s.cb) then s.cb.p.first else s.host.stream.nextFrame
  }

  /** A loss has been noted in the gap flag, or is about to be. */
  predicate Pending(s: State)
  {
    s.flags.gap || s.sub.SubStoreGap? || s.cb.CbRawLost? || s.cb.CbRawLostGap? || s.cb.CbIngressLost?
  }

  // ---- the invariant ------------------------------------------------------------------------------

  predicate CarriesNewest(p: Packet, nextFrame: int)
  {
    G.Sound(p) && p.frames <= MAX_FRAMES && G.End(p) == nextFrame
  }

  ghost predicate Shape(s: State)
  {
    Readable(s) &&
    (!s.sub.SubLook? ==> s.q.ingress != [] && s.q.ingress[0] == s.sub.p) &&
    (!s.cb.CbIdle? ==> s.phase.Live? && CarriesNewest(s.cb.p, s.host.stream.nextFrame)) &&
    (s.phase.Draining? || s.phase.Stopped? ==> s.sub.SubLook? && s.q.ingress == []) &&
    (s.phase.Stopped? ==> s.q.core == [] && s.worker.WIdle? && s.q.results == []) &&
    s.timeline.sampleRate > 0 && 0 <= s.host.stream.nextFrame <= T.INT64_MAX
  }

  /** Unless a loss is noted, delivering all that is in flight leaves the timeline in step with the stream. */
  ghost predicate GapInv(s: State)
  {
    (s.phase.Live? || s.phase.Closing?) && !Pending(s) ==> G.InStep(G.Deliver(s.timeline, Chain(s)), Front(s))
  }

  /** Blocks in flight are sound, and in strictly increasing, non-overlapping order below `front`. */
  ghost predicate Ascending(q: seq<Packet>, front: int)
  {
    (forall i :: 0 <= i < |q| ==> G.Sound(q[i]) && q[i].frames <= MAX_FRAMES && G.End(q[i]) <= front) &&
    (forall i, j :: 0 <= i < j < |q| ==> G.End(q[i]) <= q[j].first)
  }

  ghost predicate FlowInv(s: State)
  {
    Ascending(Flow(s), Front(s))
  }

  function RawFront(s: State): int
  {
    if s.cb.CbRaw? then s.cb.p.first else s.host.stream.nextFrame
  }

  function RawLow(s: State): int
  {
    if s.host.raw != [] then s.host.raw[0].first else RawFront(s)
  }

  /** The block in hand has been captured in the delay queue and the queue has not been popped since. */
  predicate Captured(cb: Callback)
  {
    !cb.CbIdle? && !cb.CbRaw? && !cb.CbRawLost? && !cb.CbRawLostGap?
  }

  /** The delay queue holds consecutive blocks up to the one just captured. */
  ghost predicate RawInv(s: State)
  {
    G.Contiguous(s.host.raw) && (forall p :: p in s.host.raw ==> G.Sound(p)) && |s.host.raw| <= RAW_CAPACITY &&
    (s.host.raw != [] ==> G.End(s.host.raw[|s.host.raw| - 1]) == RawFront(s)) && (Captured(s.cb) ==> s.host.raw != [])
  }

  predicate Knows(known: map<int, nat>, p: Packet)
  {
    p.first in known && known[p.first] == p.frames
  }

  /** One first frame, one length: blocks with the same first frame are the same block. */
  ghost predicate KnownInv(s: State)
  {
    (forall k :: k in s.host.known ==> k < s.host.stream.nextFrame) &&
    (forall p :: p in Flow(s) ==> Knows(s.host.known, p)) &&
    (forall p :: p in s.host.raw ==> Knows(s.host.known, p)) &&
    (!s.cb.CbIdle? ==> Knows(s.host.known, s.cb.p))
  }

  /** One emitted block: a processed one stands exactly for the oldest raw block, after the full delay; an
      undelayed one was emitted only because the result queue, as seen, had nothing for the oldest block. */
  predicate Aligned(e: Emission)
  {
    match e
    case Processed(first, frames, timestamp, oldest, slotEnd, currentEnd) =>
      first == oldest.first && frames == oldest.frames && timestamp == oldest.timestamp &&
      currentEnd >= slotEnd + DELAY_NS
    case Undelayed(_, _, hadResult) => !hadResult
    case _ => true
  }

  /** All emissions of this stream are aligned, and processed ones came out in strictly increasing order. */
  ghost predicate EmittedInv(log: seq<Emission>, low: int)
  {
    (forall i :: 0 <= i < |log| ==> Aligned(log[i]) && (log[i].Processed? ==> log[i].first < low)) &&
    (forall i, j :: 0 <= i < j < |log| && log[i].Processed? && log[j].Processed? ==> log[i].first < log[j].first)
  }

  /** While scanning, the oldest block is old enough, and a result for it was there at the start exactly if it
      still is. */
  ghost predicate ScanInv(s: State)
  {
    (s.cb.CbScan? && Readable(s) ==>
      (s.cb.had <==> HasFirst(s.q.results[..s.cb.n], s.host.raw[0].first))) &&
    ((s.cb.CbScanStart? || s.cb.CbScan?) && s.host.raw != [] ==>
      EndTime(s.cb.p, s.timeline.sampleRate) >= EndTime(s.host.raw[0], s.timeline.sampleRate) + DELAY_NS)
  }

  /** What holds whatever the samples are. */
  ghost predicate Inv(s: State)
  {
    Shape(s) && FlowInv(s) && RawInv(s) && KnownInv(s) && EmittedInv(s.host.emitted, RawLow(s)) && ScanInv(s)
  }

  /** No block on its way to the timeline has a non-finite sample. */
  ghost predicate InFlightFinite(s: State)
  {
    (forall p :: p in Chain(s) ==> p.finite) && (!s.cb.CbIdle? ==> s.cb.p.finite)
  }

  /** What holds while all samples are finite. */
  ghost predicate RecoveryInv(s: State)
  {
    InFlightFinite(s) && GapInv(s)
  }

  // ---- facts about ascending sequences ------------------------------------------------------------

  lemma AscendingSub(a: seq<Packet>, b: seq<Packet>, c: seq<Packet>, front: int)
    requires Ascending(a + b + c, front)
    ensures Ascending(a + c, front)
  {
    var whole, part := a + b + c, a + c;
    forall i | 0 <= i < |part|
      ensures G.Sound(part[i]) && part[i].frames <= MAX_FRAMES && G.End(part[i]) <= front
    {
      assert part[i] == whole[if i < |a| then i else i + |b|];
    }
    forall i, j | 0 <= i < j < |part|
      ensures G.End(part[i]) <= part[j].first
    {
      assert part[i] == whole[if i < |a| then i else i + |b|];
      assert part[j] == whole[if j < |a| then j else j + |b|];
    }
  }

  lemma AscendingAppend(q: seq<Packet>, p: Packet)
    requires Ascending(q, p.first) && G.Sound(p) && p.frames <= MAX_FRAMES
    ensures Ascending(q + [p], G.End(p))
  {
  }

  // ---- how each step changes what is in flight ----------------------------------------------------

  lemma CaptureKeepsChain(s: State)
    requires s.cb.CbRaw? || s.cb.CbRawLost? || s.cb.CbRawLostGap?
    ensures Chain(CaptureStep(s)) == Chain(s) && CaptureStep(s).q == s.q
  {
  }

  lemma IngressStepExtendsChain(s: State)
    requires Shape(s) && (s.cb.CbIngress? || s.cb.CbIngressLost? || s.cb.CbMark? || s.cb.CbPublish?)
    ensures var v := IngressStep(s);
      Chain(v) == if s.cb.CbMark? then Chain(s) + [v.cb.p] else Chain(s)
  {
    var v := IngressStep(s);
    match s.cb
    case CbMark(_) =>
      var x, y := WorkerHand(s.worker) + s.q.core, Waiting(s.sub, s.q.ingress);
      assert x + (y + [v.cb.p]) == (x + (y + [])) + [v.cb.p];
    case CbPublish(p) =>
      assert Waiting(s.sub, s.q.ingress + [p]) == Waiting(s.sub, s.q.ingress) + [p];
      assert Waiting(s.sub, s.q.ingress + [p]) + [] == Waiting(s.sub, s.q.ingress) + [p];
    case _ =>
  }

  /** How many results a callback step takes off the queue. */
  function Taken(s: State): nat
    requires Readable(s)
  {
    match s.cb
    case CbDiscardTo(_, n) => n
    case CbScan(_, n, _) => if n > 0 && s.q.results[0].first <= s.host.raw[0].first then 1 else 0
    case _ => 0
  }

  lemma ConsumeKeepsChain(s: State)
    requires Consuming(s.cb) && Readable(s)
    ensures Chain(ConsumeStep(s)) == Chain(s)
    ensures Taken(s) <= |s.q.results| && ConsumeStep(s).q.results == s.q.results[Taken(s)..]
  {
    hide HasFirst;
  }

  /** The submit thread moves a block from the ingress queue to the core queue, or loses it. */
  lemma SubmitMovesOrLoses(s: State, fails: bool)
    requires Shape(s)
    ensures var v := SubmitStep(s, fails);
      if v.sub.SubStoreGap? then
        var p, before, after := s.sub.p, WorkerHand(s.worker) + s.q.core, s.q.ingress[1..] + Decided(s.cb);
        Chain(s) == before + [p] + after && Chain(v) == before + after
      else Chain(v) == Chain(s)
  {
    hide Readable, CarriesNewest;
    var v := SubmitStep(s, fails);
    match s.sub
    case SubLook =>
    case SubReady(p) =>
      assert s.q.ingress == [p] + s.q.ingress[1..];
      SplitHead(WorkerHand(s.worker) + s.q.core, p, s.q.ingress[1..], Decided(s.cb));
    case SubPush(p) =>
      assert s.q.ingress == [p] + s.q.ingress[1..];
      SplitHead(WorkerHand(s.worker) + s.q.core, p, s.q.ingress[1..], Decided(s.cb));
      assert WorkerHand(s.worker) + (s.q.core + [p]) == (WorkerHand(s.worker) + s.q.core) + [p];
    case SubStoreGap(_) =>
    case SubAdvance(_) =>
  }

  lemma SplitHead(x: seq<Packet>, p: Packet, y: seq<Packet>, z: seq<Packet>)
    ensures x + (([p] + y) + z) == (x + [p]) + (y + z) == x + [p] + (y + z)
  {
  }

  lemma WorkerDelivers(s: State)
    requires Shape(s)
    ensures var v := WorkerStep(s);
      if s.worker.WGot? then Chain(s) == [s.worker.p] + Chain(v) else Chain(v) == Chain(s)
  {
    hide Readable, CarriesNewest;
    var v := WorkerStep(s);
    var rest := Waiting(s.sub, s.q.ingress) + Decided(s.cb);
    match s.worker
    case WIdle =>
      if s.q.core != [] {
        assert s.q.core == [s.q.core[0]] + s.q.core[1..];
      }
    case WGot(p) =>
      assert ([p] + s.q.core) + rest == [p] + (([] + s.q.core) + rest);
    case _ =>
  }

  // ---- gap recovery -------------------------------------------------------------------------------

  lemma CallbackKeepsGap(s: State)
    requires Inv(s) && RecoveryInv(s) && !s.cb.CbIdle?
    ensures RecoveryInv(CallbackStep(s))
  {
    hide FlowInv, RawInv, KnownInv, EmittedInv, ScanInv, Chain;
    if s.cb.CbRaw? || s.cb.CbRawLost? || s.cb.CbRawLostGap? {
      CaptureKeepsChain(s);
    } else if Consuming(s.cb) {
      ConsumeKeepsChain(s);
      ConsumeLeavesGapAlone(s);
      ConsumeKeepsPacket(s);
    } else {
      IngressStepExtendsChain(s);
      IngressKeepsGap(s);
    }
  }

  lemma ConsumeLeavesGapAlone(s: State)
    requires Consuming(s.cb) && Readable(s)
    ensures var v := ConsumeStep(s);
      v.timeline == s.timeline && v.phase == s.phase && Pending(v) == Pending(s) && Front(v) == Front(s) &&
      v.sub == s.sub && v.worker == s.worker && v.flags.gap == s.flags.gap &&
      v.host.stream == s.host.stream && v.host.known == s.host.known && !v.cb.CbPublish?
  {
    hide HasFirst;
  }

  lemma IngressKeepsGap(s: State)
    requires Shape(s) && GapInv(s) && (s.cb.CbIngress? || s.cb.CbIngressLost? || s.cb.CbMark? || s.cb.CbPublish?)
    requires s.cb.p.finite
    ensures GapInv(IngressStep(s))
  {
    hide G.Deliver, Chain, Readable;
    var v := IngressStep(s);
    IngressStepExtendsChain(s);
    if s.cb.CbMark? {
      var p := v.cb.p;
      if p.mark {
        G.MarkedPacketReanchors(s.timeline, Chain(s), p);
      } else {
        G.UnmarkedPacketExtends(s.timeline, Chain(s), p);
      }
    }
  }

  lemma SubmitKeepsGap(s: State, fails: bool)
    requires Shape(s) && RecoveryInv(s)
    ensures RecoveryInv(SubmitStep(s, fails))
  {
    hide Chain, Readable, CarriesNewest, G.Deliver;
    SubmitMovesOrLoses(s, fails);
  }

  lemma WorkerKeepsGap(s: State)
    requires Shape(s) && RecoveryInv(s)
    ensures RecoveryInv(WorkerStep(s))
  {
    hide Chain, Readable, CarriesNewest, G.DeliverOne;
    WorkerDelivers(s);
    if s.worker.WGot? {
      var v := WorkerStep(s);
      assert Chain(s)[1..] == Chain(v);
      assert G.Deliver(s.timeline, Chain(s)) == G.Deliver(G.DeliverOne(s.timeline, s.worker.p), Chain(v));
    }
  }

  // ---- order and identity of what is in flight ----------------------------------------------------

  predicate NoOverflow(s: State, frames: nat)
  {
    s.host.stream.nextFrame + frames <= T.INT64_MAX
  }

  /** Removing a middle part keeps order and identity. */
  lemma DropMiddle(s: State, v: State, a: seq<Packet>, b: seq<Packet>, c: seq<Packet>)
    requires Flow(s) == a + b + c && Flow(v) == a + c
    requires FlowInv(s) && Front(s) <= Front(v) && v.host.known == s.host.known
    requires forall p :: p in Flow(s) ==> Knows(s.host.known, p)
    ensures FlowInv(v) && forall p :: p in Flow(v) ==> Knows(v.host.known, p)
  {
    AscendingSub(a, b, c, Front(s));
    forall p | p in Flow(v) ensures p in Flow(s) {
    }
  }

  lemma CaptureKeepsFlow(s: State)
    requires Inv(s) && (s.cb.CbRaw? || s.cb.CbRawLost? || s.cb.CbRawLostGap?)
    ensures var v := CaptureStep(s); FlowInv(v) && forall p :: p in Flow(v) ==> Knows(v.host.known, p)
  {
    hide GapInv, RawInv, EmittedInv, ScanInv, Chain, Readable;
    CaptureKeepsChain(s);
    var v := CaptureStep(s);
    assert Flow(v) == Flow(s);
  }

  lemma IngressKeepsFlow(s: State)
    requires Inv(s) && (s.cb.CbIngress? || s.cb.CbIngressLost? || s.cb.CbMark? || s.cb.CbPublish?)
    ensures var v := IngressStep(s); FlowInv(v) && forall p :: p in Flow(v) ==> Knows(v.host.known, p)
  {
    hide GapInv, RawInv, EmittedInv, ScanInv, Chain, Readable;
    IngressStepExtendsChain(s);
    var v := IngressStep(s);
    if s.cb.CbMark? {
      var p := v.cb.p;
      assert Flow(v) == Flow(s) + [p];
      AscendingAppend(Flow(s), p);
    } else {
      assert Flow(v) == Flow(s);
    }
  }

  lemma SplitResults(q: seq<Packet>, k: nat, x: seq<Packet>, y: seq<Packet>)
    requires k <= |q|
    ensures q + x + y == [] + q[..k] + (q[k..] + x + y)
  {
  }

  lemma ConsumeKeepsFlow(s: State)
    requires Inv(s) && Consuming(s.cb)
    ensures var v := ConsumeStep(s); FlowInv(v) && forall p :: p in Flow(v) ==> Knows(v.host.known, p)
  {
    hide GapInv, RawInv, EmittedInv, ScanInv, Chain, ConsumeStep, Taken, Readable, CarriesNewest, Knows, FlowInv, Front;
    ConsumeKeepsChain(s);
    ConsumeLeavesGapAlone(s);
    var v, k := ConsumeStep(s), Taken(s);
    var rest := s.q.results[k..] + Outgoing(s.worker) + Chain(s);
    SplitResults(s.q.results, k, Outgoing(s.worker), Chain(s));
    assert Flow(v) == [] + rest;
    DropMiddle(s, v, [], s.q.results[..k], rest);
  }

  lemma SubmitKeepsFlow(s: State, fails: bool)
    requires Inv(s)
    ensures var v := SubmitStep(s, fails); FlowInv(v) && forall p :: p in Flow(v) ==> Knows(v.host.known, p)
  {
    hide GapInv, RawInv, EmittedInv, ScanInv, Chain, Readable, CarriesNewest;
    SubmitMovesOrLoses(s, fails);
    var v := SubmitStep(s, fails);
    if v.sub.SubStoreGap? {
      var p, before, after := s.sub.p, WorkerHand(s.worker) + s.q.core, s.q.ingress[1..] + Decided(s.cb);
      var out := s.q.results + Outgoing(s.worker);
      assert Flow(s) == (out + before) + [p] + after;
      assert Flow(v) == (out + before) + after;
      DropMiddle(s, v, out + before, [p], after);
    } else {
      assert Flow(v) == Flow(s);
    }
  }

  lemma WorkerKeepsFlow(s: State)
    requires Inv(s)
    ensures var v := WorkerStep(s); FlowInv(v) && forall p :: p in Flow(v) ==> Knows(v.host.known, p)
  {
    hide GapInv, RawInv, EmittedInv, ScanInv, Chain, Readable, CarriesNewest;
    WorkerDelivers(s);
    var v := WorkerStep(s);
    match s.worker
    case WIdle => assert Flow(v) == Flow(s);
    case WGot(p) => assert Flow(v) == Flow(s);
    case WOut(p) =>
      if v.worker.WIdle? {
        assert Flow(v) == s.q.results + Chain(s);
        DropMiddle(s, v, s.q.results, [p], Chain(s));
      } else {
        assert Flow(v) == Flow(s);
      }
    case WPublish(p) => assert Flow(v) == Flow(s);
  }

  // ---- the delay queue and its output -------------------------------------------------------------

  lemma CaptureKeepsRaw(s: State)
    requires Inv(s) && (s.cb.CbRaw? || s.cb.CbRawLost? || s.cb.CbRawLostGap?)
    ensures var v := CaptureStep(s);
      RawInv(v) && EmittedInv(v.host.emitted, RawLow(v)) && ScanInv(v) &&
      forall p :: p in v.host.raw ==> Knows(v.host.known, p)
  {
    hide GapInv, FlowInv, Chain, Flow, HasFirst;
    if s.cb.CbRaw? {
      LowBelowFront(s.host.raw);
    }
  }

  lemma {:induction false} LowBelowFront(raw: seq<Packet>)
    requires G.Contiguous(raw) && forall p :: p in raw ==> G.Sound(p)
    ensures raw != [] ==> raw[0].first < G.End(raw[|raw| - 1])
    decreases |raw|
  {
    if |raw| > 1 {
      var init, p := raw[..|raw| - 1], raw[|raw| - 1];
      assert raw == init + [p] && p in raw && init[0] == raw[0];
      assert p.first == G.End(init[|init| - 1]);
      LowBelowFront(init);
    } else if |raw| == 1 {
      assert raw[0] in raw;
    }
  }

  lemma ConsumeKeepsRaw(s: State)
    requires Inv(s) && Consuming(s.cb)
    ensures var v := ConsumeStep(s); RawInv(v) && forall p :: p in v.host.raw ==> Knows(v.host.known, p)
  {
    hide GapInv, FlowInv, Chain, Flow, EmittedInv, ScanInv, HasFirst;
    var v := ConsumeStep(s);
    assert v.host.raw == s.host.raw || (s.host.raw != [] && v.host.raw == s.host.raw[1..]);
    if v.host.raw != s.host.raw {
      forall i | 0 < i < |v.host.raw| ensures v.host.raw[i].first == G.End(v.host.raw[i - 1]) {
        assert s.host.raw[i + 1].first == G.End(s.host.raw[i]);
      }
    }
  }

  /** The oldest block gone, the next one starts at its end or later. */
  lemma PopRaisesLow(s: State)
    requires RawInv(s) && s.host.raw != []
    ensures s.host.raw[0].first < G.End(s.host.raw[0])
    ensures |s.host.raw| > 1 ==> s.host.raw[1].first == G.End(s.host.raw[0])
    ensures |s.host.raw| == 1 ==> RawFront(s) == G.End(s.host.raw[0])
  {
    assert s.host.raw[0] in s.host.raw;
    if |s.host.raw| > 1 {
      assert s.host.raw[1].first == G.End(s.host.raw[0]);
    }
  }

  lemma ScanKeepsOutput(s: State)
    requires Inv(s) && s.cb.CbScan?
    ensures var v := ScanStep(s); EmittedInv(v.host.emitted, RawLow(v)) && ScanInv(v)
  {
    hide GapInv, Chain;
    var n, oldest := s.cb.n, s.host.raw[0];
    PopRaisesLow(s);
    ResultsAscend(s);
    if n > 0 {
      var r := s.q.results[0];
      assert s.q.results[..n][1..] == s.q.results[1..][..n - 1];
      if r.first < oldest.first {
        DropSmaller(s.q.results[..n], oldest.first);
      } else if r.first == oldest.first {
        HitIsOldestBlock(s);
      } else {
        forall i | 0 <= i < n ensures s.q.results[..n][i].first != oldest.first {
        }
      }
    }
  }

  /** A result with the oldest block's first frame has its length too and fits the output. */
  lemma HitIsOldestBlock(s: State)
    requires Inv(s) && s.host.raw != [] && s.q.results != [] && s.q.results[0].first == s.host.raw[0].first
    ensures s.q.results[0].frames == s.host.raw[0].frames && CopyOk(s.q.results[0])
  {
    hide GapInv, Chain, Flow, EmittedInv, ScanInv, FlowInv;
    ResultsAscend(s);
    var r, oldest := s.q.results[0], s.host.raw[0];
    assert r in s.q.results && r in Flow(s) && oldest in s.host.raw;
    assert Knows(s.host.known, r) && Knows(s.host.known, oldest);
  }

  lemma ResultsAscend(s: State)
    requires FlowInv(s)
    ensures forall i, j :: 0 <= i < j < |s.q.results| ==> s.q.results[i].first < s.q.results[j].first
    ensures forall i :: 0 <= i < |s.q.results| ==> G.Sound(s.q.results[i]) && s.q.results[i].frames <= MAX_FRAMES
    ensures forall p :: p in s.q.results ==> p in Flow(s)
  {
    forall i | 0 <= i < |s.q.results| ensures s.q.results[i] == Flow(s)[i] {
    }
  }

  lemma DropSmaller(q: seq<Packet>, first: int)
    requires q != [] && q[0].first < first
    ensures HasFirst(q, first) <==> HasFirst(q[1..], first)
  {
    if HasFirst(q, first) {
      var i :| 0 <= i < |q| && q[i].first == first;
      assert q[1..][i - 1].first == first;
    }
    if HasFirst(q[1..], first) {
      var i :| 0 <= i < |q[1..]| && q[1..][i].first == first;
      assert q[i + 1].first == first;
    }
  }

  lemma ConsumeKeepsOutput(s: State)
    requires Inv(s) && Consuming(s.cb)
    ensures var v := ConsumeStep(s); EmittedInv(v.host.emitted, RawLow(v)) && ScanInv(v)
  {
    hide GapInv, FlowInv, KnownInv, Chain, Flow, ScanStep, HasFirst;
    match s.cb
    case CbScan(_, _, _) => ScanKeepsOutput(s);
    case CbScanStart(_) => assert s.q.results[..|s.q.results|] == s.q.results;
    case _ =>
  }

  /** The worker and the submit thread only append to what a scan has seen. */
  lemma AppendKeepsScan(s: State)
    requires Inv(s)
    ensures ScanInv(WorkerStep(s)) && Readable(WorkerStep(s))
  {
    hide GapInv, FlowInv, KnownInv, RawInv, EmittedInv, Chain, Flow, HasFirst;
    if s.cb.CbScan? {
      assert WorkerStep(s).q.results[..s.cb.n] == s.q.results[..s.cb.n];
    }
  }

  // ---- the remaining steps ------------------------------------------------------------------------

  lemma BeginKeepsInv(s: State, ts: nat, frames: nat, finite: bool)
    requires Inv(s) && Enabled(s, BeginBlockStep(ts, frames, finite)) && NoOverflow(s, frames)
    ensures Inv(Begin(s, ts, frames, finite))
  {
    hide HasFirst, G.Deliver;
    BeginKeepsFlow(s, ts, frames, finite);
    BeginKeepsHost(s, ts, frames, finite);
    var v := Begin(s, ts, frames, finite);
    assert Chain(v) == Chain(s);
  }

  lemma BeginKeepsGap(s: State, ts: nat, frames: nat)
    requires Shape(s) && RecoveryInv(s) && Enabled(s, BeginBlockStep(ts, frames, true))
    ensures RecoveryInv(Begin(s, ts, frames, true))
  {
    hide HasFirst, G.Deliver, Readable;
    assert Chain(Begin(s, ts, frames, true)) == Chain(s);
  }

  lemma BeginKeepsFlow(s: State, ts: nat, frames: nat, finite: bool)
    requires Inv(s) && Enabled(s, BeginBlockStep(ts, frames, finite)) && NoOverflow(s, frames)
    ensures var v := Begin(s, ts, frames, finite); FlowInv(v) && forall p :: p in Flow(v) ==> Knows(v.host.known, p)
  {
    hide GapInv, RawInv, EmittedInv, ScanInv, Readable;
    var v := Begin(s, ts, frames, finite);
    assert Chain(v) == Chain(s);
    assert Flow(v) == Flow(s);
  }

  lemma BeginKeepsHost(s: State, ts: nat, frames: nat, finite: bool)
    requires Inv(s) && Enabled(s, BeginBlockStep(ts, frames, finite)) && NoOverflow(s, frames)
    ensures var v := Begin(s, ts, frames, finite);
      RawInv(v) && EmittedInv(v.host.emitted, RawLow(v)) && ScanInv(v) &&
      (forall k :: k in v.host.known ==> k < v.host.stream.nextFrame) &&
      (forall p :: p in v.host.raw ==> Knows(v.host.known, p)) && Knows(v.host.known, v.cb.p)
  {
    hide GapInv, FlowInv, Chain, Flow, Readable;
    LowBelowFront(s.host.raw);
  }

  lemma CallbackKeepsShape(s: State)
    requires Inv(s) && !s.cb.CbIdle?
    ensures Shape(CallbackStep(s))
  {
    hide GapInv, FlowInv, EmittedInv, ScanInv, Chain, Flow, HasFirst, KnownInv;
    if s.cb.CbRaw? || s.cb.CbRawLost? || s.cb.CbRawLostGap? {
    } else if Consuming(s.cb) {
      match s.cb case _ =>
    } else {
      match s.cb case _ =>
    }
  }

  lemma CallbackKeepsInv(s: State)
    requires Inv(s) && !s.cb.CbIdle?
    ensures Inv(CallbackStep(s))
  {
    hide FlowInv, EmittedInv, RawInv, Shape, GapInv, ScanInv, Chain, Flow, HasFirst, Knows, Readable;
    CallbackKeepsShape(s);
    if s.cb.CbRaw? || s.cb.CbRawLost? || s.cb.CbRawLostGap? {
      CaptureKeepsFlow(s);
      CaptureKeepsRaw(s);
    } else if Consuming(s.cb) {
      ConsumeReadable(s);
      ConsumeKeepsFlow(s);
      ConsumeKeepsRaw(s);
      ConsumeKeepsOutput(s);
      ConsumeLeavesGapAlone(s);
      ConsumeKeepsPacket(s);
    } else {
      IngressKeepsFlow(s);
      IngressLeavesHostAlone(s);
    }
  }

  lemma ConsumeReadable(s: State)
    requires Shape(s)
    ensures Readable(s)
  {
  }

  lemma ConsumeKeepsPacket(s: State)
    requires Consuming(s.cb) && Readable(s)
    ensures !ConsumeStep(s).cb.CbIdle? ==> ConsumeStep(s).cb.p == s.cb.p
  {
    hide HasFirst;
  }

  lemma IngressLeavesHostAlone(s: State)
    requires Inv(s) && (s.cb.CbIngress? || s.cb.CbIngressLost? || s.cb.CbMark? || s.cb.CbPublish?)
    ensures var v := IngressStep(s);
      v.host == s.host && !v.cb.CbIdle? && Knows(v.host.known, v.cb.p) &&
      RawInv(v) && EmittedInv(v.host.emitted, RawLow(v)) && ScanInv(v)
  {
    hide GapInv, FlowInv, Chain, Flow, HasFirst, Shape;
  }

  lemma SubmitKeepsInv(s: State, fails: bool)
    requires Inv(s)
    ensures Inv(SubmitStep(s, fails))
  {
    hide EmittedInv, Chain, HasFirst, FlowInv, GapInv, Flow;
    SubmitKeepsFlow(s, fails);
  }

  lemma WorkerKeepsInv(s: State)
    requires Inv(s) && !s.phase.Stopped?
    ensures Inv(WorkerStep(s))
  {
    hide EmittedInv, Chain, HasFirst, FlowInv, GapInv, Flow, ScanInv;
    WorkerKeepsFlow(s);
    AppendKeepsScan(s);
    G.DeliverKeepsRate(s.timeline, WorkerHand(s.worker));
    if s.worker.WGot? {
      assert WorkerHand(s.worker) == [s.worker.p];
      assert G.Deliver(s.timeline, [s.worker.p]) == G.Deliver(G.DeliverOne(s.timeline, s.worker.p), [s.worker.p][1..]);
    }
  }

  predicate IsLifecycle(step: Step)
  {
    step.RuntimeReports? || step.StopCalled? || step.SubmitJoined? || step.WorkerJoined? || step.StartCalled?
  }

  lemma JoinKeepsInv(s: State)
    requires Inv(s) && Enabled(s, SubmitJoined)
    ensures Inv(Apply(s, SubmitJoined))
  {
    hide HasFirst, EmittedInv, RawInv, FlowInv;
    var v := Apply(s, SubmitJoined);
    var kept := s.q.results + Outgoing(s.worker) + (WorkerHand(s.worker) + s.q.core);
    assert Flow(s) == kept + s.q.ingress + [];
    assert Flow(v) == kept + [];
    DropMiddle(s, v, kept, s.q.ingress, []);
    HostUntouched(s, v);
  }

  /** Raw queue, log and scan depend on the callback's side only. */
  lemma HostUntouched(s: State, v: State)
    requires v.host == s.host && v.cb == s.cb && s.cb.CbIdle? && RawInv(s) && EmittedInv(s.host.emitted, RawLow(s))
    ensures RawInv(v) && EmittedInv(v.host.emitted, RawLow(v)) && ScanInv(v)
  {
    hide HasFirst;
  }

  lemma StoppedKeepsInv(s: State)
    requires Inv(s) && Enabled(s, WorkerJoined)
    ensures Inv(Apply(s, WorkerJoined))
  {
    hide HasFirst, EmittedInv, RawInv;
    var v := Apply(s, WorkerJoined);
    assert Flow(v) == [];
    HostUntouched(s, v);
  }

  lemma StartKeepsInv(s: State, rebuilt: bool)
    requires Inv(s) && Enabled(s, StartCalled(rebuilt))
    ensures Inv(Apply(s, StartCalled(rebuilt)))
  {
    hide HasFirst, GapInv, EmittedInv, RawInv, FlowInv;
    var v := Apply(s, StartCalled(rebuilt));
    assert Chain(v) == [] && Flow(v) == [];
    FreshInv(v);
  }

  lemma FreshInv(v: State)
    requires v.cb.CbIdle? && v.host.raw == [] && v.host.emitted == [] && v.host.stream.nextFrame == 0
    requires Flow(v) == []
    ensures RawInv(v) && EmittedInv(v.host.emitted, RawLow(v)) && ScanInv(v) && FlowInv(v)
  {
    hide HasFirst, Chain, Flow;
  }

  lemma ReportKeepsInv(s: State, v: State)
    requires Inv(s)
    requires v == s.(flags := v.flags, phase := v.phase) && v.flags.gap == s.flags.gap
    requires v.phase == s.phase || (s.phase.Live? && v.phase.Closing? && s.cb.CbIdle?)
    ensures Inv(v)
  {
    hide HasFirst, EmittedInv, Ascending, Knows, G.Contiguous, G.Deliver, G.InStep, G.Sound, EndTime;
    assert Flow(v) == Flow(s) && Chain(v) == Chain(s);
    assert Front(v) == Front(s) && RawFront(v) == RawFront(s) && RawLow(v) == RawLow(s);
    assert Shape(v);
    hide Flow, Chain, Front, RawFront, RawLow;
  }

  lemma LifecycleKeepsInv(s: State, step: Step)
    requires Inv(s) && Enabled(s, step) && IsLifecycle(step)
    ensures Inv(Apply(s, step))
  {
    hide Inv;
    var v := Apply(s, step);
    match step
    case RuntimeReports(_) => ReportKeepsInv(s, v);
    case StopCalled => ReportKeepsInv(s, v);
    case SubmitJoined => JoinKeepsInv(s);
    case WorkerJoined => StoppedKeepsInv(s);
    case StartCalled(rebuilt) => StartKeepsInv(s, rebuilt);
  }

  // ---- runs ---------------------------------------------------------------------------------------

  /** Steps of a run whose frame counter stays in range. */
  predicate Clean(s: State, step: Step)
  {
    step.BeginBlockStep? ==> NoOverflow(s, step.frames)
  }

  /** Blocks with finite samples only. */
  predicate FiniteStep(step: Step)
  {
    step.BeginBlockStep? ==> step.finite
  }

  lemma StepKeepsInv(s: State, step: Step)
    requires Inv(s) && Enabled(s, step) && Clean(s, step)
    ensures Inv(Apply(s, step))
  {
    hide Inv;
    match step
    case BeginBlockStep(ts, frames, finite) => BeginKeepsInv(s, ts, frames, finite);
    case CallbackMoves => CallbackKeepsInv(s);
    case SubmitMoves(fails) => SubmitKeepsInv(s, fails);
    case WorkerMoves => WorkerKeepsInv(s);
    case _ => LifecycleKeepsInv(s, step);
  }

  lemma LifecycleKeepsGap(s: State, step: Step)
    requires Shape(s) && RecoveryInv(s) && Enabled(s, step) && IsLifecycle(step)
    ensures RecoveryInv(Apply(s, step))
  {
    hide HasFirst, CarriesNewest;
    var v := Apply(s, step);
    if step.StartCalled? {
      assert Chain(v) == [];
      assert G.Deliver(v.timeline, []) == v.timeline;
    } else if step.SubmitJoined? {
      assert forall p :: p in Chain(v) ==> p in Chain(s);
    } else {
      assert Chain(v) == Chain(s);
    }
  }

  lemma StepKeepsRecovery(s: State, step: Step)
    requires Inv(s) && RecoveryInv(s) && Enabled(s, step) && FiniteStep(step)
    ensures RecoveryInv(Apply(s, step))
  {
    hide RecoveryInv, Shape, FlowInv, RawInv, KnownInv, EmittedInv, ScanInv;
    match step
    case BeginBlockStep(ts, frames, _) => BeginKeepsGap(s, ts, frames);
    case CallbackMoves => CallbackKeepsGap(s);
    case SubmitMoves(fails) => SubmitKeepsGap(s, fails);
    case WorkerMoves => WorkerKeepsGap(s);
    case _ => LifecycleKeepsGap(s, step);
  }

  ghost predicate IsRun(states: seq<State>, steps: seq<Step>)
  {
    |states| == |steps| + 1 &&
    forall i :: 0 <= i < |steps| ==>
      Enabled(states[i], steps[i]) && Clean(states[i], steps[i]) && states[i + 1] == Apply(states[i], steps[i])
  }

  lemma InitInv(rate: nat)
    ensures Inv(Init(rate))
  {
    hide HasFirst;
    var v := Init(rate);
    assert Flow(v) == [] && Chain(v) == [];
    FreshInv(v);
  }

  lemma {:induction false} EveryRunKeepsInv(states: seq<State>, steps: seq<Step>, rate: nat, k: nat)
    requires IsRun(states, steps) && states[0] == Init(rate) && k <= |steps|
    ensures Inv(states[k])
  {
    hide Inv, Enabled, Apply, Clean;
    if k > 0 {
      EveryRunKeepsInv(states, steps, rate, k - 1);
      StepKeepsInv(states[k - 1], steps[k - 1]);
    } else {
      InitInv(rate);
    }
  }

  lemma {:induction false} FiniteRunKeepsRecovery(states: seq<State>, steps: seq<Step>, rate: nat, k: nat)
    requires IsRun(states, steps) && states[0] == Init(rate) && k <= |steps|
    requires forall i :: 0 <= i < k ==> FiniteStep(steps[i])
    ensures RecoveryInv(states[k])
  {
    hide Inv, RecoveryInv, Enabled, Apply, Clean, FiniteStep;
    if k > 0 {
      FiniteRunKeepsRecovery(states, steps, rate, k - 1);
      EveryRunKeepsInv(states, steps, rate, k - 1);
      StepKeepsRecovery(states[k - 1], steps[k - 1]);
    } else {
      InitRecovers(rate);
    }
  }

  lemma InitRecovers(rate: nat)
    ensures RecoveryInv(Init(rate))
  {
    assert Chain(Init(rate)) == [];
    assert G.Deliver(T.Init(rate), []) == T.Init(rate);
  }

  // ---- main results -------------------------------------------------------------------------------

  /** Gap recovery never sticks. In every reachable state of a running stream of finite samples where no loss is
      noted or about to be, no break of contiguity lies after the last discontinuity mark in flight; so once what
      is in flight has been delivered the timeline is in step with the stream. */
  lemma GapNeverSticks(states: seq<State>, steps: seq<Step>, rate: nat, k: nat)
    requires IsRun(states, steps) && states[0] == Init(rate) && k <= |steps|
    requires forall i :: 0 <= i < k ==> FiniteStep(steps[i])
    requires (states[k].phase.Live? || states[k].phase.Closing?) && !Pending(states[k])
    ensures var s := states[k];
      G.NoOpenBreak(s.timeline, Chain(s), Front(s)) && G.InStep(G.Deliver(s.timeline, Chain(s)), Front(s))
  {
    EveryRunKeepsInv(states, steps, rate, k);
    FiniteRunKeepsRecovery(states, steps, rate, k);
    ChainIsSound(states[k]);
    G.InStepIffNoOpenBreak(states[k].timeline, Chain(states[k]), Front(states[k]));
  }

  lemma ChainIsSound(s: State)
    requires Inv(s) && InFlightFinite(s)
    ensures s.timeline.sampleRate > 0 && forall p :: p in Chain(s) ==> G.Sound(p) && p.finite
  {
    hide GapInv, RawInv, KnownInv, EmittedInv, ScanInv, Chain, Readable;
    forall p | p in Chain(s) ensures G.Sound(p) && p.finite {
      assert p in Flow(s);
    }
  }

  /** With any samples, the exact condition: in every reachable running state, delivering what is in flight leaves the
      timeline in step with the stream if and only if no break lies after the last mark among the blocks in flight
      that are finite. */
  lemma InStepExactlyOnFiniteBlocks(states: seq<State>, steps: seq<Step>, rate: nat, k: nat)
    requires IsRun(states, steps) && states[0] == Init(rate) && k <= |steps|
    ensures var s := states[k];
      G.InStep(G.Deliver(s.timeline, Chain(s)), Front(s)) <==>
        G.NoOpenBreak(s.timeline, G.FiniteOnly(Chain(s)), Front(s))
  {
    EveryRunKeepsInv(states, steps, rate, k);
    FlowIsSound(states[k]);
    G.RecoveryExactly(states[k].timeline, Chain(states[k]), Front(states[k]));
  }

  lemma FlowIsSound(s: State)
    requires Inv(s)
    ensures s.timeline.sampleRate > 0 && forall p :: p in Chain(s) ==> G.Sound(p)
  {
    hide RawInv, KnownInv, EmittedInv, ScanInv, Chain, Readable;
    forall p | p in Chain(s) ensures G.Sound(p) {
      assert p in Flow(s);
    }
  }

  /** The stream stays open, and no block reaches its marking step, from state i up to state j. */
  ghost predicate NothingMarked(states: seq<State>, steps: seq<Step>, i: nat, j: nat)
    requires |states| == |steps| + 1 && i <= j <= |steps|
  {
    (forall k :: i <= k <= j ==> states[k].phase.Live? || states[k].phase.Closing?) &&
    (forall k :: i <= k < j ==> !(states[k].cb.CbMark? && steps[k].CallbackMoves?))
  }

  /** A noted loss stays noted until a block is marked, or the stream is stopped. */
  lemma {:induction false} NotedLossPersists(states: seq<State>, steps: seq<Step>, i: nat, j: nat)
    requires IsRun(states, steps) && i <= j <= |steps| && states[i].flags.gap && NothingMarked(states, steps, i, j)
    ensures states[j].flags.gap
  {
    hide Enabled, Apply, Clean;
    if i < j {
      NotedLossPersists(states, steps, i, j - 1);
      OnlyMarkingClears(states[j - 1], steps[j - 1]);
    }
  }

  lemma OnlyMarkingClears(s: State, step: Step)
    requires Enabled(s, step) && s.flags.gap && !(s.cb.CbMark? && step.CallbackMoves?) && !s.phase.Stopped?
    ensures Apply(s, step).flags.gap || Apply(s, step).phase.Draining?
  {
    hide HasFirst, BeginBlock, EndTime;
  }

  /** Every noted loss is repaired. From the moment the gap flag is set, through any interleaving, it stays set until
      the first block that reaches its marking step; that block carries the mark, enters the chain behind all that is
      in flight, and, if its samples are finite, its delivery anchors the timeline where the stream stands, whatever
      came before it. (A block already past its marking step goes on the ring unmarked before that.) */
  lemma NotedLossIsRepaired(states: seq<State>, steps: seq<Step>, rate: nat, i: nat, j: nat)
    requires IsRun(states, steps) && states[0] == Init(rate) && i <= j < |steps|
    requires states[i].flags.gap && NothingMarked(states, steps, i, j)
    requires states[j].cb.CbMark? && steps[j].CallbackMoves?
    ensures var s, v := states[j], states[j + 1];
      v.cb.CbPublish? && v.cb.p.mark && Chain(v) == Chain(s) + [v.cb.p] &&
      (v.cb.p.finite ==>
        G.Deliver(s.timeline, Chain(v)).anchored &&
        G.Deliver(s.timeline, Chain(v)).nextFrame == G.End(v.cb.p) == v.host.stream.nextFrame)
  {
    NotedLossPersists(states, steps, i, j);
    EveryRunKeepsInv(states, steps, rate, j);
    MarkRepairs(states[j]);
  }

  lemma MarkRepairs(s: State)
    requires Inv(s) && s.cb.CbMark? && (s.flags.gap || s.host.stream.discontinuity)
    ensures var v := CallbackStep(s);
      v.cb.CbPublish? && v.cb.p.mark && Chain(v) == Chain(s) + [v.cb.p] &&
      (v.cb.p.finite ==>
        G.Deliver(s.timeline, Chain(v)).anchored &&
        G.Deliver(s.timeline, Chain(v)).nextFrame == G.End(v.cb.p) == v.host.stream.nextFrame)
  {
    hide GapInv, RawInv, KnownInv, EmittedInv, ScanInv, Chain, FlowInv, G.Deliver;
    IngressStepExtendsChain(s);
    if s.cb.p.finite {
      G.MarkedPacketReanchors(s.timeline, Chain(s), CallbackStep(s).cb.p);
    }
  }

  /** Every block the bridge ever returned in this stream: a processed one is the oldest raw block with its
      frame id, timestamp and length, at least 1.5 s old; processed ones come out in strictly increasing order,
      so no result is used twice; and an undelayed block was returned only when the results seen had none for
      the oldest block, so no published, undiscarded result is skipped. */
  lemma OutputIsAligned(states: seq<State>, steps: seq<Step>, rate: nat, k: nat)
    requires IsRun(states, steps) && states[0] == Init(rate) && k <= |steps|
    ensures forall i :: 0 <= i < |states[k].host.emitted| ==> Aligned(states[k].host.emitted[i])
    ensures var log := states[k].host.emitted;
      forall i, j :: 0 <= i < j < |log| && log[i].Processed? && log[j].Processed? ==> log[i].first < log[j].first
  {
    EveryRunKeepsInv(states, steps, rate, k);
  }

  /** The delay queue is always a contiguous stretch of the stream ending at the newest block. */
  lemma DelayQueueIsContiguous(states: seq<State>, steps: seq<Step>, rate: nat, k: nat)
    requires IsRun(states, steps) && states[0] == Init(rate) && k <= |steps|
    ensures var s := states[k];
      |s.host.raw| <= RAW_CAPACITY && G.Contiguous(s.host.raw) &&
      (s.host.raw != [] ==> G.End(s.host.raw[|s.host.raw| - 1]) == RawFront(s))
  {
    EveryRunKeepsInv(states, steps, rate, k);
  }

  /** When the bridge is stopped, no block is on its way any more: ingress ring, core queue, hands and result ring are
      empty. (The raw delay ring keeps its blocks until the next start.) */
  lemma NothingInFlightWhenStopped(states: seq<State>, steps: seq<Step>, rate: nat, k: nat)
    requires IsRun(states, steps) && states[0] == Init(rate) && k <= |steps| && states[k].phase.Stopped?
    ensures Flow(states[k]) == [] && states[k].q == Queues([], [], []) && states[k].worker.WIdle? &&
      states[k].sub.SubLook?
  {
    EveryRunKeepsInv(states, steps, rate, k);
    StoppedIsEmpty(states[k]);
  }

  lemma StoppedIsEmpty(s: State)
    requires Shape(s) && s.phase.Stopped?
    ensures Flow(s) == [] && s.q == Queues([], [], []) && s.worker.WIdle? && s.sub.SubLook?
  {
  }

  /** Nothing of an earlier stream survives into the next one: after every start the delay ring, all queues, all hands
      and the output log are empty, no loss is noted, and the timeline waits for the first block. */
  lemma NothingSurvivesRestart(states: seq<State>, steps: seq<Step>, rate: nat, k: nat)
    requires IsRun(states, steps) && states[0] == Init(rate) && k < |steps| && steps[k].StartCalled?
    ensures var v := states[k + 1];
      v.host.raw == [] && v.host.emitted == [] && v.host.stream == Stream(false, false, 0, 0) &&
      v.q == Queues([], [], []) && Flow(v) == [] && !v.flags.gap && !v.timeline.anchored && G.InStep(v.timeline, 0) &&
      v.phase.Live? && v.flags.resetResults && !v.flags.ready
  {
    EveryRunKeepsInv(states, steps, rate, k);
    StoppedIsEmpty(states[k]);
    assert Enabled(states[k], steps[k]) && states[k + 1] == Apply(states[k], steps[k]);
  }

  /** Neither thread is ever stuck in the middle: a step it has begun always finds what it needs in its queue. */
  lemma ThreadsCanAlwaysMove(states: seq<State>, steps: seq<Step>, rate: nat, k: nat)
    requires IsRun(states, steps) && states[0] == Init(rate) && k <= |steps|
    ensures !states[k].cb.CbIdle? ==> Enabled(states[k], CallbackMoves)
    ensures !states[k].sub.SubLook? ==> Enabled(states[k], SubmitMoves(false))
  {
    EveryRunKeepsInv(states, steps, rate, k);
  }

  /** A noted loss can be forgotten: when the block that takes the mark holds a non-finite sample, the marking step
      clears the flag, nothing is pending any more, and what will be delivered is what would have been without it. */
  lemma LossIsForgottenOnNonFiniteBlock(states: seq<State>, steps: seq<Step>, rate: nat, k: nat)
    requires IsRun(states, steps) && states[0] == Init(rate) && k < |steps|
    requires states[k].cb.CbMark? && steps[k].CallbackMoves? && states[k].flags.gap && !states[k].cb.p.finite
    requires !states[k].host.stream.discontinuity && !states[k].sub.SubStoreGap?
    ensures var s, v := states[k], states[k + 1];
      Pending(s) && !Pending(v) && v.cb.p.mark && Chain(v) == Chain(s) + [v.cb.p] &&
      G.Deliver(v.timeline, Chain(v)) == G.Deliver(s.timeline, Chain(s))
  {
    hide Chain;
    EveryRunKeepsInv(states, steps, rate, k);
    assert Enabled(states[k], steps[k]) && states[k + 1] == Apply(states[k], steps[k]);
    IngressStepExtendsChain(states[k]);
    G.DeliverAppend(states[k].timeline, Chain(states[k]), states[k + 1].cb.p);
  }

  // ---- where the code falls short of its stated intent --------------------------------------------

  /** While the delay ring has no result for the oldest block, the source copies that block into its output
      buffer but returns the block it was given: the audio leaves undelayed. In every run, the last step of a scan
      returns the delayed block if and only if a result for the oldest block is among those left to look at, which
      are all of those there when the scan began that are not older. */
  lemma DelayedExactlyWithResult(states: seq<State>, steps: seq<Step>, rate: nat, k: nat)
    requires IsRun(states, steps) && states[0] == Init(rate) && k < |steps|
    requires states[k].cb.CbScan? && steps[k].CallbackMoves? && states[k + 1].cb.CbIdle?
    ensures var s, log := states[k], states[k + 1].host.emitted;
      log != [] && s.host.raw != [] && s.cb.n <= |s.q.results| &&
      var e, present := log[|log| - 1], HasFirst(s.q.results[..s.cb.n], s.host.raw[0].first);
      (e.Processed? <==> present) && (e.Undelayed? <==> !present) &&
      (e.Undelayed? ==> e.current == s.cb.p && e.oldest == s.host.raw[0])
  {
    EveryRunKeepsInv(states, steps, rate, k);
    ScanVerdict(states[k]);
    assert Enabled(states[k], steps[k]) && states[k + 1] == Apply(states[k], steps[k]);
  }

  /** A scan never passes over a result for the oldest block: what it leaves behind are results of earlier blocks. */
  lemma ScanKeepsThePresentResult(states: seq<State>, steps: seq<Step>, rate: nat, k: nat)
    requires IsRun(states, steps) && states[0] == Init(rate) && k < |steps|
    requires states[k].cb.CbScan? && steps[k].CallbackMoves? && states[k + 1].cb.CbScan?
    ensures var s, v := states[k], states[k + 1];
      s.host.raw != [] && v.host.raw == s.host.raw && s.cb.n <= |s.q.results| && v.cb.n <= |v.q.results| &&
      (HasFirst(v.q.results[..v.cb.n], s.host.raw[0].first) <==> HasFirst(s.q.results[..s.cb.n], s.host.raw[0].first))
  {
    EveryRunKeepsInv(states, steps, rate, k);
    EveryRunKeepsInv(states, steps, rate, k + 1);
    hide HasFirst, GapInv, FlowInv, KnownInv, RawInv, EmittedInv;
    assert Enabled(states[k], steps[k]) && states[k + 1] == Apply(states[k], steps[k]);
  }

  /** When the delay is judged there is always an oldest block, so no block leaves undelayed for want of one. */
  lemma OldestIsAlwaysThere(states: seq<State>, steps: seq<Step>, rate: nat, k: nat)
    requires IsRun(states, steps) && states[0] == Init(rate) && k <= |steps| && Consuming(states[k].cb)
    ensures states[k].host.raw != []
  {
    EveryRunKeepsInv(states, steps, rate, k);
  }

  lemma ScanVerdict(s: State)
    requires Inv(s) && s.cb.CbScan?
    requires var v := ScanStep(s); v.cb.CbIdle?
    ensures var v := ScanStep(s);
      v.host.emitted != [] &&
      var e := v.host.emitted[|v.host.emitted| - 1];
      (e.Processed? <==> s.cb.had) && (e.Undelayed? <==> !s.cb.had) &&
      (e.Undelayed? ==> e.current == s.cb.p && e.oldest == s.host.raw[0])
  {
    hide GapInv, FlowInv, KnownInv, RawInv, EmittedInv, Chain, Flow;
    var n := s.cb.n;
    if n > 0 {
      if s.q.results[0].first == s.host.raw[0].first {
        HitIsOldestBlock(s);
        assert s.q.results[..n][0] == s.q.results[0];
      } else {
        ResultsAscend(s);
      }
    }
  }

  // Two blocks of 4096 frames at 8 kHz (0.512 s), the second one second after the first ends: not a jump, and the
  // first is then 1.512 s old.
  const FIRST := G.Packet(0, 4096, 0, false, true)
  const SECOND := G.Packet(4096, 4096, 1_512_000_000, false, true)

  lemma RunExtends(states: seq<State>, steps: seq<Step>, step: Step)
    requires IsRun(states, steps) && Enabled(states[|steps|], step) && Clean(states[|steps|], step)
    ensures IsRun(states + [Apply(states[|steps|], step)], steps + [step])
  {
    hide Enabled, Clean, Apply;
    var v, w := states + [Apply(states[|steps|], step)], steps + [step];
    forall i | 0 <= i < |w|
      ensures Enabled(v[i], w[i]) && Clean(v[i], w[i]) && v[i + 1] == Apply(v[i], w[i])
    {
      if i < |steps| {
        assert v[i] == states[i] && v[i + 1] == states[i + 1] && w[i] == steps[i];
      }
    }
  }

  /** Consecutive states of a path, each reached by its move. */
  ghost predicate IsPath(path: seq<State>, moves: seq<Step>)
  {
    |path| == |moves| + 1 &&
    forall i :: 0 <= i < |moves| ==>
      Enabled(path[i], moves[i]) && Clean(path[i], moves[i]) && path[i + 1] == Apply(path[i], moves[i])
  }

  lemma {:induction false} PathExtends(states: seq<State>, steps: seq<Step>, path: seq<State>, moves: seq<Step>)
    returns (more: seq<State>, all: seq<Step>)
    requires IsRun(states, steps) && IsPath(path, moves) && path[0] == states[|steps|]
    ensures IsRun(more, all) && more[0] == states[0] && more[|all|] == path[|moves|]
    decreases |moves|
  {
    hide Enabled, Apply, Clean;
    if moves == [] {
      return states, steps;
    }
    assert Enabled(path[0], moves[0]) && Clean(path[0], moves[0]) && path[1] == Apply(path[0], moves[0]);
    RunExtends(states, steps, moves[0]);
    more, all := PathExtends(states + [path[1]], steps + [moves[0]], path[1..], moves[1..]);
  }

  function Moves(n: nat): (m: seq<Step>)
    ensures |m| == n && forall i :: 0 <= i < n ==> m[i] == CallbackMoves
  {
    seq(n, _ => CallbackMoves)
  }

  function Base(cb: Callback, stream: Stream, raw: seq<Packet>, known: map<int, nat>, reset: bool, ingress: seq<Packet>,
                emitted: seq<Emission>): State
  {
    State(cb, Host(stream, raw, emitted, known), Flags(reset, false, false), Queues(ingress, [], []), SubLook, WIdle,
          T.Timeline(8000, false, false, 0, 1), Live)
  }

  const STREAM1 := Stream(true, false, 512_000_000, 4096)
  const STREAM2 := Stream(true, false, 2_024_000_000, 8192)
  const KNOWN1: map<int, nat> := map[0 := 4096]
  const KNOWN2: map<int, nat> := map[0 := 4096, 4096 := 4096]

  function FirstPath(): seq<State>
  {
    [Base(CbRaw(FIRST), STREAM1, [], KNOWN1, true, [], []),
     Base(CbIngress(FIRST), STREAM1, [FIRST], KNOWN1, true, [], []),
     Base(CbMark(FIRST), STREAM1, [FIRST], KNOWN1, true, [], []),
     Base(CbPublish(FIRST), STREAM1, [FIRST], KNOWN1, true, [], []),
     Base(CbConsume(FIRST), STREAM1, [FIRST], KNOWN1, true, [FIRST], []),
     Base(CbDiscard(FIRST), STREAM1, [FIRST], KNOWN1, false, [FIRST], []),
     Base(CbDiscardTo(FIRST, 0), STREAM1, [FIRST], KNOWN1, false, [FIRST], []),
     Base(CbOldest(FIRST), STREAM1, [FIRST], KNOWN1, false, [FIRST], []),
     Base(CbIdle, STREAM1, [FIRST], KNOWN1, false, [FIRST], [Silent])]
  }

  function SecondPath(): seq<State>
  {
    var raw, ingress := [FIRST, SECOND], [FIRST, SECOND];
    [Base(CbRaw(SECOND), STREAM2, [FIRST], KNOWN2, false, [FIRST], [Silent]),
     Base(CbIngress(SECOND), STREAM2, raw, KNOWN2, false, [FIRST], [Silent]),
     Base(CbMark(SECOND), STREAM2, raw, KNOWN2, false, [FIRST], [Silent]),
     Base(CbPublish(SECOND), STREAM2, raw, KNOWN2, false, [FIRST], [Silent]),
     Base(CbConsume(SECOND), STREAM2, raw, KNOWN2, false, ingress, [Silent]),
     Base(CbOldest(SECOND), STREAM2, raw, KNOWN2, false, ingress, [Silent]),
     Base(CbScanStart(SECOND), STREAM2, raw, KNOWN2, false, ingress, [Silent]),
     Base(CbScan(SECOND, 0, false), STREAM2, raw, KNOWN2, false, ingress, [Silent]),
     Base(CbIdle, STREAM2, [SECOND], KNOWN2, false, ingress, [Silent, Undelayed(SECOND, FIRST, false)])]
  }

  lemma FirstPathMoves(i: nat)
    requires i < 8
    ensures Enabled(FirstPath()[i], CallbackMoves) && FirstPath()[i + 1] == Apply(FirstPath()[i], CallbackMoves)
  {
  }

  lemma SecondPathMoves(i: nat)
    requires i < 8
    ensures Enabled(SecondPath()[i], CallbackMoves) && SecondPath()[i + 1] == Apply(SecondPath()[i], CallbackMoves)
  {
    assert [FIRST] + [SECOND] == [FIRST, SECOND] && [FIRST, SECOND][1..] == [SECOND];
  }

  /** It really happens: with a runtime that never becomes ready, the second of two blocks leaves undelayed while the
      first, 1.512 s old, is dropped. */
  lemma UndelayedIsReachable() returns (states: seq<State>, steps: seq<Step>)
    ensures IsRun(states, steps) && states[0] == Init(8000)
    ensures states[|steps|].host.emitted == [Silent, Undelayed(SECOND, FIRST, false)] &&
      states[|steps|].host.raw == [SECOND]
  {
    hide IsRun, FirstPath, SecondPath, Enabled, Apply, Clean;
    states, steps := ReachFirst();
    states, steps := MovesOnFirst(states, steps);
    states, steps := ReachSecond(states, steps);
    states, steps := MovesOnSecond(states, steps);
    PathEnds();
  }

  lemma PathEnds()
    ensures |FirstPath()| == 9 && |SecondPath()| == 9
    ensures FirstPath()[8] == Base(CbIdle, STREAM1, [FIRST], KNOWN1, false, [FIRST], [Silent])
    ensures SecondPath()[8] ==
      Base(CbIdle, STREAM2, [SECOND], KNOWN2, false, [FIRST, SECOND], [Silent, Undelayed(SECOND, FIRST, false)])
  {
  }

  lemma ReachFirst() returns (states: seq<State>, steps: seq<Step>)
    ensures IsRun(states, steps) && states[0] == Init(8000) && states[|steps|] == FirstPath()[0]
  {
    var start, begin := StartCalled(false), BeginBlockStep(0, 4096, true);
    var s0 := Init(8000);
    var s1 := Apply(s0, start);
    assert IsRun([s0], []);
    RunExtends([s0], [], start);
    RunExtends([s0] + [s1], [] + [start], begin);
    states, steps := [s0] + [s1] + [Apply(s1, begin)], [] + [start] + [begin];
  }

  lemma MovesOnFirst(states: seq<State>, steps: seq<Step>) returns (more: seq<State>, all: seq<Step>)
    requires IsRun(states, steps) && states[|steps|] == FirstPath()[0]
    ensures IsRun(more, all) && more[0] == states[0] && more[|all|] == FirstPath()[8]
  {
    hide FirstPath, Enabled, Apply;
    PathEnds();
    forall i | 0 <= i < 8
      ensures Enabled(FirstPath()[i], Moves(8)[i]) && FirstPath()[i + 1] == Apply(FirstPath()[i], Moves(8)[i])
    {
      FirstPathMoves(i);
    }
    more, all := PathExtends(states, steps, FirstPath(), Moves(8));
  }

  lemma ReachSecond(states: seq<State>, steps: seq<Step>) returns (more: seq<State>, all: seq<Step>)
    requires IsRun(states, steps) && states[|steps|] == FirstPath()[8]
    ensures IsRun(more, all) && more[0] == states[0] && more[|all|] == SecondPath()[0]
  {
    hide IsRun;
    var begin := BeginBlockStep(1_512_000_000, 4096, true);
    var s := FirstPath()[8];
    assert KNOWN1[4096 := 4096] == KNOWN2;
    assert Apply(s, begin) == SecondPath()[0];
    RunExtends(states, steps, begin);
    RunLength(states, steps);
    more, all := states + [Apply(s, begin)], steps + [begin];
  }

  lemma RunLength(states: seq<State>, steps: seq<Step>)
    requires IsRun(states, steps)
    ensures |states| == |steps| + 1
  {
  }

  lemma MovesOnSecond(states: seq<State>, steps: seq<Step>) returns (more: seq<State>, all: seq<Step>)
    requires IsRun(states, steps) && states[|steps|] == SecondPath()[0]
    ensures IsRun(more, all) && more[0] == states[0] && more[|all|] == SecondPath()[8]
  {
    hide SecondPath, Enabled, Apply;
    PathEnds();
    forall i | 0 <= i < 8
      ensures Enabled(SecondPath()[i], Moves(8)[i]) && SecondPath()[i + 1] == Apply(SecondPath()[i], Moves(8)[i])
    {
      SecondPathMoves(i);
    }
    more, all := PathExtends(states, steps, SecondPath(), Moves(8));
  }

  // ---- the other half: a block that is delayed and processed ---------------------------------------

  const ANCHORED := T.Timeline(8000, true, false, 4096, 2)

  /** The same two blocks with a runtime that is ready: the state with what the submit thread and the worker hold. */
  function Ready(s: State, q: Queues, sub: Submit, worker: Worker, timeline: T.Timeline): State
  {
    s.(flags := s.flags.(ready := true), q := q, sub := sub, worker := worker, timeline := timeline)
  }

  function ReadyFirst(i: nat): State
    requires i < |FirstPath()|
  {
    var s := FirstPath()[i];
    Ready(s, s.q, SubLook, WIdle, s.timeline)
  }

  function ReadyFirstPath(): (path: seq<State>)
    ensures |path| == 9
  {
    seq(9, i requires 0 <= i < 9 => ReadyFirst(i))
  }

  /** The first block goes to the worker and comes back as a result. */
  function HandOver(): seq<State>
  {
    var s, t := FirstPath()[8], FirstPath()[8].timeline;
    [Ready(s, Queues([FIRST], [], []), SubLook, WIdle, t),
     Ready(s, Queues([FIRST], [], []), SubReady(FIRST), WIdle, t),
     Ready(s, Queues([FIRST], [], []), SubPush(FIRST), WIdle, t),
     Ready(s, Queues([FIRST], [FIRST], []), SubAdvance(FIRST), WIdle, t),
     Ready(s, Queues([], [FIRST], []), SubLook, WIdle, t),
     Ready(s, Queues([], [], []), SubLook, WGot(FIRST), t),
     Ready(s, Queues([], [], []), SubLook, WOut(FIRST), ANCHORED),
     Ready(s, Queues([], [], []), SubLook, WPublish(FIRST), ANCHORED),
     Ready(s, Queues([], [], [FIRST]), SubLook, WIdle, ANCHORED)]
  }

  const HAND_OVER_MOVES: seq<Step> :=
    [SubmitMoves(false), SubmitMoves(false), SubmitMoves(false), SubmitMoves(false), WorkerMoves, WorkerMoves,
     WorkerMoves, WorkerMoves]

  const PROCESSED := Processed(0, 4096, 0, FIRST, 512_000_000, 2_024_000_000)

  function ReadySecond(
    cb: Callback, raw: seq<Packet>, ingress: seq<Packet>, results: seq<Packet>, log: seq<Emission>): State
  {
    Ready(Base(cb, STREAM2, raw, KNOWN2, false, [], log), Queues(ingress, [], results), SubLook, WIdle, ANCHORED)
  }

  function ReadySecondPath(): seq<State>
  {
    var raw := [FIRST, SECOND];
    [ReadySecond(CbRaw(SECOND), [FIRST], [], [FIRST], [Silent]),
     ReadySecond(CbIngress(SECOND), raw, [], [FIRST], [Silent]),
     ReadySecond(CbMark(SECOND), raw, [], [FIRST], [Silent]),
     ReadySecond(CbPublish(SECOND), raw, [], [FIRST], [Silent]),
     ReadySecond(CbConsume(SECOND), raw, [SECOND], [FIRST], [Silent]),
     ReadySecond(CbOldest(SECOND), raw, [SECOND], [FIRST], [Silent]),
     ReadySecond(CbScanStart(SECOND), raw, [SECOND], [FIRST], [Silent]),
     ReadySecond(CbScan(SECOND, 1, true), raw, [SECOND], [FIRST], [Silent]),
     ReadySecond(CbIdle, [SECOND], [SECOND], [], [Silent, PROCESSED])]
  }

  lemma ReadyFirstMoves(i: nat)
    requires i < 8
    ensures Enabled(ReadyFirst(i), CallbackMoves) && ReadyFirst(i + 1) == Apply(ReadyFirst(i), CallbackMoves)
  {
  }

  lemma HandOverMoves(i: nat)
    requires i < 8
    ensures |HandOver()| == 9
    ensures Enabled(HandOver()[i], HAND_OVER_MOVES[i]) && HandOver()[i + 1] == Apply(HandOver()[i], HAND_OVER_MOVES[i])
  {
    assert [FIRST][1..] == [] && [] + [FIRST] == [FIRST];
  }

  lemma ReadySecondMoves(i: nat)
    requires i < 8
    ensures |ReadySecondPath()| == 9
    ensures Enabled(ReadySecondPath()[i], CallbackMoves) &&
      ReadySecondPath()[i + 1] == Apply(ReadySecondPath()[i], CallbackMoves)
  {
    assert [FIRST] + [SECOND] == [FIRST, SECOND] && [FIRST, SECOND][1..] == [SECOND] && [FIRST][1..] == [];
    assert [FIRST][0].first == 0 && HasFirst([FIRST], 0);
  }

  /** It really happens too: with a ready runtime the first block comes back processed, 1.512 s old. */
  lemma ProcessedIsReachable() returns (states: seq<State>, steps: seq<Step>)
    ensures IsRun(states, steps) && states[0] == Init(8000)
    ensures states[|steps|].host.emitted == [Silent, PROCESSED] && states[|steps|].host.raw == [SECOND]
  {
    hide IsRun, IsPath, ReadyFirstPath, HandOver, ReadySecondPath, Enabled, Apply, Clean;
    states, steps := ReachReadyFirst();
    ReadyPaths();
    states, steps := PathExtends(states, steps, ReadyFirstPath(), Moves(8));
    states, steps := PathExtends(states, steps, HandOver(), HAND_OVER_MOVES);
    states, steps := ReachReadySecond(states, steps);
    states, steps := PathExtends(states, steps, ReadySecondPath(), Moves(8));
  }

  lemma ReadyPaths()
    ensures IsPath(ReadyFirstPath(), Moves(8)) && IsPath(HandOver(), HAND_OVER_MOVES) &&
      IsPath(ReadySecondPath(), Moves(8))
    ensures ReadyFirstPath()[0] == ReadyFirst(0) && HandOver()[0] == ReadyFirstPath()[8]
    ensures ReadySecondPath()[8].host.emitted == [Silent, PROCESSED] && ReadySecondPath()[8].host.raw == [SECOND]
  {
    hide Enabled, Apply, FirstPath;
    PathEnds();
    forall i | 0 <= i < 8
      ensures Enabled(ReadyFirstPath()[i], CallbackMoves) &&
        ReadyFirstPath()[i + 1] == Apply(ReadyFirstPath()[i], CallbackMoves)
    {
      ReadyFirstMoves(i);
    }
    forall i | 0 <= i < 8
      ensures Enabled(HandOver()[i], HAND_OVER_MOVES[i]) &&
        HandOver()[i + 1] == Apply(HandOver()[i], HAND_OVER_MOVES[i])
    {
      HandOverMoves(i);
    }
    forall i | 0 <= i < 8
      ensures Enabled(ReadySecondPath()[i], CallbackMoves) &&
        ReadySecondPath()[i + 1] == Apply(ReadySecondPath()[i], CallbackMoves)
    {
      ReadySecondMoves(i);
    }
  }

  lemma ReachReadyFirst() returns (states: seq<State>, steps: seq<Step>)
    ensures IsRun(states, steps) && states[0] == Init(8000) && states[|steps|] == ReadyFirst(0)
  {
    var start, report, begin := StartCalled(false), RuntimeReports(true), BeginBlockStep(0, 4096, true);
    var s0 := Init(8000);
    var s1 := Apply(s0, start);
    var s2 := Apply(s1, report);
    assert IsRun([s0], []);
    RunExtends([s0], [], start);
    RunExtends([s0] + [s1], [] + [start], report);
    RunExtends([s0] + [s1] + [s2], [] + [start] + [report], begin);
    states, steps := [s0] + [s1] + [s2] + [Apply(s2, begin)], [] + [start] + [report] + [begin];
  }

  lemma ReachReadySecond(states: seq<State>, steps: seq<Step>) returns (more: seq<State>, all: seq<Step>)
    requires IsRun(states, steps) && states[|steps|] == HandOver()[8]
    ensures IsRun(more, all) && more[0] == states[0] && more[|all|] == ReadySecondPath()[0]
  {
    hide IsRun;
    var begin := BeginBlockStep(1_512_000_000, 4096, true);
    assert KNOWN1[4096 := 4096] == KNOWN2;
    assert Apply(HandOver()[8], begin) == ReadySecondPath()[0];
    RunExtends(states, steps, begin);
    RunLength(states, steps);
    more, all := states + [Apply(HandOver()[8], begin)], steps + [begin];
  }

  // ---- the frame counter --------------------------------------------------------------------------

  /** The exact condition on the frame counter. For every stream and every timeline in step with it, delivering the
      block that begins leaves the timeline in step with the stream if and only if the counter does not overflow (or
      the timeline had no position to lose). */
  lemma InStepExactlyWithoutOverflow(t: T.Timeline, stream: Stream, timestamp: nat, frames: nat, mark: bool)
    requires t.sampleRate > 0 && G.InStep(t, stream.nextFrame)
    requires 0 <= stream.nextFrame <= T.INT64_MAX && 0 < frames <= MAX_FRAMES
    ensures var v := BeginBlock(stream, timestamp, frames, t.sampleRate).0;
      var p := G.Packet(stream.nextFrame, frames, timestamp, v.discontinuity || mark, true);
      G.InStep(G.DeliverOne(t, p), v.nextFrame) <==> stream.nextFrame + frames <= T.INT64_MAX || !t.anchored
  {
  }

  /** After an overflow the next block, though nothing was lost, is refused unless it is marked. */
  lemma OverflowRefusesTheNextBlock(t: T.Timeline, stream: Stream, timestamp: nat, frames: nat, next: Packet)
    requires t.sampleRate > 0 && t.anchored && t.nextFrame == stream.nextFrame
    requires 0 <= stream.nextFrame <= T.INT64_MAX && 0 < frames <= MAX_FRAMES && stream.nextFrame + frames > T.INT64_MAX
    requires G.Sound(next) && next.finite && !next.mark && next.first == 0
    ensures var v := BeginBlock(stream, timestamp, frames, t.sampleRate).0;
      var p := G.Packet(stream.nextFrame, frames, timestamp, true, true);
      v.discontinuity && v.nextFrame == next.first &&
      !G.Deliver(t, [p, next]).anchored && G.Deliver(t, [p, next]).requiresDiscontinuity
  {
    var p := G.Packet(stream.nextFrame, frames, timestamp, true, true);
    assert [p, next][1..] == [next] && [next][1..] == [];
    assert G.Deliver(t, [p, next]) == G.Deliver(G.DeliverOne(G.DeliverOne(t, p), next), []);
  }

  /** A concrete case: when the counter would overflow, begin_stream_block restarts it at zero after a marked block that
      the timeline must refuse, and the following unmarked block, though nothing was lost, is refused too. */
  lemma OverflowLosesTheTimeline()
    ensures var near := T.INT64_MAX - 10;
      var t := T.Timeline(48000, true, false, near, 1);
      var (stream, _) := BeginBlock(Stream(true, false, 0, near), 0, 20, 48000);
      var first, second := G.Packet(near, 20, 0, true, true), G.Packet(0, 20, 0, false, true);
      stream.discontinuity && stream.nextFrame == second.first && first.mark && !second.mark &&
      T.Accept(t, G.ChunkOf(t, first)).1.status == T.InvalidChunk &&
      !G.Deliver(t, [first, second]).anchored && G.Deliver(t, [first, second]).requiresDiscontinuity
  {
    var near := T.INT64_MAX - 10;
    var t := T.Timeline(48000, true, false, near, 1);
    var first, second := G.Packet(near, 20, 0, true, true), G.Packet(0, 20, 0, false, true);
    assert [first, second][1..] == [second] && [second][1..] == [];
    assert G.Deliver(t, [first, second]) == G.Deliver(G.DeliverOne(G.DeliverOne(t, first), second), []);
  }
}

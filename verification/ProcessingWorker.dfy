/** The shutdown and drain protocol of the processing worker (src/core/audio_processing_worker.cpp), as a step
    relation: one producer calling submit, the worker thread in run, and lifecycle calls serialized by their
    mutex. Each atomic load or store is one step; the queue is the ring of module SpscRing, step by step. */
module ProcessingWorker {
  import R = SpscRing

  // submit(): which load or store comes next.
  datatype Submitter<T> =
    | Idle
    | CheckRunning(frame: T)
    | CheckAccepting(frame: T)
    | Announce(frame: T)
    | RecheckRunning(frame: T)
    | RecheckAccepting(frame: T)
    | RecheckStop(frame: T)
    | Pushing(frame: T)
    | Retract(frame: T, ok: bool)

  // run(): which load, store or call comes next. NoThread: none was started, or it has been joined.
  datatype Thread<T> =
    | NoThread
    | Popping
    | Got(frame: T)
    | CaughtCloseAccepting
    | CaughtRequestStop
    | LoadStop
    | LoadInFlight
    | LoadSizeHead
    | LoadSizeTail(head: nat)
    | ExitCloseAccepting
    | ExitClearRunning
    | Finished

  // start() and stop(), one at a time under the lifecycle mutex.
  datatype Lifecycle =
    | Free
    | StartLoadRunning | StartJoin | StartCas | StartCloseAccepting | StartClearStop | StartSetRunning
    | StartSpawn | StartOpenAccepting
    | FailRequestStop | FailCloseAccepting | FailClearRunning
    | StopCloseAccepting | StopRequest | StopAwaitSubmissions | StopJoin | StopClearRunning

  /** The history of a run: frames pushed (accepted), popped (consumed), given to the processor (handed) and
      reported to the caller (returned true). */
  datatype Log<T> = Log(accepted: seq<T>, consumed: seq<T>, handed: seq<T>, returned: seq<T>)

  /** Shared atomics, program counters and history. */
  datatype State<T> = State(
    ring: R.Ring<T>, running: bool, accepting: bool, stopRequested: bool, inFlight: nat,
    submitter: Submitter<T>, thread: Thread<T>, life: Lifecycle, hasProcessor: bool, log: Log<T>)

  // The scheduler picks which party moves; `throws` and `spawnFails` are the environment's choices.
  datatype Step<T> =
    | CallSubmit(frame: T)
    | SubmitMoves
    | ThreadMoves(throws: bool)
    | CallStart
    | CallStop
    | LifecycleMoves(spawnFails: bool)

  ghost predicate WellFormed<T>(w: State<T>)
  {
    R.Inv(w.ring) &&
    (!w.submitter.Pushing? ==> w.ring.producer.Resting?) &&
    (w.ring.producer.SlotWritten? ==> w.submitter.Pushing? && w.ring.producer.item == w.submitter.frame) &&
    (!w.thread.Popping? ==> w.ring.consumer.Waiting?) &&
    (Counted(w.submitter) ==> w.inFlight > 0)
  }

  /** Submissions between fetch_add and fetch_sub. */
  predicate Counted<T>(p: Submitter<T>)
  {
    p.RecheckRunning? || p.RecheckAccepting? || p.RecheckStop? || p.Pushing? || p.Retract?
  }

  predicate Joinable<T>(t: Thread<T>)
  {
    t.NoThread? || t.Finished?
  }

  ghost predicate Enabled<T>(w: State<T>, step: Step<T>)
  {
    match step
    case CallSubmit(_) => w.submitter.Idle?
    case SubmitMoves => !w.submitter.Idle?
    case ThreadMoves(_) => !Joinable(w.thread)
    case CallStart => w.life.Free?
    case CallStop => w.life.Free?
    case LifecycleMoves(_) =>
      !w.life.Free? && (w.life.StartJoin? || w.life.StopJoin? ==> Joinable(w.thread))
  }

  function PushMoves<T>(w: State<T>): State<T>
    requires WellFormed(w) && w.submitter.Pushing?
  {
    var f := w.submitter.frame;
    match w.ring.producer
    case Resting => w.(ring := R.LoadHead(w.ring))
    case LoadedHead(_) => w.(ring := R.LoadTail(w.ring))
    case FullSeen => w.(ring := R.CountDrop(w.ring), submitter := Retract(f, false))
    case SpaceSeen(_) => w.(ring := R.WriteSlot(w.ring, f))
    case SlotWritten(_, _) =>
      w.(ring := R.PublishHead(w.ring), submitter := Retract(f, true), log := w.log.(accepted := w.log.accepted + [f]))
  }

  function SubmitStep<T>(w: State<T>): State<T>
    requires WellFormed(w) && !w.submitter.Idle?
  {
    match w.submitter
    case CheckRunning(f) => w.(submitter := if w.running then CheckAccepting(f) else Idle)
    case CheckAccepting(f) => w.(submitter := if w.accepting then Announce(f) else Idle)
    case Announce(f) => w.(inFlight := w.inFlight + 1, submitter := RecheckRunning(f))
    case RecheckRunning(f) =>
      w.(submitter := if w.running then RecheckAccepting(f) else Retract(f, false))
    case RecheckAccepting(f) =>
      w.(submitter := if w.accepting then RecheckStop(f) else Retract(f, false))
    case RecheckStop(f) =>
      w.(submitter := if w.stopRequested then Retract(f, false) else Pushing(f))
    case Pushing(_) => PushMoves(w)
    case Retract(f, ok) =>
      var log := if ok then w.log.(returned := w.log.returned + [f]) else w.log;
      w.(inFlight := w.inFlight - 1, submitter := Idle, log := log)
  }

  function PopMoves<T>(w: State<T>): State<T>
    requires WellFormed(w) && w.thread.Popping?
  {
    match w.ring.consumer
    case Waiting => w.(ring := R.ConsumerLoadTail(w.ring))
    case LoadedTail(_) => w.(ring := R.ConsumerLoadHead(w.ring))
    case HeadSeen(t, h) =>
      if t == h then w.(ring := R.Leave(w.ring), thread := LoadStop) else w.(ring := R.ReadSlot(w.ring))
    case Holding(_, _, f) =>
      w.(ring := R.Leave(R.AdvanceTail(w.ring)), thread := Got(f),
         log := w.log.(consumed := w.log.consumed + [f]))
  }

  function ThreadStep<T>(w: State<T>, throws: bool): State<T>
    requires WellFormed(w) && !Joinable(w.thread)
  {
    match w.thread
    case Popping => PopMoves(w)
    case Got(f) =>
      if !w.hasProcessor then w.(thread := LoadStop)
      else w.(log := w.log.(handed := w.log.handed + [f]),
              thread := if throws then CaughtCloseAccepting else LoadStop)
    case CaughtCloseAccepting => w.(accepting := false, thread := CaughtRequestStop)
    case CaughtRequestStop => w.(stopRequested := true, thread := LoadStop)
    case LoadStop => w.(thread := if w.stopRequested then LoadInFlight else Popping)
    case LoadInFlight => w.(thread := if w.inFlight == 0 then LoadSizeHead else Popping)
    case LoadSizeHead => w.(thread := LoadSizeTail(w.ring.head))
    case LoadSizeTail(h) =>
      w.(thread := if R.Distance(|w.ring.slots|, w.ring.tail, h) == 0 then ExitCloseAccepting else Popping)
    case ExitCloseAccepting => w.(accepting := false, thread := ExitClearRunning)
    case ExitClearRunning => w.(running := false, thread := Finished)
  }

  function LifecycleStep<T>(w: State<T>, spawnFails: bool): (v: State<T>)
    requires WellFormed(w) && !w.life.Free?
    ensures v.ring == w.ring && v.log == w.log && v.hasProcessor == w.hasProcessor && v.submitter == w.submitter
  {
    match w.life
    case StartLoadRunning => w.(life := if w.running then Free else StartJoin)
    case StartJoin => w.(thread := NoThread, life := StartCas)
    case StartCas => if w.running then w.(life := Free) else w.(running := true, life := StartCloseAccepting)
    case StartCloseAccepting => w.(accepting := false, life := StartClearStop)
    case StartClearStop => w.(stopRequested := false, life := StartSetRunning)
    case StartSetRunning => w.(running := true, life := StartSpawn)
    case StartSpawn =>
      if spawnFails then w.(life := FailRequestStop) else w.(thread := Popping, life := StartOpenAccepting)
    case StartOpenAccepting => w.(accepting := true, life := Free)
    case FailRequestStop => w.(stopRequested := true, life := FailCloseAccepting)
    case FailCloseAccepting => w.(accepting := false, life := FailClearRunning)
    case FailClearRunning => w.(running := false, life := Free)
    case StopCloseAccepting => w.(accepting := false, life := StopRequest)
    case StopRequest => w.(stopRequested := true, life := StopAwaitSubmissions)
    case StopAwaitSubmissions => if w.inFlight == 0 then w.(life := StopJoin) else w
    case StopJoin => w.(thread := NoThread, life := StopClearRunning)
    case StopClearRunning => w.(running := false, life := Free)
  }

  function Apply<T>(w: State<T>, step: Step<T>): State<T>
    requires WellFormed(w) && Enabled(w, step)
  {
    match step
    case CallSubmit(f) => w.(submitter := CheckRunning(f))
    case SubmitMoves => SubmitStep(w)
    case ThreadMoves(throws) => ThreadStep(w, throws)
    case CallStart => w.(life := StartLoadRunning)
    case CallStop => w.(life := StopCloseAccepting)
    case LifecycleMoves(spawnFails) => LifecycleStep(w, spawnFails)
  }

  function Init<T>(slots: seq<T>, hasProcessor: bool): State<T>
    requires |slots| > 0
  {
    State(R.Init(slots), false, false, false, 0, Idle, NoThread, Free, hasProcessor, Log([], [], [], []))
  }

  // ---- the inductive invariant ----------------------------------------------------------------

  /** The thread has seen stop requested and no submission in flight since, or is not there at all. */
  predicate Closing<T>(t: Thread<T>)
  {
    t.LoadSizeHead? || t.LoadSizeTail? || t.ExitCloseAccepting? || t.ExitClearRunning? || Joinable(t)
  }

  /** Nothing can pass the gate any more once the thread is closing. */
  ghost predicate GateInv<T>(w: State<T>)
  {
    (w.inFlight == if Counted(w.submitter) then 1 else 0) &&
    (w.stopRequested ==> !w.accepting) &&
    (Closing(w.thread) ==> !w.accepting && !w.submitter.RecheckStop? && !w.submitter.Pushing?) &&
    (w.thread.LoadInFlight? || (Closing(w.thread) && !w.thread.NoThread?) ==> w.stopRequested) &&
    (w.thread.CaughtRequestStop? ==> !w.accepting)
  }

  /** Between the join and the end of the call, or the spawn of the next thread. */
  predicate AfterJoin(l: Lifecycle)
  {
    l.StartCas? || l.StartCloseAccepting? || l.StartClearStop? || l.StartSetRunning? || l.StartSpawn? ||
    l.FailRequestStop? || l.FailCloseAccepting? || l.FailClearRunning? || l.StopClearRunning?
  }

  ghost predicate LifecycleInv<T>(w: State<T>)
  {
    (!Joinable(w.thread) ==> w.running) &&
    (w.life.StartJoin? ==> Joinable(w.thread)) &&
    (AfterJoin(w.life) ==> w.thread.NoThread?) &&
    (w.life.StartSetRunning? || w.life.StartSpawn? || w.life.StartOpenAccepting? ==> !w.stopRequested) &&
    (w.life.StartSpawn? ==> w.running) &&
    (w.life.StartOpenAccepting? ==>
       !w.accepting && !w.submitter.RecheckStop? && !w.submitter.Pushing? &&
         (w.thread.Popping? || w.thread.LoadStop?)) &&
    (w.life.StopRequest? || w.life.StopAwaitSubmissions? || w.life.StopJoin? ==> !w.accepting)
  }

  predicate Drained<T>(t: Thread<T>)
  {
    t.ExitCloseAccepting? || t.ExitClearRunning? || Joinable(t)
  }

  /** Where the queue is known to be empty. */
  ghost predicate DrainInv<T>(w: State<T>)
    requires R.Inv(w.ring)
  {
    (w.thread.LoadSizeTail? ==> w.thread.head == w.ring.head) &&
    (Drained(w.thread) || w.life.StartOpenAccepting? ==> R.Abs(w.ring) == [])
  }

  function InHand<T>(w: State<T>): seq<T>
  {
    if w.thread.Got? then [w.thread.frame] else []
  }

  function Unreported<T>(w: State<T>): seq<T>
  {
    if w.submitter.Retract? && w.submitter.ok then [w.submitter.frame] else []
  }

  /** No frame is lost, duplicated or reordered. */
  ghost predicate HistoryInv<T>(w: State<T>)
    requires R.Inv(w.ring)
  {
    w.log.accepted == w.log.consumed + R.Abs(w.ring) &&
    (w.hasProcessor ==> w.log.consumed == w.log.handed + InHand(w)) &&
    (!w.hasProcessor ==> w.log.handed == []) &&
    w.log.accepted == w.log.returned + Unreported(w)
  }

  ghost predicate Inv<T>(w: State<T>)
  {
    WellFormed(w) && GateInv(w) && LifecycleInv(w) && DrainInv(w) && HistoryInv(w)
  }

  /** Gate and lifecycle facts are about flags and program counters only. */
  lemma SubmitKeepsGate<T>(w: State<T>)
    requires WellFormed(w) && GateInv(w) && LifecycleInv(w) && !w.submitter.Idle?
    ensures GateInv(SubmitStep(w)) && LifecycleInv(SubmitStep(w))
  {
    hide R.Inv, R.Abs, R.Window;
    match w.submitter
    case Pushing(_) => match w.ring.producer { case _ => }
    case _ =>
  }

  lemma ThreadKeepsGate<T>(w: State<T>, throws: bool)
    requires WellFormed(w) && GateInv(w) && LifecycleInv(w) && !Joinable(w.thread)
    requires w.life.StartOpenAccepting? ==> R.Abs(w.ring) == []
    ensures GateInv(ThreadStep(w, throws))
  {
    hide R.Inv, R.Abs, R.Window;
    match w.thread
    case Popping => match w.ring.consumer { case _ => }
    case _ =>
  }

  lemma ThreadKeepsLifecycle<T>(w: State<T>, throws: bool)
    requires WellFormed(w) && GateInv(w) && LifecycleInv(w) && !Joinable(w.thread)
    requires w.life.StartOpenAccepting? ==> R.Abs(w.ring) == []
    ensures LifecycleInv(ThreadStep(w, throws))
  {
    hide R.Inv, R.Abs, R.Window, GateInv;
    match w.thread
    case Popping => match w.ring.consumer { case _ => }
    case _ =>
  }

  lemma LifecycleKeepsGate<T>(w: State<T>, spawnFails: bool)
    requires WellFormed(w) && GateInv(w) && LifecycleInv(w)
    requires !w.life.Free? && (w.life.StartJoin? || w.life.StopJoin? ==> Joinable(w.thread))
    ensures GateInv(LifecycleStep(w, spawnFails))
  {
    hide R.Inv, R.Abs, R.Window;
    match w.life case _ =>
  }

  predicate Stopping(l: Lifecycle)
  {
    l.StopRequest? || l.StopCloseAccepting? || l.StopAwaitSubmissions? || l.StopJoin? || l.StopClearRunning?
  }

  lemma LifecycleKeepsLifecycle<T>(w: State<T>, spawnFails: bool)
    requires WellFormed(w) && GateInv(w) && LifecycleInv(w)
    requires !w.life.Free? && (w.life.StartJoin? || w.life.StopJoin? ==> Joinable(w.thread))
    ensures LifecycleInv(LifecycleStep(w, spawnFails))
  {
    hide LifecycleInv, GateInv, WellFormed, LifecycleStep;
    if Stopping(w.life) {
      StoppingKeepsLifecycle(w, spawnFails);
    } else {
      StartingKeepsLifecycle(w, spawnFails);
    }
  }

  lemma StoppingKeepsLifecycle<T>(w: State<T>, spawnFails: bool)
    requires WellFormed(w) && GateInv(w) && LifecycleInv(w)
    requires Stopping(w.life) && (w.life.StopJoin? ==> Joinable(w.thread))
    ensures LifecycleInv(LifecycleStep(w, spawnFails))
  {
    hide R.Inv, R.Abs, R.Window, WellFormed, Counted;
    match w.life case _ =>
  }

  lemma StartingKeepsLifecycle<T>(w: State<T>, spawnFails: bool)
    requires WellFormed(w) && GateInv(w) && LifecycleInv(w)
    requires !w.life.Free? && !Stopping(w.life) && (w.life.StartJoin? ==> Joinable(w.thread))
    ensures LifecycleInv(LifecycleStep(w, spawnFails))
  {
    hide R.Inv, R.Abs, R.Window, WellFormed, Counted;
    match w.life case _ =>
  }

  lemma SubmitKeepsWellFormed<T>(w: State<T>)
    requires WellFormed(w) && GateInv(w) && !w.submitter.Idle?
    ensures WellFormed(SubmitStep(w))
  {
    hide R.Inv, R.Abs, R.Window;
    match w.submitter
    case Pushing(_) => match w.ring.producer { case _ => }
    case _ =>
  }

  lemma SubmitKeepsQueue<T>(w: State<T>)
    requires Inv(w) && !w.submitter.Idle? && WellFormed(SubmitStep(w))
    ensures DrainInv(SubmitStep(w)) && HistoryInv(SubmitStep(w))
  {
    hide R.Inv, R.Abs, R.Window;
    match w.submitter
    case Pushing(f) =>
      match w.ring.producer {
        case SlotWritten(_, _) =>
          assert w.log.consumed + (R.Abs(w.ring) + [f]) == (w.log.consumed + R.Abs(w.ring)) + [f];
        case _ =>
      }
    case _ =>
  }

  lemma ThreadKeepsWellFormed<T>(w: State<T>, throws: bool)
    requires WellFormed(w) && !Joinable(w.thread)
    ensures WellFormed(ThreadStep(w, throws))
  {
    hide R.Inv, R.Abs, R.Window;
    match w.thread
    case Popping => match w.ring.consumer { case _ => }
    case _ =>
  }

  lemma PoppingKeepsDrain<T>(w: State<T>)
    requires Inv(w) && w.thread.Popping? && WellFormed(PopMoves(w))
    ensures DrainInv(PopMoves(w))
  {
    hide R.Inv, R.Abs, R.Window, HistoryInv, GateInv, LifecycleInv, WellFormed;
    match w.ring.consumer case _ =>
  }

  lemma ThreadKeepsDrain<T>(w: State<T>, throws: bool)
    requires Inv(w) && !Joinable(w.thread) && WellFormed(ThreadStep(w, throws))
    ensures DrainInv(ThreadStep(w, throws))
  {
    hide R.Inv, R.Abs, R.Window, HistoryInv, LifecycleInv, PopMoves;
    match w.thread
    case Popping => PoppingKeepsDrain(w);
    case LoadSizeTail(h) => EmptyWhenIndicesMeet(w.ring);
    case _ =>
  }

  lemma EmptyWhenIndicesMeet<T>(r: R.Ring<T>)
    requires R.Inv(r)
    ensures R.Distance(|r.slots|, r.tail, r.head) == |R.Abs(r)|
  {
  }

  lemma PoppingKeepsHistory<T>(w: State<T>)
    requires Inv(w) && w.thread.Popping? && WellFormed(PopMoves(w))
    ensures HistoryInv(PopMoves(w))
  {
    hide R.Inv, R.Abs, R.Window, DrainInv, GateInv, LifecycleInv;
    var v := PopMoves(w);
    match w.ring.consumer
    case Holding(_, _, f) =>
      assert w.log.consumed + ([f] + R.Abs(v.ring)) == (w.log.consumed + [f]) + R.Abs(v.ring);
    case _ =>
  }

  lemma ThreadKeepsHistory<T>(w: State<T>, throws: bool)
    requires Inv(w) && !Joinable(w.thread) && WellFormed(ThreadStep(w, throws))
    ensures HistoryInv(ThreadStep(w, throws))
  {
    hide R.Inv, R.Abs, R.Window, DrainInv, GateInv, LifecycleInv, PopMoves;
    match w.thread
    case Popping => PoppingKeepsHistory(w);
    case _ =>
  }

  lemma LifecycleKeepsQueue<T>(w: State<T>, spawnFails: bool)
    requires Inv(w) && !w.life.Free? && (w.life.StartJoin? || w.life.StopJoin? ==> Joinable(w.thread))
    ensures var v := LifecycleStep(w, spawnFails); WellFormed(v) && DrainInv(v)
  {
    hide R.Inv, R.Abs, R.Window, GateInv, HistoryInv;
    match w.life case _ =>
  }

  lemma LifecycleKeepsHistory<T>(w: State<T>, spawnFails: bool)
    requires Inv(w) && !w.life.Free? && (w.life.StartJoin? || w.life.StopJoin? ==> Joinable(w.thread))
    ensures HistoryInv(LifecycleStep(w, spawnFails))
  {
    hide R.Inv, R.Abs, R.Window, GateInv, DrainInv;
  }

  lemma InitInv<T>(slots: seq<T>, p: bool)
    requires |slots| > 0
    ensures Inv(Init(slots, p))
  {
  }

  lemma CallsKeepInv<T>(w: State<T>, step: Step<T>)
    requires Inv(w) && Enabled(w, step) && (step.CallSubmit? || step.CallStart? || step.CallStop?)
    ensures Inv(Apply(w, step))
  {
    hide R.Inv, R.Abs, R.Window;
  }

  lemma StepKeepsShape<T>(w: State<T>, step: Step<T>)
    requires WellFormed(w) && Enabled(w, step)
    ensures Apply(w, step).hasProcessor == w.hasProcessor && |Apply(w, step).ring.slots| == |w.ring.slots|
  {
    hide R.Inv, R.Abs, R.Window, R.Distance, PopMoves, PushMoves;
    match step
    case SubmitMoves => if w.submitter.Pushing? { PushKeepsShape(w); }
    case ThreadMoves(_) => if w.thread.Popping? { PopKeepsShape(w); }
    case _ =>
  }

  lemma PushKeepsShape<T>(w: State<T>)
    requires WellFormed(w) && w.submitter.Pushing?
    ensures PushMoves(w).hasProcessor == w.hasProcessor && |PushMoves(w).ring.slots| == |w.ring.slots|
  {
    hide R.Inv, R.Abs, R.Window, R.Distance;
  }

  lemma PopKeepsShape<T>(w: State<T>)
    requires WellFormed(w) && w.thread.Popping?
    ensures PopMoves(w).hasProcessor == w.hasProcessor && |PopMoves(w).ring.slots| == |w.ring.slots|
  {
    hide R.Inv, R.Abs, R.Window, R.Distance;
  }

  lemma StepKeepsInv<T>(w: State<T>, step: Step<T>)
    requires Inv(w) && Enabled(w, step)
    ensures Inv(Apply(w, step))
  {
    hide GateInv, LifecycleInv, HistoryInv, WellFormed, SubmitStep, ThreadStep, LifecycleStep, R.Inv, R.Abs;
    match step
    case SubmitMoves =>
      SubmitKeepsGate(w);
      SubmitKeepsWellFormed(w);
      SubmitKeepsQueue(w);
    case ThreadMoves(throws) =>
      ThreadKeepsGate(w, throws);
      ThreadKeepsLifecycle(w, throws);
      ThreadKeepsWellFormed(w, throws);
      ThreadKeepsDrain(w, throws);
      ThreadKeepsHistory(w, throws);
    case LifecycleMoves(spawnFails) =>
      LifecycleKeepsGate(w, spawnFails);
      LifecycleKeepsLifecycle(w, spawnFails);
      LifecycleKeepsQueue(w, spawnFails);
      LifecycleKeepsHistory(w, spawnFails);
    case _ => CallsKeepInv(w, step);
  }

  // ---- runs -----------------------------------------------------------------------------------

  ghost predicate IsRun<T>(states: seq<State<T>>, steps: seq<Step<T>>)
  {
    |states| == |steps| + 1 &&
    forall i :: 0 <= i < |steps| ==>
      WellFormed(states[i]) && Enabled(states[i], steps[i]) && states[i + 1] == Apply(states[i], steps[i])
  }

  lemma {:induction false} EveryRunKeepsInv<T>(
    states: seq<State<T>>, steps: seq<Step<T>>, slots: seq<T>, p: bool, k: nat)
    requires |slots| > 0 && IsRun(states, steps) && states[0] == Init(slots, p) && k <= |steps|
    ensures Inv(states[k]) && states[k].hasProcessor == p && |states[k].ring.slots| == |slots|
  {
    hide Apply, Enabled, Inv, WellFormed;
    if k > 0 {
      EveryRunKeepsInv(states, steps, slots, p, k - 1);
      StepKeepsInv(states[k - 1], steps[k - 1]);
      StepKeepsShape(states[k - 1], steps[k - 1]);
    } else {
      InitInv(slots, p);
    }
  }

  /** stop() returns, or run() leaves its loop, only when every accepted frame has been handed to the processor,
      once and in acceptance order, with nothing queued, in hand or about to be pushed. */
  lemma DrainedWhenStopReturnsOrRunExits<T>(states: seq<State<T>>, steps: seq<Step<T>>, slots: seq<T>, k: nat)
    requires |slots| > 0 && IsRun(states, steps) && states[0] == Init(slots, true) && k < |steps|
    requires var w := states[k];
      (w.life.StopClearRunning? && steps[k].LifecycleMoves?) || w.thread.ExitCloseAccepting? || w.thread.Finished?
    ensures R.Abs(states[k + 1].ring) == [] && states[k + 1].ring.producer.Resting?
    ensures states[k].log.handed == states[k + 1].log.handed == states[k + 1].log.accepted == states[k + 1].log.consumed
    ensures !states[k + 1].submitter.Pushing? && !states[k + 1].submitter.RecheckStop?
  {
    EveryRunKeepsInv(states, steps, slots, true, k);
    EveryRunKeepsInv(states, steps, slots, true, k + 1);
  }

  /** At every moment of every run: what the processor got is a prefix of what was accepted, the callers told
      "true" are a prefix of it too, and at most one accepted frame is not yet reported. */
  lemma HandedIsPrefixOfAccepted<T>(states: seq<State<T>>, steps: seq<Step<T>>, slots: seq<T>, k: nat)
    requires |slots| > 0 && IsRun(states, steps) && states[0] == Init(slots, true) && k <= |steps|
    ensures states[k].log.handed <= states[k].log.accepted && states[k].log.returned <= states[k].log.accepted
    ensures |states[k].log.accepted| <= |states[k].log.returned| + 1
    ensures |states[k].log.accepted| <= |states[k].log.handed| + |slots|
  {
    EveryRunKeepsInv(states, steps, slots, true, k);
    var w := states[k];
    assert w.log.accepted == w.log.handed + (InHand(w) + R.Abs(w.ring));
    assert |R.Abs(w.ring)| <= |w.ring.slots| - 1;
  }

  /** Frames that are pairwise different when accepted are pairwise different when handed over: no frame is
      processed twice. */
  lemma HandedAtMostOnce<T>(states: seq<State<T>>, steps: seq<Step<T>>, slots: seq<T>, k: nat, i: nat, j: nat)
    requires |slots| > 0 && IsRun(states, steps) && states[0] == Init(slots, true) && k <= |steps|
    requires var accepted := states[k].log.accepted;
      forall a, b :: 0 <= a < b < |accepted| ==> accepted[a] != accepted[b]
    requires i < j < |states[k].log.handed|
    ensures states[k].log.handed[i] != states[k].log.handed[j]
  {
    HandedIsPrefixOfAccepted(states, steps, slots, k);
  }

  /** start() never waits for a live thread: when it reaches its join, there is none or it has finished. */
  lemma StartNeverBlocksOnJoin<T>(states: seq<State<T>>, steps: seq<Step<T>>, slots: seq<T>, p: bool, k: nat)
    requires |slots| > 0 && IsRun(states, steps) && states[0] == Init(slots, p) && k <= |steps|
    requires states[k].life.StartJoin?
    ensures Joinable(states[k].thread) && Enabled(states[k], LifecycleMoves(false))
  {
    EveryRunKeepsInv(states, steps, slots, p, k);
  }
}

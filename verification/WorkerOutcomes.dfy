/** What calls on the processing worker come to (src/core/audio_processing_worker.cpp:16-126): when a submission is
    accepted, what start, stop and a throwing processor leave behind. Over runs of module ProcessingWorker. */
module WorkerOutcomes {
  import R = SpscRing
  import opened ProcessingWorker

  // ---- submit ---------------------------------------------------------------------------------------------

  /** The gate is open and the queue has room. */
  ghost predicate Open<T>(w: State<T>)
  {
    w.running && w.accepting && !w.stopRequested && (R.Inv(w.ring) ==> |R.Abs(w.ring)| < |w.ring.slots| - 1)
  }

  /** A submission of f on its way through an open gate. */
  ghost predicate Entering<T>(w: State<T>, f: T, before: Log<T>)
  {
    !w.submitter.Idle? && w.submitter.frame == f && !w.ring.producer.FullSeen? &&
    w.log.returned == before.returned &&
    if w.submitter.Retract? then w.submitter.ok && w.log.accepted == before.accepted + [f]
    else w.log.accepted == before.accepted
  }

  lemma EnteringStep<T>(w: State<T>, step: Step<T>, f: T, before: Log<T>)
    requires Inv(w) && Enabled(w, step) && Open(w) && Entering(w, f, before)
    ensures var v := Apply(w, step);
      Entering(v, f, before) ||
      (v.submitter.Idle? && v.log.accepted == before.accepted + [f] && v.log.returned == before.returned + [f])
  {
    hide R.Inv, R.Abs, R.Window, GateInv, LifecycleInv, DrainInv, HistoryInv;
    match step
    case SubmitMoves =>
      if w.submitter.Pushing? {
        PushEnters(w, f, before);
      }
    case ThreadMoves(throws) => ThreadLeavesSubmission(w, throws);
    case LifecycleMoves(_) =>
    case _ =>
  }

  lemma PushEnters<T>(w: State<T>, f: T, before: Log<T>)
    requires WellFormed(w) && w.submitter.Pushing? && Open(w) && Entering(w, f, before)
    ensures Entering(PushMoves(w), f, before)
  {
    hide R.Inv, R.Abs, R.Window;
    match w.ring.producer case _ =>
  }

  lemma ThreadLeavesSubmission<T>(w: State<T>, throws: bool)
    requires WellFormed(w) && !Joinable(w.thread)
    ensures var v := ThreadStep(w, throws);
      v.submitter == w.submitter && v.ring.producer == w.ring.producer && v.log.accepted == w.log.accepted &&
      v.log.returned == w.log.returned
  {
    hide R.Inv, R.Abs, R.Window, R.Distance, PopMoves;
    if w.thread.Popping? {
      PopLeavesSubmission(w);
    }
  }

  lemma PopLeavesSubmission<T>(w: State<T>)
    requires WellFormed(w) && w.thread.Popping?
    ensures var v := PopMoves(w);
      v.submitter == w.submitter && v.ring.producer == w.ring.producer && v.log.accepted == w.log.accepted &&
      v.log.returned == w.log.returned
  {
    hide R.Inv, R.Abs, R.Window, R.Distance;
    match w.ring.consumer case _ =>
  }

  /** Steps i + 1 up to k belong to the call of submit that step i begins. */
  ghost predicate InSubmit<T>(states: seq<State<T>>, steps: seq<Step<T>>, i: nat, k: nat)
    requires |states| == |steps| + 1 && i < k <= |steps|
  {
    steps[i].CallSubmit? && forall m :: i < m <= k ==> !states[m].submitter.Idle?
  }

  lemma {:induction false} EnteringRun<T>(
    states: seq<State<T>>, steps: seq<Step<T>>, slots: seq<T>, p: bool, i: nat, k: nat)
    requires |slots| > 0 && IsRun(states, steps) && states[0] == Init(slots, p) && i < k <= |steps|
    requires InSubmit(states, steps, i, k) && forall m :: i < m < k ==> Open(states[m])
    ensures Entering(states[k], steps[i].frame, states[i].log)
    decreases k
  {
    hide Inv, Apply, Enabled, WellFormed, Open, Entering;
    EveryRunKeepsInv(states, steps, slots, p, k - 1);
    assert states[k] == Apply(states[k - 1], steps[k - 1]) && Enabled(states[k - 1], steps[k - 1]);
    if k == i + 1 {
      SubmitBegins(states[i], steps[i]);
    } else {
      EnteringRun(states, steps, slots, p, i, k - 1);
      assert !states[k].submitter.Idle?;
      EnteringStep(states[k - 1], steps[k - 1], steps[i].frame, states[i].log);
    }
  }

  lemma SubmitBegins<T>(w: State<T>, step: Step<T>)
    requires Inv(w) && Enabled(w, step) && step.CallSubmit?
    ensures Entering(Apply(w, step), step.frame, w.log)
    ensures Apply(w, step).submitter == CheckRunning(step.frame) && Apply(w, step).log == w.log
  {
    hide R.Inv, R.Abs, R.Window, GateInv, LifecycleInv, DrainInv, HistoryInv;
  }

  /** A submission made while the gate stays open and the queue keeps room is accepted, and submit returns true. */
  lemma OpenGateAccepts<T>(states: seq<State<T>>, steps: seq<Step<T>>, slots: seq<T>, p: bool, i: nat, k: nat)
    requires |slots| > 0 && IsRun(states, steps) && states[0] == Init(slots, p) && i < k < |steps|
    requires InSubmit(states, steps, i, k) && states[k + 1].submitter.Idle?
    requires forall m :: i < m <= k ==> Open(states[m])
    ensures states[k + 1].log.accepted == states[i].log.accepted + [steps[i].frame]
    ensures states[k + 1].log.returned == states[i].log.returned + [steps[i].frame]
  {
    hide Inv, Apply, Enabled, WellFormed, Open;
    EnteringRun(states, steps, slots, p, i, k);
    EveryRunKeepsInv(states, steps, slots, p, k);
    assert states[k + 1] == Apply(states[k], steps[k]) && Enabled(states[k], steps[k]);
    EnteringStep(states[k], steps[k], steps[i].frame, states[i].log);
  }

  // One of the three things that shut the gate.
  datatype Shut = NotRunning | NotAccepting | Stopping

  predicate IsShut<T>(w: State<T>, why: Shut)
  {
    match why
    case NotRunning => !w.running
    case NotAccepting => !w.accepting
    case Stopping => w.stopRequested
  }

  /** A submission before a shut gate. */
  ghost predicate TurnedAway<T>(w: State<T>, why: Shut, before: Log<T>)
  {
    w.log.accepted == before.accepted && w.log.returned == before.returned && !w.submitter.Pushing? &&
    (w.submitter.Retract? ==> !w.submitter.ok) &&
    (why.NotRunning? ==> w.submitter.CheckRunning?) &&
    (why.NotAccepting? ==> w.submitter.CheckRunning? || w.submitter.CheckAccepting?)
  }

  lemma TurnedAwayStep<T>(w: State<T>, step: Step<T>, why: Shut, before: Log<T>)
    requires Inv(w) && Enabled(w, step) && IsShut(w, why) && TurnedAway(w, why, before) && !w.submitter.Idle?
    ensures var v := Apply(w, step);
      if v.submitter.Idle? then v.log.accepted == before.accepted && v.log.returned == before.returned
      else TurnedAway(v, why, before)
  {
    hide R.Inv, R.Abs, R.Window, GateInv, LifecycleInv, DrainInv, HistoryInv;
    match step
    case ThreadMoves(throws) => ThreadLeavesSubmission(w, throws);
    case _ =>
  }

  lemma {:induction false} TurnedAwayRun<T>(
    states: seq<State<T>>, steps: seq<Step<T>>, slots: seq<T>, p: bool, i: nat, k: nat, why: Shut)
    requires |slots| > 0 && IsRun(states, steps) && states[0] == Init(slots, p) && i < k <= |steps|
    requires InSubmit(states, steps, i, k) && forall m :: i < m < k ==> IsShut(states[m], why)
    ensures TurnedAway(states[k], why, states[i].log)
    decreases k
  {
    hide Inv, Apply, Enabled, WellFormed, IsShut;
    EveryRunKeepsInv(states, steps, slots, p, k - 1);
    assert states[k] == Apply(states[k - 1], steps[k - 1]) && Enabled(states[k - 1], steps[k - 1]);
    if k == i + 1 {
      SubmitBegins(states[i], steps[i]);
    } else {
      TurnedAwayRun(states, steps, slots, p, i, k - 1, why);
      assert !states[k].submitter.Idle?;
      TurnedAwayStep(states[k - 1], steps[k - 1], why, states[i].log);
    }
  }

  /** A submission made while the worker is not running, or does not accept, or has been asked to stop, throughout, is
      refused and changes nothing. */
  lemma ShutGateRefuses<T>(
    states: seq<State<T>>, steps: seq<Step<T>>, slots: seq<T>, p: bool, i: nat, k: nat, why: Shut)
    requires |slots| > 0 && IsRun(states, steps) && states[0] == Init(slots, p) && i < k < |steps|
    requires InSubmit(states, steps, i, k) && states[k + 1].submitter.Idle?
    requires forall m :: i < m <= k ==> IsShut(states[m], why)
    ensures states[k + 1].log.accepted == states[i].log.accepted
    ensures states[k + 1].log.returned == states[i].log.returned
  {
    hide Inv, Apply, Enabled, WellFormed, IsShut;
    TurnedAwayRun(states, steps, slots, p, i, k, why);
    EveryRunKeepsInv(states, steps, slots, p, k);
    assert states[k + 1] == Apply(states[k], steps[k]) && Enabled(states[k], steps[k]);
    TurnedAwayStep(states[k], steps[k], why, states[i].log);
  }

  // ---- a throwing processor -------------------------------------------------------------------------------

  /** The thread is about to shut the gate, or has shut it. */
  predicate ThrowSeen<T>(w: State<T>)
  {
    w.thread.CaughtCloseAccepting? || w.thread.CaughtRequestStop? || (w.stopRequested && !w.accepting)
  }

  lemma ThrowSeenStep<T>(w: State<T>, step: Step<T>)
    requires Inv(w) && Enabled(w, step) && ThrowSeen(w) && !w.thread.NoThread?
    ensures ThrowSeen(Apply(w, step))
  {
    hide R.Inv, R.Abs, R.Window, DrainInv, HistoryInv, WellFormed;
    match step
    case ThreadMoves(_) => if w.thread.Popping? { PoppingLeavesFlags(w); }
    case SubmitMoves => if w.submitter.Pushing? { PushingLeavesFlags(w); }
    case _ =>
  }

  lemma PoppingLeavesFlags<T>(w: State<T>)
    requires WellFormed(w) && w.thread.Popping?
    ensures var v := PopMoves(w); v.stopRequested == w.stopRequested && v.accepting == w.accepting
  {
    hide R.Inv, R.Abs, R.Window;
  }

  lemma PushingLeavesFlags<T>(w: State<T>)
    requires WellFormed(w) && w.submitter.Pushing?
    ensures var v := PushMoves(w);
      v.stopRequested == w.stopRequested && v.accepting == w.accepting && v.thread == w.thread
  {
    hide R.Inv, R.Abs, R.Window;
  }

  /** A throwing processor shuts the gate for good: from the throw on, until the thread is joined, the thread is about
      to shut it, or submissions are closed and a stop is requested. A processor that returns leaves it as it was. */
  lemma {:induction false} ThrowShutsGate<T>(
    states: seq<State<T>>, steps: seq<Step<T>>, slots: seq<T>, i: nat, k: nat, throws: bool)
    requires |slots| > 0 && IsRun(states, steps) && states[0] == Init(slots, true) && i < k <= |steps|
    requires states[i].thread.Got? && steps[i] == ThreadMoves(throws)
    requires forall m :: i < m <= k ==> !states[m].thread.NoThread?
    ensures throws ==> ThrowSeen(states[k])
    ensures !throws ==>
      states[i + 1] == states[i].(
        thread := LoadStop, log := states[i].log.(handed := states[i].log.handed + [states[i].thread.frame]))
    decreases k
  {
    hide Inv, Apply, Enabled, WellFormed;
    EveryRunKeepsInv(states, steps, slots, true, k - 1);
    assert states[k] == Apply(states[k - 1], steps[k - 1]) && Enabled(states[k - 1], steps[k - 1]);
    if k == i + 1 {
      HandedOver(states[i], throws);
    } else {
      ThrowShutsGate(states, steps, slots, i, k - 1, throws);
      if throws {
        ThrowSeenStep(states[k - 1], steps[k - 1]);
      }
    }
  }

  lemma HandedOver<T>(w: State<T>, throws: bool)
    requires Inv(w) && w.thread.Got? && w.hasProcessor && Enabled(w, ThreadMoves(throws))
    ensures var v := Apply(w, ThreadMoves(throws));
      v == w.(thread := if throws then CaughtCloseAccepting else LoadStop,
              log := w.log.(handed := w.log.handed + [w.thread.frame]))
  {
    hide R.Inv, R.Abs, R.Window, GateInv, LifecycleInv, DrainInv, HistoryInv;
  }

  // ---- start and stop -------------------------------------------------------------------------------------

  /** A start on its way, on a worker that was not running; `failed` once the thread could not be made. */
  ghost predicate Starting<T>(w: State<T>)
  {
    match w.life
    case StartLoadRunning => !w.running
    case StartJoin => !w.running
    case StartCas => !w.running
    case StartCloseAccepting => w.running
    case StartClearStop => w.running && !w.accepting
    case StartSetRunning => w.running && !w.accepting && !w.stopRequested
    case StartSpawn => w.running && !w.accepting && !w.stopRequested
    case StartOpenAccepting => w.running && !w.stopRequested && (w.thread.Popping? || w.thread.LoadStop?)
    case _ => false
  }

  predicate Fails<T>(w: State<T>, step: Step<T>)
  {
    w.life.StartSpawn? && step.LifecycleMoves? && step.spawnFails
  }

  /** The worker runs and accepts, with a thread at work. */
  predicate Started<T>(w: State<T>)
  {
    w.running && w.accepting && !w.stopRequested && (w.thread.Popping? || w.thread.LoadStop?)
  }

  lemma StartingStep<T>(w: State<T>, step: Step<T>)
    requires Inv(w) && Enabled(w, step) && Starting(w) && !Fails(w, step)
    ensures var v := Apply(w, step); if v.life.Free? then Started(v) else Starting(v)
  {
    hide R.Inv, R.Abs, R.Window, DrainInv, HistoryInv, WellFormed;
    match step
    case ThreadMoves(throws) => ThreadKeepsStarting(w, throws);
    case SubmitMoves => SubmitKeepsStarting(w);
    case _ =>
  }

  lemma SubmitKeepsStarting<T>(w: State<T>)
    requires WellFormed(w) && Starting(w) && !w.submitter.Idle?
    ensures Starting(SubmitStep(w)) && SubmitStep(w).life == w.life
  {
    hide R.Inv, R.Abs, R.Window;
    if w.submitter.Pushing? {
      match w.ring.producer case _ =>
    }
  }

  lemma ThreadKeepsStarting<T>(w: State<T>, throws: bool)
    requires Inv(w) && Starting(w) && !Joinable(w.thread)
    ensures Starting(ThreadStep(w, throws)) && ThreadStep(w, throws).life == w.life
  {
    hide R.Inv, R.Abs, R.Window, HistoryInv, GateInv;
    if w.life.StartOpenAccepting? {
      LonelyThreadLoops(w, throws);
    }
  }

  /** Before the gate opens there is nothing to pop and no reason to leave. */
  lemma LonelyThreadLoops<T>(w: State<T>, throws: bool)
    requires WellFormed(w) && R.Abs(w.ring) == [] && !w.stopRequested && (w.thread.Popping? || w.thread.LoadStop?)
    ensures var v := ThreadStep(w, throws);
      v == w.(ring := v.ring, thread := v.thread) && (v.thread.Popping? || v.thread.LoadStop?)
  {
    hide R.Abs, R.Window;
    HeldIsQueued(w.ring);
    if w.thread.Popping? {
      match w.ring.consumer case _ =>
    }
  }

  lemma HeldIsQueued<T>(r: R.Ring<T>)
    requires R.Inv(r)
    ensures r.consumer.Holding? ==> |R.Abs(r)| > 0
  {
  }

  lemma {:induction false} StartingRun<T>(
    states: seq<State<T>>, steps: seq<Step<T>>, slots: seq<T>, p: bool, i: nat, k: nat)
    requires |slots| > 0 && IsRun(states, steps) && states[0] == Init(slots, p) && i < k <= |steps|
    requires steps[i].CallStart? && !states[i].running && forall m :: i < m <= k ==> !states[m].life.Free?
    requires forall m :: i < m < k ==> !Fails(states[m], steps[m])
    ensures Starting(states[k])
    decreases k
  {
    hide Inv, Apply, Enabled, WellFormed, Starting, Fails;
    EveryRunKeepsInv(states, steps, slots, p, k - 1);
    assert states[k] == Apply(states[k - 1], steps[k - 1]) && Enabled(states[k - 1], steps[k - 1]);
    if k == i + 1 {
      StartBegins(states[i]);
    } else {
      StartingRun(states, steps, slots, p, i, k - 1);
      assert !states[k].life.Free?;
      StartingStep(states[k - 1], steps[k - 1]);
    }
  }

  lemma StartBegins<T>(w: State<T>)
    requires Inv(w) && Enabled(w, CallStart) && !w.running
    ensures Starting(Apply(w, CallStart))
  {
    hide R.Inv, R.Abs, R.Window;
  }

  /** A start on a worker that is not running leaves it running and accepting with a thread at work, unless the thread
      could not be made. */
  lemma StartOpensGate<T>(states: seq<State<T>>, steps: seq<Step<T>>, slots: seq<T>, p: bool, i: nat, k: nat)
    requires |slots| > 0 && IsRun(states, steps) && states[0] == Init(slots, p) && i < k < |steps|
    requires steps[i].CallStart? && !states[i].running && states[k + 1].life.Free?
    requires forall m :: i < m <= k ==> !states[m].life.Free? && !Fails(states[m], steps[m])
    ensures Started(states[k + 1])
  {
    hide Inv, Apply, Enabled, WellFormed, Starting, Fails, Started;
    StartingRun(states, steps, slots, p, i, k);
    EveryRunKeepsInv(states, steps, slots, p, k);
    assert states[k + 1] == Apply(states[k], steps[k]) && Enabled(states[k], steps[k]);
    StartingStep(states[k], steps[k]);
  }

  /** A worker never started is not running. */
  lemma {:induction false} NotRunningBeforeStart<T>(
    states: seq<State<T>>, steps: seq<Step<T>>, slots: seq<T>, p: bool, k: nat)
    requires |slots| > 0 && IsRun(states, steps) && states[0] == Init(slots, p) && k <= |steps|
    requires forall m :: 0 <= m < k ==> !steps[m].CallStart?
    ensures !states[k].running && !states[k].accepting && states[k].thread.NoThread?
    ensures states[k].life.Free? || ProcessingWorker.Stopping(states[k].life)
  {
    hide Inv, Enabled, WellFormed, Apply;
    if k > 0 {
      NotRunningBeforeStart(states, steps, slots, p, k - 1);
      EveryRunKeepsInv(states, steps, slots, p, k - 1);
      assert states[k] == Apply(states[k - 1], steps[k - 1]) && Enabled(states[k - 1], steps[k - 1]);
      StaysStopped(states[k - 1], steps[k - 1]);
    }
  }

  lemma StaysStopped<T>(w: State<T>, step: Step<T>)
    requires WellFormed(w) && Enabled(w, step) && !step.CallStart? && !w.running && !w.accepting && w.thread.NoThread?
    requires w.life.Free? || ProcessingWorker.Stopping(w.life)
    ensures var v := Apply(w, step);
      !v.running && !v.accepting && v.thread.NoThread? && (v.life.Free? || ProcessingWorker.Stopping(v.life))
  {
    hide R.Inv, R.Abs, R.Window;
    if step.SubmitMoves? && w.submitter.Pushing? {
      match w.ring.producer case _ =>
    }
  }

  /** When stop returns, the worker is not running, accepts nothing, and has no thread; when run leaves, it is not
      running either. Stop goes on to the join exactly when no submission stands between its two counter updates. */
  lemma StopAndExitShut<T>(states: seq<State<T>>, steps: seq<Step<T>>, slots: seq<T>, p: bool, k: nat)
    requires |slots| > 0 && IsRun(states, steps) && states[0] == Init(slots, p) && k < |steps|
    ensures states[k].life.StopClearRunning? && steps[k].LifecycleMoves? ==>
      var v := states[k + 1]; v.life.Free? && !v.running && !v.accepting && v.thread.NoThread?
    ensures states[k].thread.ExitClearRunning? && steps[k].ThreadMoves? ==>
      var v := states[k + 1]; v.thread.Finished? && !v.running && !v.accepting && v.stopRequested
    ensures states[k].life.StopAwaitSubmissions? && steps[k].LifecycleMoves? ==>
      (states[k + 1].life.StopJoin? <==> !Counted(states[k].submitter))
  {
    EveryRunKeepsInv(states, steps, slots, p, k);
    EveryRunKeepsInv(states, steps, slots, p, k + 1);
    assert states[k + 1] == Apply(states[k], steps[k]) && Enabled(states[k], steps[k]);
    hide R.Inv, R.Abs, R.Window, DrainInv, HistoryInv, IsRun;
  }
}

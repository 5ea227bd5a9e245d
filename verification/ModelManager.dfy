/** Transactional model selection (src/model/model_manager.cpp): select, rollback, retention and runtime restore.
    Downloads, verification and the runtime answer through an environment record, so every statement holds for
    all their answers. Selections are serialized, as the source's selection mutex does. What other threads may
    observe are the states left at each release of the state mutex and, since the runtime is called with that mutex
    released, after each answer of the runtime. */
module ModelManager {
  import opened Wrappers

  type Id = nat
  type Path = string

  datatype ModelState = Unselected | Downloading | Verifying | Active | Error

  datatype Retention = RetainPrevious | SelectedOnly

  datatype Record = Record(id: Id, path: Path)

  // `loaded`: the path the runtime was last successfully initialized with, if it still is.
  // `restoreFailed`: putting the old model back failed since the last real activation.
  datatype State = State(
    state: ModelState, active: Option<Record>, previous: Option<Record>, pending: Option<Id>,
    loaded: Option<Path>, restoreFailed: bool)

  // A runtime initialization is ready, or fails (by status or exception) leaving the runtime with anything loaded.
  datatype InitAnswer = Ready | NotReady(left: Option<Path>)

  // Everything the call hears from outside. `download` is None for failure, exception or no success status.
  datatype Environment = Environment(
    cancelledBefore: bool, inCatalog: bool, cacheAvailable: bool, download: Option<Path>, cancelledAfter: bool,
    verified: bool, hasRuntime: bool, init: InitAnswer, restore: InitAnswer)

  // The states observable during a call (the last one is the final state), its result and the files removed.
  datatype Outcome = Outcome(observed: seq<State>, ok: bool, removed: seq<Path>)

  const INITIAL := State(Unselected, None, None, None, None, false)

  function Final(o: Outcome): State
    requires o.observed != []
  {
    o.observed[|o.observed| - 1]
  }

  function SetError(s: State): State
  {
    s.(pending := None, state := Error)
  }

  function RunInit(s: State, answer: InitAnswer, path: Path): State
  {
    s.(loaded := match answer case Ready => Some(path) case NotReady(left) => left)
  }

  /** restore_runtime after a failed activation. */
  function Restore(s: State, env: Environment, record: Option<Record>): State
  {
    if !env.hasRuntime || record.None? then s
    else RunInit(s, env.restore, record.value.path).(restoreFailed := s.restoreFailed || env.restore.NotReady?)
  }

  /** What may be observed once an activation has failed: the runtime after the restore, if one was tried, then the
      error. */
  function GiveUp(tried: State, env: Environment): (trace: seq<State>)
    ensures trace != []
  {
    var r := Restore(tried, env, tried.active);
    (if env.hasRuntime && tried.active.Some? then [r] else []) + [SetError(r)]
  }

  /** The cleanup lambda: under selected_only the old records' files go, except the one to keep. */
  function Cleanup(policy: Retention, records: seq<Option<Record>>, keep: Path): seq<Path>
  {
    if policy.RetainPrevious? || records == [] then []
    else
      var rest := Cleanup(policy, records[..|records| - 1], keep);
      match records[|records| - 1]
      case None => rest
      case Some(r) => if r.path == "" || r.path == keep then rest else rest + [r.path]
  }

  /** From a verified file on: initialize the runtime, then move the records or give up. */
  function Conclude(verifying: State, id: Id, path: Path, policy: Retention, env: Environment): (o: Outcome)
    ensures o.observed != []
  {
    var tried := if env.hasRuntime then RunInit(verifying, env.init, path) else verifying;
    var trace := if env.hasRuntime then [tried] else [];
    if env.hasRuntime && env.init.NotReady? then Outcome(trace + GiveUp(tried, env), false, [])
    else
      var done := State(Active, Some(Record(id, path)), if policy.RetainPrevious? then verifying.active else None, None,
                        tried.loaded, false);
      Outcome(trace + [done], true, Cleanup(policy, [verifying.active, verifying.previous], path))
  }

  function Select(s: State, id: Id, policy: Retention, env: Environment): (o: Outcome)
    ensures o.observed != []
  {
    if env.cancelledBefore || !env.inCatalog || !env.cacheAvailable then Outcome([SetError(s)], false, [])
    else if s.active.Some? && s.active.value.id == id then
      var t := s.(previous := if policy.SelectedOnly? then None else s.previous, pending := None, state := Active);
      Outcome([t], true, Cleanup(policy, [s.active, s.previous], s.active.value.path))
    else
      var downloading := s.(pending := Some(id), state := Downloading);
      if env.download.None? || env.cancelledAfter then Outcome([downloading, SetError(downloading)], false, [])
      else
        var path := env.download.value;
        var verifying := downloading.(state := Verifying);
        if !env.verified then Outcome([downloading, verifying, SetError(verifying)], false, [])
        else
          var o := Conclude(verifying, id, path, policy, env);
          Outcome([downloading, verifying] + o.observed, o.ok, o.removed)
  }

  function Rollback(s: State, env: Environment): (o: Outcome)
    ensures o.observed != []
  {
    if s.previous.None? || !env.inCatalog || !env.verified then Outcome([SetError(s)], false, [])
    else
      var tried := if env.hasRuntime then RunInit(s, env.init, s.previous.value.path) else s;
      var trace := if env.hasRuntime then [tried] else [];
      if env.hasRuntime && env.init.NotReady? then Outcome(trace + GiveUp(tried, env), false, [])
      else Outcome(trace + [State(Active, s.previous, s.active, None, tried.loaded, false)], true, [])
  }

  // ---- runs -----------------------------------------------------------------------------------------

  datatype Call = DoSelect(id: Id, policy: Retention, env: Environment) | DoRollback(env: Environment) | WorkerFailed

  function Perform(s: State, c: Call): (o: Outcome)
    ensures o.observed != []
  {
    match c
    case DoSelect(id, policy, env) => Select(s, id, policy, env)
    case DoRollback(env) => Rollback(s, env)
    case WorkerFailed => Outcome([SetError(s)], false, [])
  }

  /** All states observable while performing the calls one after the other. */
  function Observable(s: State, calls: seq<Call>): seq<State>
    decreases calls
  {
    if calls == [] then [s]
    else [s] + Perform(s, calls[0]).observed + Observable(Final(Perform(s, calls[0])), calls[1..])
  }

  predicate UsesRuntime(c: Call, hasRuntime: bool)
  {
    match c
    case DoSelect(_, _, env) => env.hasRuntime == hasRuntime
    case DoRollback(env) => env.hasRuntime == hasRuntime
    case WorkerFailed => true
  }

  /** What the records, the state and the pending id promise each other. */
  predicate Consistent(s: State)
  {
    (s.previous.Some? ==> s.active.Some? && s.active.value.id != s.previous.value.id) &&
    (s.state.Active? ==> s.active.Some?) &&
    (s.pending.Some? ==> s.state.Downloading? || s.state.Verifying?)
  }

  /** The runtime has the active file loaded, unless putting one back has failed since the last activation. */
  predicate Agrees(s: State, hasRuntime: bool)
  {
    hasRuntime && s.active.Some? && !s.restoreFailed ==> s.loaded == Some(s.active.value.path)
  }

  lemma CallKeepsConsistency(s: State, c: Call)
    requires Consistent(s)
    ensures forall t :: t in Perform(s, c).observed ==> Consistent(t)
  {
    hide Cleanup;
    match c
    case DoSelect(id, policy, env) => SelectKeepsConsistency(s, id, policy, env);
    case _ =>
  }

  lemma SelectKeepsConsistency(s: State, id: Id, policy: Retention, env: Environment)
    requires Consistent(s)
    ensures forall t :: t in Select(s, id, policy, env).observed ==> Consistent(t)
  {
    hide Cleanup, Conclude;
    if s.active.None? || s.active.value.id != id {
      var verifying := s.(pending := Some(id), state := Verifying);
      if env.download.Some? {
        ConcludeKeepsConsistency(verifying, id, env.download.value, policy, env);
      }
    }
  }

  lemma ConcludeKeepsConsistency(v: State, id: Id, path: Path, policy: Retention, env: Environment)
    requires Consistent(v) && v.state.Verifying? && (v.active.Some? ==> v.active.value.id != id)
    ensures forall t :: t in Conclude(v, id, path, policy, env).observed ==> Consistent(t)
  {
    hide Cleanup;
  }

  /** Over every run and at every observable moment: the two records have different ids, an active state has an
      active record, and a pending id is shown only while downloading or verifying. */
  lemma {:induction false} EveryObservableStateIsConsistent(s: State, calls: seq<Call>, t: State)
    requires Consistent(s) && t in Observable(s, calls)
    ensures Consistent(t)
    decreases calls
  {
    if calls != [] {
      CallKeepsConsistency(s, calls[0]);
      var o := Perform(s, calls[0]);
      assert Final(o) in o.observed;
      if t != s && t !in o.observed {
        EveryObservableStateIsConsistent(Final(o), calls[1..], t);
      }
    }
  }

  /** The state after all the calls. */
  function After(s: State, calls: seq<Call>): State
  {
    if calls == [] then s else Final(Perform(After(s, calls[..|calls| - 1]), calls[|calls| - 1]))
  }

  lemma CallKeepsAgreement(s: State, c: Call, hasRuntime: bool)
    requires Agrees(s, hasRuntime) && UsesRuntime(c, hasRuntime)
    ensures Agrees(Final(Perform(s, c)), hasRuntime)
  {
    hide Cleanup;
  }

  /** Between calls the runtime always has the active file loaded, unless a restore has failed since the last
      activation. */
  lemma {:induction false} RuntimeAgreesBetweenCalls(calls: seq<Call>, hasRuntime: bool)
    requires forall c :: c in calls ==> UsesRuntime(c, hasRuntime)
    ensures Agrees(After(INITIAL, calls), hasRuntime) && Consistent(After(INITIAL, calls))
  {
    if calls != [] {
      var front, c := calls[..|calls| - 1], calls[|calls| - 1];
      RuntimeAgreesBetweenCalls(front, hasRuntime);
      assert c in calls;
      CallKeepsAgreement(After(INITIAL, front), c, hasRuntime);
      CallKeepsConsistency(After(INITIAL, front), c);
      var o := Perform(After(INITIAL, front), c);
      assert Final(o) in o.observed;
    } else {
      InitialIsConsistent(hasRuntime);
    }
  }

  /** The path a call asks the runtime to load, if it gets that far. */
  function Attempt(s: State, c: Call): Option<Path>
  {
    match c
    case DoSelect(id, _, env) =>
      if env.cancelledBefore || !env.inCatalog || !env.cacheAvailable || (s.active.Some? && s.active.value.id == id) ||
         env.download.None? || env.cancelledAfter || !env.verified || !env.hasRuntime
      then None else env.download
    case DoRollback(env) =>
      if s.previous.None? || !env.inCatalog || !env.verified || !env.hasRuntime then None
      else Some(s.previous.value.path)
    case WorkerFailed => None
  }

  function AnswerOf(c: Call): InitAnswer
  {
    match c case DoSelect(_, _, env) => env.init case DoRollback(env) => env.init case WorkerFailed => Ready
  }

  /** Inside a call the agreement lapses, with no failure needed, exactly when the call asks the runtime for
      another file than the active one, or the runtime's failure leaves another one: the records are still the
      old ones then. */
  lemma AgreementLapsesExactlyDuringActivation(s: State, c: Call, hasRuntime: bool)
    requires Agrees(s, hasRuntime) && UsesRuntime(c, hasRuntime)
    ensures (exists t :: t in Perform(s, c).observed && !Agrees(t, hasRuntime)) <==>
      s.active.Some? && !s.restoreFailed && Attempt(s, c).Some? &&
      RunInit(s, AnswerOf(c), Attempt(s, c).value).loaded != Some(s.active.value.path)
  {
    hide Cleanup;
    var o := Perform(s, c);
    if Attempt(s, c).Some? {
      var tried := if c.DoSelect? then s.(pending := Some(c.id), state := Verifying) else s;
      TriedIsObserved(s, c);
      assert RunInit(tried, AnswerOf(c), Attempt(s, c).value) in o.observed;
    }
  }

  lemma TriedIsObserved(s: State, c: Call)
    requires Attempt(s, c).Some?
    ensures var before := if c.DoSelect? then s.(pending := Some(c.id), state := Verifying) else s;
      RunInit(before, AnswerOf(c), Attempt(s, c).value) in Perform(s, c).observed
  {
    hide Cleanup;
    var before := if c.DoSelect? then s.(pending := Some(c.id), state := Verifying) else s;
    assert Perform(s, c).observed[if c.DoSelect? then 2 else 0] == RunInit(before, AnswerOf(c), Attempt(s, c).value);
  }

  lemma InitialIsConsistent(hasRuntime: bool)
    ensures Consistent(INITIAL) && Agrees(INITIAL, hasRuntime)
  {
  }

  /** The records change only on success, and only at the last observable state of a call. */
  lemma RecordsChangeOnlyOnSuccess(s: State, c: Call, i: nat)
    requires i < |Perform(s, c).observed|
    ensures var o := Perform(s, c);
      (!o.ok || i < |o.observed| - 1) ==> o.observed[i].active == s.active && o.observed[i].previous == s.previous
    ensures !Perform(s, c).ok ==> Perform(s, c).removed == []
  {
    hide Cleanup;
  }

  /** A failed call always ends in the error state with nothing pending; a successful one in the active state. */
  lemma ResultIsVisible(s: State, c: Call)
    ensures var o := Perform(s, c);
      o.ok <==> Final(o).state.Active?
    ensures Final(Perform(s, c)).pending == None
    ensures !Perform(s, c).ok ==> Final(Perform(s, c)).state.Error?
  {
    hide Cleanup;
  }

  /** The runtime, if there is one, takes the file. */
  predicate RuntimeReady(env: Environment)
  {
    env.hasRuntime ==> env.init.Ready?
  }

  /** A selection succeeds if and only if nothing it asks for is refused: it is not cancelled before it starts, the
      model is in the catalog and has a cache path, and then either it is active already or it is downloaded, not
      cancelled, verified and taken by the runtime. Then the selected model is active, from the downloaded file, and the
      old record is kept or dropped as the policy says; nothing else happens to the records. */
  lemma SelectSucceedsExactly(s: State, id: Id, policy: Retention, env: Environment)
    ensures var o, already := Select(s, id, policy, env), s.active.Some? && s.active.value.id == id;
      (o.ok <==>
        !env.cancelledBefore && env.inCatalog && env.cacheAvailable &&
        (already || (env.download.Some? && !env.cancelledAfter && env.verified && RuntimeReady(env)))) &&
      (o.ok && !already ==>
        Final(o).active == Some(Record(id, env.download.value)) &&
        Final(o).previous == (if policy.RetainPrevious? then s.active else None) &&
        Final(o).loaded == if env.hasRuntime then env.download else s.loaded) &&
      (o.ok && already ==>
        Final(o).active == s.active && Final(o).loaded == s.loaded &&
        Final(o).previous == if policy.RetainPrevious? then s.previous else None)
  {
    hide Cleanup;
  }

  /** What others see meanwhile: first the download of that model, then its verification, with the old records. */
  lemma SelectShowsItsStages(s: State, id: Id, policy: Retention, env: Environment)
    requires !env.cancelledBefore && env.inCatalog && env.cacheAvailable
    requires s.active.None? || s.active.value.id != id
    ensures var o := Select(s, id, policy, env).observed;
      o[0] == s.(pending := Some(id), state := Downloading) && |o| > 1 &&
      (env.download.Some? && !env.cancelledAfter ==> o[1] == s.(pending := Some(id), state := Verifying))
  {
    hide Cleanup;
  }

  /** A rollback succeeds if and only if there is a previous record whose model is in the catalog, is verified and is
      taken by the runtime. Then the records have changed places and the previous file is loaded. */
  lemma RollbackSucceedsExactly(s: State, env: Environment)
    ensures var o := Rollback(s, env);
      (o.ok <==> s.previous.Some? && env.inCatalog && env.verified && RuntimeReady(env)) &&
      (o.ok ==>
        Final(o).active == s.previous && Final(o).previous == s.active && o.removed == [] &&
        Final(o).loaded == if env.hasRuntime then Some(s.previous.value.path) else s.loaded)
  {
  }

  /** When an activation fails the old model's file is put back, if there is one, and that answer decides what is
      loaded. Seen meanwhile: the stages of a selection, the failed attempt, and the restore if there is one. */
  lemma FailedActivationRestores(s: State, c: Call)
    requires Attempt(s, c).Some? && AnswerOf(c).NotReady?
    ensures var o := Perform(s, c);
      !c.WorkerFailed? && !o.ok && Final(o).active == s.active &&
      |o.observed| == (if c.DoSelect? then 2 else 0) + (if s.active.Some? then 3 else 2) &&
      Final(o).loaded ==
        if s.active.None? then c.env.init.left
        else if c.env.restore.Ready? then Some(s.active.value.path) else c.env.restore.left
  {
    hide Cleanup;
  }

  /** Two successful rollbacks are the identity on both records. */
  lemma RollbackTwiceIsIdentity(s: State, first: Environment, second: Environment)
    requires Rollback(s, first).ok && Rollback(Final(Rollback(s, first)), second).ok
    ensures var t := Final(Rollback(Final(Rollback(s, first)), second));
      t.active == s.active && t.previous == s.previous && t.state.Active? && t.pending.None?
    ensures first.hasRuntime && second.hasRuntime && s.active.Some? ==>
      Final(Rollback(Final(Rollback(s, first)), second)).loaded == Some(s.active.value.path)
  {
  }

  /** A rollback undoes a successful retaining selection of another model. */
  lemma RollbackUndoesSelect(s: State, id: Id, env: Environment, back: Environment)
    requires s.active.Some? && s.active.value.id != id && Select(s, id, RetainPrevious, env).ok
    requires Rollback(Final(Select(s, id, RetainPrevious, env)), back).ok
    ensures var t := Final(Rollback(Final(Select(s, id, RetainPrevious, env)), back));
      t.active == s.active && t.previous == Some(Record(id, env.download.value))
  {
    hide Cleanup;
  }

  lemma {:induction false} CleanupSparesKept(policy: Retention, records: seq<Option<Record>>, keep: Path)
    ensures keep !in Cleanup(policy, records, keep) && "" !in Cleanup(policy, records, keep)
    ensures policy.RetainPrevious? ==> Cleanup(policy, records, keep) == []
    ensures policy.SelectedOnly? ==>
      forall p :: p in Cleanup(policy, records, keep) <==>
        p != "" && p != keep && exists i :: 0 <= i < |records| && records[i].Some? && records[i].value.path == p
    decreases |records|
  {
    if records != [] {
      var front := records[..|records| - 1];
      CleanupSparesKept(policy, front, keep);
      assert records == front + [records[|records| - 1]];
    }
  }

  /** Cleanup never removes the file of the model that is active afterwards, and after a selected_only success
      no previous record is left that could need a removed file. */
  lemma CleanupNeverRemovesActive(s: State, id: Id, policy: Retention, env: Environment)
    requires Select(s, id, policy, env).ok
    ensures var o := Select(s, id, policy, env);
      Final(o).active.Some? && Final(o).active.value.id == id && Final(o).active.value.path !in o.removed &&
      (Final(o).previous.Some? ==> o.removed == [])
  {
    var keep := if s.active.Some? && s.active.value.id == id then s.active.value.path else env.download.value;
    CleanupSparesKept(policy, [s.active, s.previous], keep);
    hide Cleanup;
  }

  /** The whole condition, over every successful selection: the selected model's file is loaded afterwards if and only
      if it was not the active one already, or was loaded already. */
  lemma SelectLoadsExactly(s: State, id: Id, policy: Retention, env: Environment)
    requires Select(s, id, policy, env).ok && env.hasRuntime
    ensures var t, already := Final(Select(s, id, policy, env)), s.active.Some? && s.active.value.id == id;
      t.active.Some? && t.active.value.id == id &&
      (t.loaded == Some(t.active.value.path) <==> !already || s.loaded == Some(s.active.value.path))
  {
    hide Cleanup;
  }

  /** Selecting the model that is already active returns true without initializing the runtime: the runtime
      agrees with the active record afterwards exactly when it did before. */
  lemma ReselectLeavesRuntimeAlone(s: State, policy: Retention, env: Environment)
    requires s.active.Some? && !env.cancelledBefore && env.inCatalog && env.cacheAvailable
    ensures var o := Select(s, s.active.value.id, policy, env);
      o.ok && Final(o).loaded == s.loaded && Final(o).restoreFailed == s.restoreFailed &&
      (Final(o).loaded == Some(Final(o).active.value.path) <==> s.loaded == Some(s.active.value.path))
  {
    hide Cleanup;
  }

  /** So agreement can fail behind a success: a selection whose activation and restore both fail, then a
      re-selection of the old model, which reports success with nothing loaded. */
  lemma ReselectAfterFailedRestore()
    ensures var s := State(Active, Some(Record(1, "a")), None, None, Some("a"), false);
      var broken := Environment(false, true, true, Some("b"), false, true, true, NotReady(None), NotReady(None));
      var after := Final(Select(s, 2, RetainPrevious, broken));
      var again := Select(after, 1, RetainPrevious, broken);
      Consistent(s) && Agrees(s, true) && !Select(s, 2, RetainPrevious, broken).ok &&
      again.ok && Final(again).active == Some(Record(1, "a")) && Final(again).loaded == None
  {
    hide Cleanup;
  }

  // ---- the object -----------------------------------------------------------------------------------

  class Manager {
    var state: ModelState
    var active: Option<Record>
    var previous: Option<Record>
    var pending: Option<Id>
    var loaded: Option<Path>
    ghost var restoreFailed: bool
    ghost var observed: seq<State>

    ghost function View(): State
      reads this
    {
      State(state, active, previous, pending, loaded, restoreFailed)
    }

    constructor ()
      ensures View() == INITIAL && observed == []
    {
      state, active, previous, pending, loaded := Unselected, None, None, None, None;
      restoreFailed, observed := false, [];
    }

    method ReportError()
      modifies this
      ensures View() == SetError(old(View())) && observed == old(observed) + [View()]
    {
      pending := None;
      state := Error;
      observed := observed + [View()];
    }

    method Initialize(answer: InitAnswer, path: Path) returns (ready: bool)
      modifies this`loaded
      ensures View() == RunInit(old(View()), answer, path) && ready == answer.Ready?
    {
      match answer {
        case Ready => loaded := Some(path);
        case NotReady(left) => loaded := left;
      }
      ready := answer.Ready?;
    }

    method RestoreRuntime(env: Environment, record: Option<Record>)
      modifies this`loaded, this`restoreFailed, this`observed
      ensures View() == Restore(old(View()), env, record)
      ensures observed == old(observed) + if env.hasRuntime && record.Some? then [View()] else []
    {
      if env.hasRuntime && record.Some? {
        var ready := Initialize(env.restore, record.value.path);
        restoreFailed := restoreFailed || !ready;
        observed := observed + [View()];
      }
    }

    /** The runtime block of select_impl and rollback: initialize, and on failure restore and report. */
    method ActivateRuntime(env: Environment, path: Path) returns (ready: bool)
      modifies this
      ensures ready <==> !env.hasRuntime || env.init.Ready?
      ensures var before := old(View());
        var tried := if env.hasRuntime then RunInit(before, env.init, path) else before;
        var trace := (if env.hasRuntime then [tried] else []) + if ready then [] else GiveUp(tried, env);
        observed == old(observed) + trace && View() == if trace == [] then before else trace[|trace| - 1]
    {
      if !env.hasRuntime {
        return true;
      }
      var oldActive := active;
      ready := Initialize(env.init, path);
      observed := observed + [View()];
      if !ready {
        RestoreRuntime(env, oldActive);
        ReportError();
      }
    }

    method CleanupSelectedOnly(policy: Retention, records: seq<Option<Record>>, keep: Path) returns (removed: seq<Path>)
      ensures removed == Cleanup(policy, records, keep)
    {
      removed := [];
      if policy.RetainPrevious? {
        return;
      }
      for i := 0 to |records|
        invariant removed == Cleanup(policy, records[..i], keep)
      {
        assert records[..i + 1][..i] == records[..i];
        if records[i].Some? && records[i].value.path != "" && records[i].value.path != keep {
          removed := removed + [records[i].value.path];
        }
      }
      assert records[..|records|] == records;
    }

    method SelectModel(id: Id, policy: Retention, env: Environment) returns (ok: bool, removed: seq<Path>)
      modifies this
      ensures var o := Select(old(View()), id, policy, env);
        View() == Final(o) && ok == o.ok && removed == o.removed && observed == old(observed) + o.observed
    {
      hide Cleanup, Conclude;
      removed := [];
      if env.cancelledBefore || !env.inCatalog || !env.cacheAvailable {
        ReportError();
        return false, [];
      }
      var oldActive, oldPrevious := active, previous;
      if active.Some? && active.value.id == id {
        if policy.SelectedOnly? {
          previous := None;
        }
        pending := None;
        state := Active;
        observed := observed + [View()];
        removed := CleanupSelectedOnly(policy, [oldActive, oldPrevious], active.value.path);
        return true, removed;
      }
      pending := Some(id);
      state := Downloading;
      observed := observed + [View()];
      if env.download.None? || env.cancelledAfter {
        ReportError();
        return false, [];
      }
      var path := env.download.value;
      state := Verifying;
      observed := observed + [View()];
      if !env.verified {
        ReportError();
        return false, [];
      }
      ok, removed := ConcludeSelection(id, path, policy, env);
    }

    method ConcludeSelection(id: Id, path: Path, policy: Retention, env: Environment)
      returns (ok: bool, removed: seq<Path>)
      modifies this
      ensures var o := Conclude(old(View()), id, path, policy, env);
        View() == Final(o) && ok == o.ok && removed == o.removed && observed == old(observed) + o.observed
    {
      hide Cleanup;
      var oldPrevious := previous;
      ok := ActivateRuntime(env, path);
      if !ok {
        return false, [];
      }
      removed := Activate(id, path, policy, oldPrevious);
    }

    /** The last block of select_impl: the records move, then the files nobody names any more go. */
    method Activate(id: Id, path: Path, policy: Retention, oldPrevious: Option<Record>) returns (removed: seq<Path>)
      modifies this
      ensures View() == old(View()).(
        previous := if policy.RetainPrevious? then old(active) else None, active := Some(Record(id, path)),
        pending := None, state := Active, restoreFailed := false)
      ensures observed == old(observed) + [View()] && removed == Cleanup(policy, [old(active), oldPrevious], path)
    {
      hide Cleanup;
      var oldActive := active;
      if policy.RetainPrevious? {
        previous := active;
      } else {
        previous := None;
      }
      active := Some(Record(id, path));
      pending := None;
      state := Active;
      restoreFailed := false;
      observed := observed + [View()];
      removed := CleanupSelectedOnly(policy, [oldActive, oldPrevious], path);
    }

    method RollbackModel(env: Environment) returns (ok: bool)
      modifies this
      ensures var o := Rollback(old(View()), env);
        View() == Final(o) && ok == o.ok && observed == old(observed) + o.observed
    {
      if previous.None? || !env.inCatalog || !env.verified {
        ReportError();
        return false;
      }
      var target := previous;
      var ready := ActivateRuntime(env, target.value.path);
      if !ready {
        return false;
      }
      active, previous := previous, active;
      pending := None;
      state := Active;
      restoreFailed := false;
      observed := observed + [View()];
      return true;
    }
  }
}

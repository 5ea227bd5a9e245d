/** The bridge's ingress ring as the array ring it is (src/obs/native_audio_bridge.cpp:417-447, 669-701): the step
    relation of the bridge with the ring's single loads and stores, and its refinement of the relation in which the
    ring is a queue. */
module IngressRing {
  import opened Wrappers
  import R = SpscRing
  import S = BridgeSafety
  import opened BridgeMachine

  type Ring = R.Ring<Packet>

  const SLOTS := 32

  // The bridge with its ingress ring apart: `rest.q.ingress` stays empty.
  datatype Concrete = Concrete(rest: State, ring: Ring)

  /** The state this stands for in the bridge's relation. */
  function View(c: Concrete): State
    requires R.Inv(c.ring)
  {
    c.rest.(q := c.rest.q.(ingress := R.Abs(c.ring)))
  }

  function Hidden(s: State): State
  {
    s.(q := s.q.(ingress := []))
  }

  // One load or store of the ring, or a step of the bridge that does not touch it.
  datatype Move = RingMove(move: R.Step<Packet>) | BridgeMove(step: Step)

  /** Where the callback stands in capture_ingress, by what it has loaded and stored. */
  ghost predicate ProducerFits(cb: Callback, p: R.Producer<Packet>)
  {
    match p
    case Resting => !cb.CbMark? && !cb.CbPublish?
    case LoadedHead(_) => cb.CbIngress?
    case FullSeen => cb.CbIngressLost? || cb.CbConsume?
    case SpaceSeen(_) => cb.CbMark? || cb.CbPublish?
    case SlotWritten(_, x) => cb.CbPublish? && x == cb.p
  }

  /** Where the submit thread stands in its loop: it holds the block from its read on until the index advances. */
  ghost predicate ConsumerFits(sub: Submit, k: R.Consumer<Packet>)
  {
    if k.Holding? then !sub.SubLook? && sub.p == k.item else sub.SubLook?
  }

  ghost predicate Linked(c: Concrete)
  {
    R.Inv(c.ring) && |c.ring.slots| == SLOTS && c.rest.q.ingress == [] &&
    ProducerFits(c.rest.cb, c.ring.producer) && ConsumerFits(c.rest.sub, c.ring.consumer)
  }

  predicate Streaming(s: State)
  {
    s.phase.Live? || s.phase.Closing?
  }

  /** When each side takes each step. */
  ghost predicate Allowed(c: Concrete, m: Move)
    requires R.Inv(c.ring)
  {
    match m
    case RingMove(r) =>
      R.Enabled(c.ring, r) &&
      (match r
       case DoLoadHead => c.rest.cb.CbIngress?
       case DoLoadTail => true
       case DoCountDrop => true
       case DoWriteSlot(x) => c.rest.cb.CbPublish? && x == c.rest.cb.p
       case DoPublish => true
       case DoAdvance => Streaming(c.rest) && c.rest.sub.SubAdvance?
       case DoDiscard => false
       case _ => Streaming(c.rest))
    case BridgeMove(step) =>
      Enabled(View(c), step) &&
      (match step
       case CallbackMoves =>
         !c.rest.cb.CbIngress? && !c.rest.cb.CbPublish? && (c.rest.cb.CbConsume? ==> c.ring.producer.Resting?)
       case SubmitMoves(_) => !c.rest.sub.SubLook? && !c.rest.sub.SubAdvance?
       case SubmitJoined => c.ring.producer.Resting? && c.ring.consumer.Waiting?
       case StartCalled(_) => c.ring.producer.Resting? && c.ring.consumer.Waiting?
       case _ => true)
  }

  function RingAfter(r: Ring, step: R.Step<Packet>): Ring
    requires R.Inv(r) && R.Enabled(r, step)
  {
    R.Apply(R.Run(r, 0, [], []), step).ring
  }

  /** The bridge's own variables move with the load that decides, the store that publishes, the read and the
      advance; the other ring steps are the ring's business alone. */
  function RestAfter(c: Concrete, r: R.Step<Packet>): State
    requires Linked(c) && Allowed(c, RingMove(r))
  {
    match r
    case DoLoadTail =>
      var p := c.rest.cb.p;
      c.rest.(cb := if RingAfter(c.ring, r).producer.FullSeen? then CbIngressLost(p) else CbMark(p))
    case DoPublish => c.rest.(cb := CbConsume(c.rest.cb.p))
    case DoReadSlot => c.rest.(sub := SubReady(RingAfter(c.ring, r).consumer.item))
    case DoAdvance => c.rest.(sub := SubLook)
    case _ => c.rest
  }

  function Next(c: Concrete, m: Move): Concrete
    requires Linked(c) && Allowed(c, m)
  {
    match m
    case RingMove(r) => Concrete(RestAfter(c, r), RingAfter(c.ring, r))
    case BridgeMove(step) =>
      var clears := step.SubmitJoined? || step.StartCalled?;
      Concrete(Hidden(Apply(View(c), step)), if clears then R.Reset(c.ring) else c.ring)
  }

  /** The step of the bridge's relation at which a move takes effect, if it does. */
  function Effect(m: Move): Option<Step>
  {
    match m
    case BridgeMove(step) => Some(step)
    case RingMove(r) =>
      match r
      case DoLoadTail => Some(CallbackMoves)
      case DoPublish => Some(CallbackMoves)
      case DoReadSlot => Some(SubmitMoves(false))
      case DoAdvance => Some(SubmitMoves(false))
      case _ => None
  }

  lemma RingMoveRefines(c: Concrete, r: R.Step<Packet>)
    requires Linked(c) && Allowed(c, RingMove(r))
    ensures Linked(Next(c, RingMove(r)))
    ensures match Effect(RingMove(r))
      case None => View(Next(c, RingMove(r))) == View(c)
      case Some(step) => Enabled(View(c), step) && View(Next(c, RingMove(r))) == Apply(View(c), step)
  {
    hide R.Inv, R.Abs, R.Window;
    match r
    case DoReadSlot =>
      assert RingAfter(c.ring, r) == R.ReadSlot(c.ring);
      assert |R.Seen(c.ring)| > 0 && R.Seen(c.ring) <= R.Abs(c.ring);
      assert R.Abs(c.ring)[0] == R.Seen(c.ring)[0];
    case DoAdvance =>
      assert RingAfter(c.ring, r) == R.AdvanceTail(c.ring);
      assert R.Abs(c.ring) == [c.ring.consumer.item] + R.Abs(RingAfter(c.ring, r));
    case _ =>
  }

  lemma BridgeMoveRefines(c: Concrete, step: Step)
    requires Linked(c) && Allowed(c, BridgeMove(step))
    ensures Linked(Next(c, BridgeMove(step))) && View(Next(c, BridgeMove(step))) == Apply(View(c), step)
  {
    hide R.Inv, R.Abs, R.Window, BeginBlock, HasFirst;
  }

  /** Refinement: every move with the array ring is a step of the bridge's relation or changes nothing there. */
  lemma MoveRefines(c: Concrete, m: Move)
    requires Linked(c) && Allowed(c, m)
    ensures Linked(Next(c, m))
    ensures match Effect(m)
      case None => View(Next(c, m)) == View(c)
      case Some(step) => Enabled(View(c), step) && View(Next(c, m)) == Apply(View(c), step)
  {
    match m
    case RingMove(r) => RingMoveRefines(c, r);
    case BridgeMove(step) => BridgeMoveRefines(c, step);
  }

  // ---- runs -----------------------------------------------------------------------------------------------

  ghost predicate IsConcreteRun(cs: seq<Concrete>, ms: seq<Move>)
  {
    |cs| == |ms| + 1 &&
    forall i :: 0 <= i < |ms| ==>
      Linked(cs[i]) && Allowed(cs[i], ms[i]) && cs[i + 1] == Next(cs[i], ms[i]) &&
      (ms[i].BridgeMove? ==> S.Clean(View(cs[i]), ms[i].step))
  }

  function Start(rate: nat, slots: seq<Packet>): Concrete
    requires |slots| == SLOTS
  {
    Concrete(Init(rate), R.Init(slots))
  }

  lemma StartIsLinked(rate: nat, slots: seq<Packet>)
    requires |slots| == SLOTS
    ensures Linked(Start(rate, slots)) && View(Start(rate, slots)) == Init(rate)
  {
  }

  /** Every run with the array ring, through all its interleavings of loads and stores, is a run of the bridge's
      relation; so everything proved of the reachable states of that relation holds of this one. */
  lemma {:induction false} EveryConcreteRunIsABridgeRun(cs: seq<Concrete>, ms: seq<Move>, rate: nat, slots: seq<Packet>)
    returns (states: seq<State>, steps: seq<Step>)
    requires |slots| == SLOTS && IsConcreteRun(cs, ms) && cs[0] == Start(rate, slots)
    ensures S.IsRun(states, steps) && states[0] == Init(rate)
    ensures Linked(cs[|ms|]) && states[|steps|] == View(cs[|ms|])
    decreases |ms|
  {
    hide Linked, Allowed, Next, View, Start, S.Clean, Enabled, Apply;
    if ms == [] {
      StartIsLinked(rate, slots);
      return [Init(rate)], [];
    }
    var n := |ms| - 1;
    states, steps := EveryConcreteRunIsABridgeRun(cs[..n + 1], ms[..n], rate, slots);
    MoveRefines(cs[n], ms[n]);
    if Effect(ms[n]).Some? {
      EffectIsClean(cs[n], ms[n]);
      S.RunExtends(states, steps, Effect(ms[n]).value);
      states, steps := states + [View(cs[n + 1])], steps + [Effect(ms[n]).value];
    }
  }

  lemma EffectIsClean(c: Concrete, m: Move)
    requires Linked(c) && Effect(m).Some? && (m.BridgeMove? ==> S.Clean(View(c), m.step))
    ensures S.Clean(View(c), Effect(m).value)
  {
  }
}

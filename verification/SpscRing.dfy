/** The single-producer/single-consumer ring behind the core frame queue and the bridge's ingress and
    result rings (src/core/audio_frame_queue.cpp, src/obs/native_audio_bridge.cpp).

    Every atomic load and store is a step of its own, so producer and consumer steps interleave freely.
    Atomics are sequentially consistent. One slot always stays empty, so `n` slots hold `n - 1` items. */
module SpscRing {
  import opened Wrappers

  // Producer program counter: what try_push has loaded so far.
  datatype Producer<T> =
    | Resting
    | LoadedHead(head: nat)
    | SpaceSeen(head: nat)
    | FullSeen
    | SlotWritten(head: nat, item: T)

  // Consumer program counter. A consumer that saw `head` may take several items before looking again.
  datatype Consumer<T> =
    | Waiting
    | LoadedTail(tail: nat)
    | HeadSeen(tail: nat, head: nat)
    | Holding(tail: nat, head: nat, item: T)

  datatype Ring<T> = Ring(
    slots: seq<T>, head: nat, tail: nat, dropped: nat, producer: Producer<T>, consumer: Consumer<T>)

  function Wrap(n: nat, i: nat): nat
  {
    if i < n then i else i - n
  }

  function Next(n: nat, i: nat): nat
  {
    Wrap(n, i + 1)
  }

  /** Number of ring positions from `t` forward to `h`; the expression `size()` evaluates. */
  function Distance(n: nat, t: nat, h: nat): int
  {
    if h >= t then h - t else n - t + h
  }

  function Window<T>(slots: seq<T>, t: nat, k: nat): (w: seq<T>)
    requires t < |slots| && k <= |slots|
    ensures |w| == k
    ensures forall i :: 0 <= i < k ==> w[i] == slots[Wrap(|slots|, t + i)]
  {
    seq(k, i requires 0 <= i < k => slots[Wrap(|slots|, t + i)])
  }

  ghost predicate ProducerOk<T>(r: Ring<T>)
    requires r.head < |r.slots| && r.tail < |r.slots|
  {
    match r.producer
    case Resting => true
    case FullSeen => true
    case LoadedHead(h) => h == r.head
    case SpaceSeen(h) => h == r.head && Distance(|r.slots|, r.tail, r.head) + 1 < |r.slots|
    case SlotWritten(h, x) =>
      h == r.head && Distance(|r.slots|, r.tail, r.head) + 1 < |r.slots| && r.slots[r.head] == x
  }

  ghost predicate ConsumerOk<T>(r: Ring<T>)
    requires r.head < |r.slots| && r.tail < |r.slots|
  {
    match r.consumer
    case Waiting => true
    case LoadedTail(t) => t == r.tail
    case HeadSeen(t, h) =>
      t == r.tail && h < |r.slots| &&
      Distance(|r.slots|, t, h) <= Distance(|r.slots|, t, r.head)
    case Holding(t, h, x) =>
      t == r.tail && h < |r.slots| && x == r.slots[t] &&
      1 <= Distance(|r.slots|, t, h) <= Distance(|r.slots|, t, r.head)
  }

  ghost predicate Inv<T>(r: Ring<T>)
  {
    r.head < |r.slots| && r.tail < |r.slots| && ProducerOk(r) && ConsumerOk(r)
  }

  /** The queue a ring stands for: the slots from tail up to, not including, head. */
  function Abs<T>(r: Ring<T>): (q: seq<T>)
    requires Inv(r)
  {
    Window(r.slots, r.tail, Distance(|r.slots|, r.tail, r.head))
  }

  /** What a consumer that loaded `head` earlier still regards as readable. */
  function Seen<T>(r: Ring<T>): (q: seq<T>)
    requires Inv(r) && (r.consumer.HeadSeen? || r.consumer.Holding?)
    ensures q <= Abs(r)
  {
    var q := Window(r.slots, r.tail, Distance(|r.slots|, r.tail, r.consumer.head));
    assert q == Abs(r)[..|q|];
    q
  }

  function Capacity<T>(r: Ring<T>): int
  {
    |r.slots| - 1
  }

  function Init<T>(slots: seq<T>): (r: Ring<T>)
    requires |slots| > 0
    ensures Inv(r) && Abs(r) == []
  {
    Ring(slots, 0, 0, 0, Resting, Waiting)
  }

  // ---- producer steps -------------------------------------------------------------------------

  function LoadHead<T>(r: Ring<T>): (s: Ring<T>)
    requires Inv(r) && r.producer.Resting?
    ensures Inv(s) && |s.slots| == |r.slots| && Abs(s) == Abs(r) && s.consumer == r.consumer
  {
    r.(producer := LoadedHead(r.head))
  }

  /** The fullness test: one load of the consumer's index. Full is reported exactly when the queue is full now. */
  function LoadTail<T>(r: Ring<T>): (s: Ring<T>)
    requires Inv(r) && r.producer.LoadedHead?
    ensures Inv(s) && |s.slots| == |r.slots| && Abs(s) == Abs(r) && s.consumer == r.consumer
    ensures s.producer.FullSeen? <==> |Abs(r)| == Capacity(r)
  {
    var h := r.producer.head;
    if Next(|r.slots|, h) == r.tail then r.(producer := FullSeen) else r.(producer := SpaceSeen(h))
  }

  function CountDrop<T>(r: Ring<T>): (s: Ring<T>)
    requires Inv(r) && r.producer.FullSeen?
    ensures Inv(s) && |s.slots| == |r.slots| && Abs(s) == Abs(r) && s.consumer == r.consumer &&
      s.dropped == r.dropped + 1
  {
    r.(producer := Resting, dropped := r.dropped + 1)
  }

  function WriteSlot<T>(r: Ring<T>, x: T): (s: Ring<T>)
    requires Inv(r) && r.producer.SpaceSeen?
    ensures Inv(s) && |s.slots| == |r.slots| && Abs(s) == Abs(r) && s.consumer == r.consumer
  {
    var s := r.(slots := r.slots[r.head := x], producer := SlotWritten(r.head, x));
    assert Abs(s) == Abs(r);
    s
  }

  function PublishHead<T>(r: Ring<T>): (s: Ring<T>)
    requires Inv(r) && r.producer.SlotWritten?
    ensures Inv(s) && |s.slots| == |r.slots| && Abs(s) == Abs(r) + [r.producer.item] && s.consumer == r.consumer
  {
    var s := r.(head := Next(|r.slots|, r.head), producer := Resting);
    assert Abs(s) == Abs(r) + [r.producer.item];
    s
  }

  // ---- consumer steps -------------------------------------------------------------------------

  function ConsumerLoadTail<T>(r: Ring<T>): (s: Ring<T>)
    requires Inv(r) && r.consumer.Waiting?
    ensures Inv(s) && |s.slots| == |r.slots| && Abs(s) == Abs(r) && s.producer == r.producer
  {
    r.(consumer := LoadedTail(r.tail))
  }

  function ConsumerLoadHead<T>(r: Ring<T>): (s: Ring<T>)
    requires Inv(r) && r.consumer.LoadedTail?
    ensures Inv(s) && |s.slots| == |r.slots| && Abs(s) == Abs(r) && s.producer == r.producer
    ensures s.consumer.HeadSeen? && Seen(s) == Abs(r)
  {
    r.(consumer := HeadSeen(r.consumer.tail, r.head))
  }

  function ReadSlot<T>(r: Ring<T>): (s: Ring<T>)
    requires Inv(r) && r.consumer.HeadSeen? && r.consumer.tail != r.consumer.head
    ensures Inv(s) && |s.slots| == |r.slots| && Abs(s) == Abs(r) && s.producer == r.producer
    ensures s.consumer.Holding? && Seen(s) == Seen(r) && |Seen(r)| > 0 && s.consumer.item == Seen(r)[0]
  {
    r.(consumer := Holding(r.consumer.tail, r.consumer.head, r.slots[r.consumer.tail]))
  }

  function AdvanceTail<T>(r: Ring<T>): (s: Ring<T>)
    requires Inv(r) && r.consumer.Holding?
    ensures Inv(s) && |s.slots| == |r.slots| && s.producer == r.producer && s.consumer.HeadSeen?
    ensures Abs(r) == [r.consumer.item] + Abs(s) && Seen(r) == [r.consumer.item] + Seen(s)
  {
    var t := Next(|r.slots|, r.tail);
    AdvanceTakesFirst(r);
    r.(tail := t, consumer := HeadSeen(t, r.consumer.head))
  }

  lemma AdvanceTakesFirst<T>(r: Ring<T>)
    requires Inv(r) && r.consumer.Holding?
    ensures var t := Next(|r.slots|, r.tail);
      var s := r.(tail := t, consumer := HeadSeen(t, r.consumer.head));
      Inv(s) && Abs(r) == [r.consumer.item] + Abs(s) && Seen(r) == [r.consumer.item] + Seen(s)
  {
    var n, t := |r.slots|, Next(|r.slots|, r.tail);
    WindowHead(r.slots, r.tail, Distance(n, r.tail, r.head));
    WindowHead(r.slots, r.tail, Distance(n, r.tail, r.consumer.head));
    hide Window;
  }

  lemma WindowHead<T>(slots: seq<T>, t: nat, k: nat)
    requires t < |slots| && 1 <= k <= |slots|
    ensures Next(|slots|, t) < |slots|
    ensures Window(slots, t, k) == [slots[t]] + Window(slots, Next(|slots|, t), k - 1)
  {
  }

  /** Leave the read loop, or report an empty queue. */
  function Leave<T>(r: Ring<T>): (s: Ring<T>)
    requires Inv(r) && r.consumer.HeadSeen?
    ensures Inv(s) && |s.slots| == |r.slots| && Abs(s) == Abs(r) && s.producer == r.producer && s.consumer.Waiting?
  {
    r.(consumer := Waiting)
  }

  /** Move the read index to the head seen: drops everything that was published then. */
  function DiscardSeen<T>(r: Ring<T>): (s: Ring<T>)
    requires Inv(r) && r.consumer.HeadSeen?
    ensures Inv(s) && |s.slots| == |r.slots| && Abs(r) == Seen(r) + Abs(s) && s.producer == r.producer &&
      s.consumer.Waiting?
  {
    var s := r.(tail := r.consumer.head, consumer := Waiting);
    assert Abs(r) == Seen(r) + Abs(s);
    s
  }

  /** Both indices back to zero; the source does this only while neither side runs. */
  function Reset<T>(r: Ring<T>): (s: Ring<T>)
    requires Inv(r) && r.producer.Resting? && r.consumer.Waiting?
    ensures Inv(s) && |s.slots| == |r.slots| && Abs(s) == []
  {
    r.(head := 0, tail := 0)
  }

  // ---- whole calls, with nothing in between ---------------------------------------------------

  /** try_push run without interference: load, load, then either count the drop or write and publish. */
  function Push<T>(r: Ring<T>, x: T): (s: Ring<T>)
    requires Inv(r) && r.producer.Resting?
    ensures Inv(s) && s.producer.Resting? && s.consumer == r.consumer
    ensures |Abs(r)| < Capacity(r) ==> Abs(s) == Abs(r) + [x] && s.dropped == r.dropped
    ensures |Abs(r)| == Capacity(r) ==> Abs(s) == Abs(r) && s.dropped == r.dropped + 1
  {
    var looked := LoadTail(LoadHead(r));
    if looked.producer.FullSeen? then CountDrop(looked) else PublishHead(WriteSlot(looked, x))
  }

  /** try_pop run without interference. */
  function Pop<T>(r: Ring<T>): (res: (Ring<T>, Option<T>))
    requires Inv(r) && r.consumer.Waiting?
    ensures Inv(res.0) && res.0.producer == r.producer && res.0.consumer.Waiting?
    ensures Abs(r) == [] ==> res.1 == None && Abs(res.0) == []
    ensures Abs(r) != [] ==> res.1.Some? && Abs(r) == [res.1.value] + Abs(res.0)
  {
    var looked := ConsumerLoadHead(ConsumerLoadTail(r));
    if looked.consumer.tail == looked.consumer.head then (Leave(looked), None)
    else
      var held := ReadSlot(looked);
      (Leave(AdvanceTail(held)), Some(held.consumer.item))
  }

  // ---- the ring as a machine over its steps ---------------------------------------------------

  datatype Step<T> =
    | DoLoadHead | DoLoadTail | DoCountDrop | DoWriteSlot(x: T) | DoPublish
    | DoLoadOwnTail | DoLoadOtherHead | DoReadSlot | DoAdvance | DoLeave | DoDiscard

  predicate Enabled<T>(r: Ring<T>, step: Step<T>)
  {
    match step
    case DoLoadHead => r.producer.Resting?
    case DoLoadTail => r.producer.LoadedHead?
    case DoCountDrop => r.producer.FullSeen?
    case DoWriteSlot(x) => r.producer.SpaceSeen?
    case DoPublish => r.producer.SlotWritten?
    case DoLoadOwnTail => r.consumer.Waiting?
    case DoLoadOtherHead => r.consumer.LoadedTail?
    case DoReadSlot => r.consumer.HeadSeen? && r.consumer.tail != r.consumer.head
    case DoAdvance => r.consumer.Holding?
    case DoLeave => r.consumer.HeadSeen?
    case DoDiscard => r.consumer.HeadSeen?
  }

  /** A ring with the history of calls: pushes begun, items accepted, items taken out by the consumer. */
  datatype Run<T> = Run(ring: Ring<T>, attempts: nat, accepted: seq<T>, taken: seq<T>)

  function Apply<T>(u: Run<T>, step: Step<T>): (v: Run<T>)
    requires Inv(u.ring) && Enabled(u.ring, step)
  {
    var r := u.ring;
    match step
    case DoLoadHead => u.(ring := LoadHead(r), attempts := u.attempts + 1)
    case DoLoadTail => u.(ring := LoadTail(r))
    case DoCountDrop => u.(ring := CountDrop(r))
    case DoWriteSlot(x) => u.(ring := WriteSlot(r, x))
    case DoPublish => u.(ring := PublishHead(r), accepted := u.accepted + [r.producer.item])
    case DoLoadOwnTail => u.(ring := ConsumerLoadTail(r))
    case DoLoadOtherHead => u.(ring := ConsumerLoadHead(r))
    case DoReadSlot => u.(ring := ReadSlot(r))
    case DoAdvance => u.(ring := AdvanceTail(r), taken := u.taken + [r.consumer.item])
    case DoLeave => u.(ring := Leave(r))
    case DoDiscard => u.(ring := DiscardSeen(r), taken := u.taken + Seen(r))
  }

  function InProgress<T>(r: Ring<T>): nat
  {
    if r.producer.Resting? then 0 else 1
  }

  ghost predicate RunInv<T>(u: Run<T>, n: nat)
  {
    Inv(u.ring) && |u.ring.slots| == n &&
    u.accepted == u.taken + Abs(u.ring) &&
    u.attempts == |u.accepted| + u.ring.dropped + InProgress(u.ring)
  }

  /** Runs: every step enabled where it is taken. */
  ghost predicate IsRun<T>(states: seq<Run<T>>, steps: seq<Step<T>>)
  {
    |states| == |steps| + 1 &&
    forall i :: 0 <= i < |steps| ==>
      Inv(states[i].ring) && Enabled(states[i].ring, steps[i]) && states[i + 1] == Apply(states[i], steps[i])
  }

  lemma StepKeepsRunInv<T>(u: Run<T>, step: Step<T>, n: nat)
    requires RunInv(u, n) && Enabled(u.ring, step)
    ensures RunInv(Apply(u, step), n)
  {
    hide Inv, Abs, Window, Distance;
    var v := Apply(u, step);
    match step
    case DoPublish =>
      assert u.taken + (Abs(u.ring) + [u.ring.producer.item]) == (u.taken + Abs(u.ring)) + [u.ring.producer.item];
    case DoAdvance =>
      assert u.taken + ([u.ring.consumer.item] + Abs(v.ring)) == (u.taken + [u.ring.consumer.item]) + Abs(v.ring);
    case DoDiscard =>
      assert u.taken + (Seen(u.ring) + Abs(v.ring)) == (u.taken + Seen(u.ring)) + Abs(v.ring);
    case _ =>
  }

  /** The whole story of a ring, over every interleaving of producer and consumer steps: what was accepted is
      what was taken followed by what is queued, in order; the queue never exceeds its capacity (zero for one
      slot); and each finished push either was accepted or was counted as dropped. */
  lemma {:induction false} EveryRunIsAFifo<T>(states: seq<Run<T>>, steps: seq<Step<T>>, slots: seq<T>, k: nat)
    requires |slots| > 0 && IsRun(states, steps) && k <= |steps|
    requires states[0] == Run(Init(slots), 0, [], [])
    ensures RunInv(states[k], |slots|) && |Abs(states[k].ring)| <= |slots| - 1
    ensures states[k].taken <= states[k].accepted
  {
    if k > 0 {
      EveryRunIsAFifo(states, steps, slots, k - 1);
      StepKeepsRunInv(states[k - 1], steps[k - 1], |slots|);
    } else {
      assert Abs(states[0].ring) == [];
    }
  }

  // ---- refinement of an abstract bounded queue ------------------------------------------------

  datatype QueueStep<T> = Enqueue(x: T) | RejectNewest | Dequeue(y: T) | DequeueMany(ys: seq<T>) | Stutter

  ghost predicate QueueNext<T>(cap: int, q: seq<T>, move: QueueStep<T>, q': seq<T>)
  {
    match move
    case Enqueue(x) => |q| < cap && q' == q + [x]
    case RejectNewest => |q| == cap && q' == q
    case Dequeue(y) => q == [y] + q'
    case DequeueMany(ys) => q == ys + q'
    case Stutter => q' == q
  }

  function Label<T>(r: Ring<T>, step: Step<T>): QueueStep<T>
    requires Inv(r) && Enabled(r, step)
  {
    match step
    case DoPublish => Enqueue(r.producer.item)
    case DoLoadTail => if LoadTail(r).producer.FullSeen? then RejectNewest else Stutter
    case DoAdvance => Dequeue(r.consumer.item)
    case DoDiscard => DequeueMany(Seen(r))
    case _ => Stutter
  }

  /** Forward simulation: an accepted push takes effect at the store of head, a rejected one at the load that
      found the queue full (so it is full at that instant), a pop at the store of tail. */
  lemma StepRefinesQueue<T>(u: Run<T>, step: Step<T>)
    requires Inv(u.ring) && Enabled(u.ring, step)
    ensures QueueNext(Capacity(u.ring), Abs(u.ring), Label(u.ring, step), Abs(Apply(u, step).ring))
  {
    var v := Apply(u, step);
    match step
    case DoPublish =>
      assert |Abs(v.ring)| == |Abs(u.ring)| + 1;
    case _ =>
  }

  /** The producer never writes a slot that a consumer may still read, whatever the consumer last saw. */
  lemma ProducerAvoidsReadableSlots<T>(r: Ring<T>, i: nat)
    requires Inv(r) && (r.producer.SpaceSeen? || r.producer.SlotWritten?)
    requires i < |Abs(r)|
    ensures Wrap(|r.slots|, r.tail + i) != r.producer.head
  {
  }

  /** size() loads head and tail one after the other, so the two may belong to different moments. Whatever they
      are, the answer never exceeds the capacity; and when the caller is the consumer (tail cannot move), it is
      the exact length at the moment head was loaded. */
  lemma RacySizeWithinCapacity<T>(before: Ring<T>, after: Ring<T>)
    requires Inv(before) && Inv(after) && |before.slots| == |after.slots|
    ensures 0 <= Distance(|after.slots|, after.tail, before.head) <= Capacity(after)
    ensures after.tail == before.tail ==> Distance(|after.slots|, after.tail, before.head) == |Abs(before)|
  {
  }

  /** The queue's `(index + 1) % size` and the bridge's compare-and-reset are the same successor. */
  lemma SuccessorsAgree(n: nat, i: nat)
    requires i < n
    ensures (i + 1) % n == Next(n, i) == (if i + 1 == n then 0 else i + 1)
  {
    if i + 1 < n {
      assert (i + 1) % n == i + 1;
    } else {
      assert n % n == 0;
    }
  }
}

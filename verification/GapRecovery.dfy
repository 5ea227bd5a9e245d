/** What the packets in flight between the host callback and the timeline mean for recovery from a gap
    (src/obs/native_audio_bridge.cpp:635-701, src/core/audio_timeline.cpp:79-135). */
module GapRecovery {
  import T = AudioTimeline

  /** A captured block. `mark` is its discontinuity flag; `finite` says that no sample is NaN or infinite. */
  datatype Packet = Packet(first: int, frames: nat, timestamp: nat, mark: bool, finite: bool)

  function End(p: Packet): int
  {
    p.first + p.frames
  }

  predicate Sound(p: Packet)
  {
    0 <= p.first && 0 < p.frames && End(p) <= T.INT64_MAX
  }

  function ChunkOf(t: T.Timeline, p: Packet): T.Chunk
  {
    T.Chunk(p.first, p.frames, t.sampleRate, p.mark)
  }

  /** process(): a packet with a non-finite sample is passed through before the timeline hears of it. */
  function DeliverOne(t: T.Timeline, p: Packet): T.Timeline
  {
    if p.finite then T.Accept(t, ChunkOf(t, p)).0 else t
  }

  function Deliver(t: T.Timeline, q: seq<Packet>): T.Timeline
    decreases q
  {
    if q == [] then t else Deliver(DeliverOne(t, q[0]), q[1..])
  }

  /** The timeline accepts an unmarked packet that starts at `frame`. */
  predicate InStep(t: T.Timeline, frame: int)
  {
    if t.anchored then t.nextFrame == frame else !t.requiresDiscontinuity
  }

  lemma {:induction false} DeliverAppend(t: T.Timeline, q: seq<Packet>, p: Packet)
    ensures Deliver(t, q + [p]) == DeliverOne(Deliver(t, q), p)
    decreases q
  {
    if q == [] {
      assert q + [p] == [p];
      assert Deliver(t, [p]) == Deliver(DeliverOne(t, p), [p][1..]);
    } else {
      assert (q + [p])[1..] == q[1..] + [p];
      DeliverAppend(DeliverOne(t, q[0]), q[1..], p);
    }
  }

  lemma {:induction false} DeliverKeepsRate(t: T.Timeline, q: seq<Packet>)
    ensures Deliver(t, q).sampleRate == t.sampleRate
    decreases q
  {
    if q != [] {
      DeliverKeepsRate(DeliverOne(t, q[0]), q[1..]);
    }
  }

  /** A marked packet always re-anchors, whatever came before it. */
  lemma MarkedPacketReanchors(t: T.Timeline, q: seq<Packet>, p: Packet)
    requires t.sampleRate > 0 && Sound(p) && p.finite && p.mark
    ensures var u := Deliver(t, q + [p]); u.anchored && u.nextFrame == End(p)
    ensures T.Accept(Deliver(t, q), ChunkOf(Deliver(t, q), p)).1.anchor.Some?
  {
    DeliverAppend(t, q, p);
    DeliverKeepsRate(t, q);
  }

  /** An unmarked one extends a timeline that is in step with it, and only that. */
  lemma UnmarkedPacketExtends(t: T.Timeline, q: seq<Packet>, p: Packet)
    requires t.sampleRate > 0 && Sound(p) && p.finite && !p.mark
    ensures InStep(Deliver(t, q + [p]), End(p)) <==> InStep(Deliver(t, q), p.first)
  {
    DeliverAppend(t, q, p);
    DeliverKeepsRate(t, q);
  }

  // ---- breaks and marks: the reading without the timeline's code -------------------------------

  predicate Contiguous(q: seq<Packet>)
  {
    forall i :: 0 < i < |q| ==> q[i].first == End(q[i - 1])
  }

  /** No break of contiguity after the last mark: from the last marked packet on (or, with none, from the
      timeline's own position on) every packet starts where the one before ended, up to `front`. */
  ghost predicate NoOpenBreak(t: T.Timeline, q: seq<Packet>, front: int)
  {
    if q == [] then InStep(t, front)
    else
      End(q[|q| - 1]) == front &&
      (q[|q| - 1].mark || NoOpenBreak(t, q[..|q| - 1], q[|q| - 1].first))
  }

  /** Delivering everything in flight leaves the timeline in step with the stream exactly when no break lies
      after the last mark. */
  lemma {:induction false} InStepIffNoOpenBreak(t: T.Timeline, q: seq<Packet>, front: int)
    requires t.sampleRate > 0 && forall p :: p in q ==> Sound(p) && p.finite
    ensures InStep(Deliver(t, q), front) <==> NoOpenBreak(t, q, front)
    decreases |q|
  {
    if q != [] {
      var init, p := q[..|q| - 1], q[|q| - 1];
      assert q == init + [p] && p in q;
      InStepIffNoOpenBreak(t, init, p.first);
      DeliverAppend(t, init, p);
      DeliverKeepsRate(t, init);
      var u := Deliver(t, init);
      AcceptedOrNeedsMark(u, p);
    }
  }

  lemma AcceptedOrNeedsMark(u: T.Timeline, p: Packet)
    requires u.sampleRate > 0 && Sound(p) && p.finite
    ensures var v := DeliverOne(u, p);
      if p.mark || InStep(u, p.first) then v.anchored && v.nextFrame == End(p)
      else !v.anchored && v.requiresDiscontinuity
  {
  }

  /** The same in positions: if the whole is contiguous after some marked packet, it is in step at the end. */
  lemma {:induction false} ContiguousAfterMarkIsClosed(t: T.Timeline, q: seq<Packet>, m: nat)
    requires m < |q| && q[m].mark && Contiguous(q[m..])
    ensures NoOpenBreak(t, q, End(q[|q| - 1]))
    decreases |q|
  {
    if m < |q| - 1 && !q[|q| - 1].mark {
      var init := q[..|q| - 1];
      assert q[m..][|q| - 1 - m] == q[|q| - 1] && q[m..][|q| - 2 - m] == q[|q| - 2];
      assert init[m..] == q[m..][..|q| - 1 - m];
      ContiguousAfterMarkIsClosed(t, init, m);
    }
  }

  // ---- why finite samples matter ----------------------------------------------------------------

  /** The packets the timeline hears of. */
  function FiniteOnly(q: seq<Packet>): seq<Packet>
  {
    if q == [] then []
    else
      var rest, p := FiniteOnly(q[..|q| - 1]), q[|q| - 1];
      if p.finite then rest + [p] else rest
  }

  /** A packet with a non-finite sample might as well not have been sent, its mark included. */
  lemma {:induction false} NonFiniteIsUnheard(t: T.Timeline, q: seq<Packet>)
    ensures Deliver(t, q) == Deliver(t, FiniteOnly(q))
    ensures forall p :: p in FiniteOnly(q) ==> p in q && p.finite
    decreases |q|
  {
    if q != [] {
      var init, p := q[..|q| - 1], q[|q| - 1];
      assert q == init + [p];
      NonFiniteIsUnheard(t, init);
      DeliverAppend(t, init, p);
      DeliverAppend(t, FiniteOnly(init), p);
    }
  }

  /** The exact condition, for every timeline and every list of sound packets, with any marks, gaps and samples:
      delivery ends in step with the stream if and only if no break lies after the last mark among the packets
      that are finite. */
  lemma RecoveryExactly(t: T.Timeline, q: seq<Packet>, front: int)
    requires t.sampleRate > 0 && forall p :: p in q ==> Sound(p)
    ensures InStep(Deliver(t, q), front) <==> NoOpenBreak(t, FiniteOnly(q), front)
  {
    NonFiniteIsUnheard(t, q);
    InStepIffNoOpenBreak(t, FiniteOnly(q), front);
  }

  /** A lost timeline whose next mark stands on a non-finite packet: the mark goes unheard, and everything after it
      is refused until another one comes. */
  lemma {:induction false} MarkOnNonFiniteIsLost(t: T.Timeline, lost: Packet, later: seq<Packet>)
    requires !t.anchored && t.requiresDiscontinuity && !lost.finite && forall p :: p in later ==> !p.mark
    ensures Deliver(t, [lost] + later) == t
    decreases |later|
  {
    if later == [] {
      assert [lost] + later == [lost] && [lost][1..] == [];
    } else {
      var init, p := later[..|later| - 1], later[|later| - 1];
      assert later == init + [p] && p in later;
      MarkOnNonFiniteIsLost(t, lost, init);
      assert [lost] + later == ([lost] + init) + [p];
      DeliverAppend(t, [lost] + init, p);
    }
  }

  /** A stretch of contiguous unmarked packets that starts where an anchored timeline stands. */
  ghost predicate Stretch(t: T.Timeline, q: seq<Packet>)
  {
    t.sampleRate > 0 && t.anchored && q != [] && Contiguous(q) && q[0].first == t.nextFrame &&
    forall p :: p in q ==> Sound(p) && !p.mark
  }

  predicate AllFinite(q: seq<Packet>)
  {
    forall p :: p in q ==> p.finite
  }

  lemma StretchPrefix(t: T.Timeline, q: seq<Packet>)
    requires Stretch(t, q) && |q| > 1
    ensures var init, p := q[..|q| - 1], q[|q| - 1];
      Stretch(t, init) && p.first == End(init[|init| - 1]) && (AllFinite(q) <==> AllFinite(init) && p.finite)
  {
    var init, p := q[..|q| - 1], q[|q| - 1];
    assert q == init + [p];
    assert q[0] == init[0];
  }

  /** In an uninterrupted stream: contiguous unmarked packets keep an anchored timeline in step if and only if every
      one of them is finite; the first non-finite packet leaves a gap that no later unmarked packet can close. */
  lemma UninterruptedExactlyForFiniteSamples(t: T.Timeline, q: seq<Packet>)
    requires Stretch(t, q)
    ensures InStep(Deliver(t, q), End(q[|q| - 1])) <==> AllFinite(q)
  {
    if AllFinite(q) {
      AllFiniteStaysAnchored(t, q);
    } else {
      NonFiniteIsNeverAhead(t, q);
    }
  }

  /** After a non-finite packet the timeline stays behind; the next finite one unanchors it. */
  lemma {:induction false} NonFiniteIsNeverAhead(t: T.Timeline, q: seq<Packet>)
    requires Stretch(t, q) && !AllFinite(q)
    ensures var u := Deliver(t, q);
      if u.anchored then u.nextFrame < End(q[|q| - 1]) && !q[|q| - 1].finite else u.requiresDiscontinuity
    decreases |q|
  {
    var init, p := q[..|q| - 1], q[|q| - 1];
    assert q == init + [p] && p in q;
    DeliverAppend(t, init, p);
    DeliverKeepsRate(t, init);
    if init == [] {
      assert Deliver(t, init) == t;
    } else {
      StretchPrefix(t, q);
      if AllFinite(init) {
        AllFiniteStaysAnchored(t, init);
      } else {
        NonFiniteIsNeverAhead(t, init);
      }
    }
  }

  lemma {:induction false} AllFiniteStaysAnchored(t: T.Timeline, q: seq<Packet>)
    requires Stretch(t, q) && AllFinite(q)
    ensures Deliver(t, q).anchored && Deliver(t, q).nextFrame == End(q[|q| - 1])
    decreases |q|
  {
    var init, p := q[..|q| - 1], q[|q| - 1];
    assert q == init + [p] && p in q;
    DeliverAppend(t, init, p);
    DeliverKeepsRate(t, init);
    if init == [] {
      assert Deliver(t, init) == t;
    } else {
      StretchPrefix(t, q);
      AllFiniteStaysAnchored(t, init);
    }
  }

  /** A concrete case: one packet with a NaN among contiguous ones, and the timeline is lost for good. */
  lemma OneNonFinitePacketSticks(later: seq<Packet>)
    requires later != [] && Contiguous(later) && later[0].first == 960
    requires forall p :: p in later ==> Sound(p) && !p.mark && p.finite
    ensures var t := T.Timeline(48000, true, false, 480, 1);
      var bad := Packet(480, 480, 0, false, false);
      !Deliver(t, [bad] + later).anchored && Deliver(t, [bad] + later).requiresDiscontinuity
  {
    var t := T.Timeline(48000, true, false, 480, 1);
    var bad := Packet(480, 480, 0, false, false);
    var q := [bad] + later;
    assert bad in q && !bad.finite;
    assert forall p :: p in q ==> p == bad || p in later;
    forall i | 0 < i < |q| ensures q[i].first == End(q[i - 1]) {
      if i > 1 {
        assert later[i - 1].first == End(later[i - 2]);
      }
    }
    assert q[|q| - 1] in later;
    NonFiniteIsNeverAhead(t, q);
  }
}

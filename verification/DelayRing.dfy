/** The callback's own state in place: the raw delay ring over its fixed slot array and the stream counters
    (src/obs/native_audio_bridge.cpp:635-749). Each method has exactly the effect that the step relation of
    module BridgeMachine gives it. */
module DelayRing {
  import opened BridgeMachine
  import G = GapRecovery
  import T = AudioTimeline
  import R = SpscRing

  const BLANK := G.Packet(0, 0, 0, false, true)

  datatype Slot = Slot(valid: bool, packet: Packet)

  predicate InWindow(read: nat, count: nat, i: nat)
  {
    0 <= R.Distance(RAW_CAPACITY, read, i) < count
  }

  /** The valid slots are exactly the `count` slots from the read index on. */
  ghost predicate RingOk(slots: seq<Slot>, read: nat, write: nat, count: nat)
  {
    |slots| == RAW_CAPACITY && read < RAW_CAPACITY && count <= RAW_CAPACITY &&
    write == R.Wrap(RAW_CAPACITY, read + count) < RAW_CAPACITY &&
    forall i :: 0 <= i < RAW_CAPACITY ==> (slots[i].valid <==> InWindow(read, count, i))
  }

  ghost function Stored(slots: seq<Slot>, read: nat, count: nat): (c: seq<Packet>)
    requires |slots| == RAW_CAPACITY && read < RAW_CAPACITY && count <= RAW_CAPACITY
    ensures |c| == count && forall i :: 0 <= i < count ==> c[i] == slots[R.Wrap(RAW_CAPACITY, read + i)].packet
  {
    seq(count, i requires 0 <= i < count => slots[R.Wrap(RAW_CAPACITY, read + i)].packet)
  }

  /** The slot at the write index of a ring that is not full is free, and filling it appends. */
  lemma FillAppends(slots: seq<Slot>, read: nat, write: nat, count: nat, p: Packet)
    requires RingOk(slots, read, write, count) && count < RAW_CAPACITY
    ensures !slots[write].valid
    ensures RingOk(slots[write := Slot(true, p)], read, R.Next(RAW_CAPACITY, write), count + 1)
    ensures Stored(slots[write := Slot(true, p)], read, count + 1) == Stored(slots, read, count) + [p]
  {
  }

  lemma ReleasePopsOldest(slots: seq<Slot>, read: nat, write: nat, count: nat)
    requires RingOk(slots, read, write, count) && count > 0
    ensures var freed := slots[read := slots[read].(valid := false)];
      slots[read].valid && RingOk(freed, R.Next(RAW_CAPACITY, read), write, count - 1) &&
      Stored(slots, read, count) == [slots[read].packet] + Stored(freed, R.Next(RAW_CAPACITY, read), count - 1)
  {
    var freed, next := slots[read := slots[read].(valid := false)], R.Next(RAW_CAPACITY, read);
    assert InWindow(read, count, read);
    forall i | 0 <= i < RAW_CAPACITY ensures freed[i].valid <==> InWindow(next, count - 1, i) {
    }
    var tail := Stored(freed, next, count - 1);
    forall i | 0 <= i < count - 1 ensures Stored(slots, read, count)[i + 1] == tail[i] {
      assert R.Wrap(RAW_CAPACITY, next + i) == R.Wrap(RAW_CAPACITY, read + (i + 1));
    }
    assert Stored(slots, read, count) == [slots[read].packet] + tail;
  }

  class CallbackState {
    const sampleRate: nat
    var slots: array<Slot>
    var readIndex: nat
    var writeIndex: nat
    var count: nat
    var stream: Stream

    ghost predicate Valid()
      reads this, slots
    {
      slots.Length == RAW_CAPACITY && RingOk(slots[..], readIndex, writeIndex, count)
    }

    ghost function Contents(): seq<Packet>
      reads this, slots
      requires Valid()
    {
      Stored(slots[..], readIndex, count)
    }

    constructor (rate: nat)
      ensures Valid() && Contents() == [] && stream == Stream(false, false, 0, 0) && sampleRate == rate
    {
      sampleRate := rate;
      slots := new Slot[RAW_CAPACITY](_ => Slot(false, BLANK));
      readIndex, writeIndex, count := 0, 0, 0;
      stream := Stream(false, false, 0, 0);
    }

    method ClearRawRing()
      requires Valid()
      modifies this`readIndex, this`writeIndex, this`count, slots
      ensures Valid() && Contents() == []
    {
      for i := 0 to slots.Length
        invariant forall j :: 0 <= j < i ==> !slots[j].valid
      {
        slots[i] := slots[i].(valid := false);
      }
      readIndex, writeIndex, count := 0, 0, 0;
    }

    /** Fails, clearing the ring, exactly when it is full: the slot found at the write index is never valid. */
    method CaptureRaw(p: Packet) returns (ok: bool)
      requires Valid()
      modifies this`readIndex, this`writeIndex, this`count, slots
      ensures Valid()
      ensures ok <==> |old(Contents())| < RAW_CAPACITY
      ensures Contents() == if ok then old(Contents()) + [p] else []
    {
      if count >= RAW_CAPACITY {
        ClearRawRing();
        return false;
      }
      FillAppends(slots[..], readIndex, writeIndex, count, p);
      if slots[writeIndex].valid {
        return false;
      }
      slots[writeIndex] := Slot(true, p);
      assert slots[..] == old(slots[..])[writeIndex := Slot(true, p)];
      writeIndex := if writeIndex + 1 == RAW_CAPACITY then 0 else writeIndex + 1;
      count := count + 1;
      return true;
    }

    /** The end of consume_ready: the oldest block leaves the ring. */
    method PopOldest() returns (p: Packet)
      requires Valid() && count > 0
      modifies this`readIndex, this`count, slots
      ensures Valid() && old(Contents()) == [p] + Contents()
    {
      ReleasePopsOldest(slots[..], readIndex, writeIndex, count);
      p := slots[readIndex].packet;
      slots[readIndex] := slots[readIndex].(valid := false);
      assert slots[..] == old(slots[..])[readIndex := old(slots[..])[readIndex].(valid := false)];
      readIndex := if readIndex + 1 == RAW_CAPACITY then 0 else readIndex + 1;
      count := count - 1;
    }

    /** begin_stream_block, with the caller's clearing of the ring on a discontinuity. */
    method BeginStreamBlock(timestamp: nat, frames: nat) returns (first: int, dropResults: bool)
      requires Valid()
      modifies this, slots
      ensures Valid() && slots == old(slots) && first == old(stream.nextFrame)
      ensures (stream, dropResults) == BeginBlock(old(stream), timestamp, frames, sampleRate)
      ensures Contents() == if stream.discontinuity then [] else old(Contents())
      ensures !stream.discontinuity ==> stream.nextFrame == first + frames
      ensures 0 <= first <= T.INT64_MAX ==>
        stream.discontinuity == dropResults &&
        (dropResults <==>
          (old(stream.hasStream) && !(old(stream.lastEnd) <= timestamp <= old(stream.lastEnd) + 1_000_000_000)) ||
          first + frames > T.INT64_MAX)
    {
      first := stream.nextFrame;
      dropResults := UpdateStream(timestamp, frames);
      if stream.discontinuity {
        ClearRawRing();
      }
    }

    method UpdateStream(timestamp: nat, frames: nat) returns (dropResults: bool)
      modifies this`stream
      ensures (stream, dropResults) == BeginBlock(old(stream), timestamp, frames, sampleRate)
      ensures !stream.discontinuity ==> stream.nextFrame == old(stream.nextFrame) + frames
    {
      var duration := Duration(frames, sampleRate);
      var discontinuity := false;
      dropResults := false;
      if stream.hasStream && (timestamp < stream.lastEnd || timestamp - stream.lastEnd > JUMP_NS) {
        discontinuity := true;
        dropResults := true;
      }
      var first := stream.nextFrame;
      stream := stream.(hasStream := true, discontinuity := discontinuity);
      if frames > T.INT64_MAX - (if first > 0 then first else 0) {
        stream := stream.(nextFrame := 0, discontinuity := true);
        dropResults := true;
      } else {
        stream := stream.(nextFrame := first + frames);
      }
      stream := stream.(lastEnd := AddTimestamp(timestamp, duration));
    }
  }
}

/** The core frame queue as an object over its slot array (src/core/audio_frame_queue.cpp). Each method, run
    without interference, is the same composition of ring steps that module SpscRing interleaves. */
module AudioFrameQueues {
  import opened Wrappers
  import R = SpscRing

  class AudioFrameQueue<T> {
    var slots: array<T>
    var head: nat
    var tail: nat
    var dropped: nat

    ghost function AsRing(): R.Ring<T>
      reads this, slots
    {
      R.Ring(slots[..], head, tail, dropped, R.Resting, R.Waiting)
    }

    ghost predicate Valid()
      reads this, slots
    {
      R.Inv(AsRing())
    }

    ghost function Contents(): seq<T>
      reads this, slots
      requires Valid()
    {
      R.Abs(AsRing())
    }

    constructor (capacity: nat, blank: T)
      ensures Valid() && fresh(slots)
      ensures Contents() == [] && dropped == 0 && slots.Length == if capacity == 0 then 1 else capacity + 1
    {
      var n := if capacity == 0 then 1 else capacity + 1;
      slots := new T[n](_ => blank);
      head, tail, dropped := 0, 0, 0;
    }

    method TryPush(frame: T) returns (ok: bool)
      requires Valid()
      modifies this, slots
      ensures Valid() && slots == old(slots)
      ensures AsRing() == R.Push(old(AsRing()), frame)
      ensures ok <==> |old(Contents())| < slots.Length - 1
      ensures Contents() == if ok then old(Contents()) + [frame] else old(Contents())
      ensures dropped == old(dropped) + if ok then 0 else 1
    {
      R.SuccessorsAgree(slots.Length, head);
      var next := (head + 1) % slots.Length;
      if next == tail {
        dropped := dropped + 1;
        return false;
      }
      slots[head] := frame;
      assert slots[..] == old(slots[..])[old(head) := frame];
      head := next;
      return true;
    }

    method TryPop() returns (frame: Option<T>)
      requires Valid()
      modifies this
      ensures Valid() && slots == old(slots) && slots[..] == old(slots[..])
      ensures (AsRing(), frame) == R.Pop(old(AsRing()))
      ensures frame.None? <==> old(Contents()) == []
      ensures frame.Some? ==> old(Contents()) == [frame.value] + Contents()
    {
      if tail == head {
        return None;
      }
      frame := Some(slots[tail]);
      R.SuccessorsAgree(slots.Length, tail);
      tail := (tail + 1) % slots.Length;
    }

    method Size() returns (n: nat)
      requires Valid()
      ensures n == |Contents()|
    {
      n := if head >= tail then head - tail else slots.Length - tail + head;
    }

    method CapacityOf() returns (n: nat)
      requires Valid()
      ensures n == R.Capacity(AsRing()) && |Contents()| <= n
    {
      n := if slots.Length == 1 then 0 else slots.Length - 1;
    }
  }
}

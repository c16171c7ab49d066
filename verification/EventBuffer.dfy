/** The overflow buffer between the event socket and the event handlers. */
module EventBuffer {
  import opened Common

  /** What a buffer holds: the events kept for replay, the events on their way to them, and two counters. */
  datatype Contents<E> = Contents(events: seq<E>, channel: seq<E>, dropped: int, processed: int)

  /** How many events a buffer can come to keep: one even when it has no room at all. */
  function Kept(maxSize: nat): nat { if maxSize == 0 then 1 else maxSize }

  /** `Enqueue` when the channel is full: the oldest kept event makes room for the new one. */
  function PushLocked<E>(b: Contents<E>, event: E): Contents<E>
  {
    if |b.events| > 0 then b.(events := b.events[1..] + [event], dropped := b.dropped + 1)
    else b.(events := [event])
  }

  function Enqueued<E>(b: Contents<E>, event: E, maxSize: nat): Contents<E>
  {
    if |b.channel| < maxSize then b.(channel := b.channel + [event]) else PushLocked(b, event)
  }

  /** A processed batch: appended, at the price of the batch's own number of oldest events if it does not fit. */
  function Batched<E>(b: Contents<E>, batch: seq<E>, maxSize: nat): Contents<E>
    requires |batch| <= maxSize
  {
    if |b.events| + |batch| <= maxSize then b.(events := b.events + batch)
    else b.(events := (b.events + batch)[|batch|..], dropped := b.dropped + |batch|)
  }

  /** Processing a batch keeps the bound, the events kept plus those dropped grow by the batch, and the oldest are
      dropped: none as long as all fit, otherwise as many as the batch holds. */
  lemma BatchIsAccounted<E>(b: Contents<E>, batch: seq<E>, maxSize: nat)
    requires |batch| <= maxSize && |b.events| <= Kept(maxSize)
    ensures var a := Batched(b, batch, maxSize);
            && |a.events| <= Kept(maxSize) && a.channel == b.channel && a.processed == b.processed
            && |a.events| + a.dropped == |b.events| + b.dropped + |batch|
            && a.dropped - b.dropped == (if |b.events| + |batch| <= maxSize then 0 else |batch|)
            && exists lost: seq<E> :: lost + a.events == b.events + batch && |lost| == a.dropped - b.dropped
  {
    var all := b.events + batch;
    if |all| <= maxSize {
      assert [] + all == all;
    } else {
      assert all[..|batch|] + all[|batch|..] == all;
    }
  }

  /** One event after the other, while nobody receives from the channel. */
  function EnqueuedAll<E>(b: Contents<E>, events: seq<E>, maxSize: nat): Contents<E>
    decreases |events|
  {
    if events == [] then b else EnqueuedAll(Enqueued(b, events[0], maxSize), events[1..], maxSize)
  }

  lemma {:induction false} FullChannel<E>(b: Contents<E>, events: seq<E>, maxSize: nat)
    requires |b.channel| >= maxSize
    ensures var a, all := EnqueuedAll(b, events, maxSize), b.events + events;
            && a.channel == b.channel && a.processed == b.processed
            && |a.events| == (if b.events == [] && events != [] then 1 else |b.events|)
            && a.events == all[|all| - |a.events|..] && a.dropped - b.dropped == |all| - |a.events|
    decreases |events|
  {
    if events == [] {
      assert b.events + [] == b.events;
    } else {
      var n := PushLocked(b, events[0]);
      FullChannel(n, events[1..], maxSize);
      if b.events == [] {
        assert n.events + events[1..] == b.events + events;
      } else {
        assert b.events + events == [b.events[0]] + (n.events + events[1..]);
      }
    }
  }

  lemma RoomInChannel<E>(b: Contents<E>, events: seq<E>, maxSize: nat, k: nat)
    requires 0 < k <= |events| && |b.channel| < maxSize
    ensures var n := b.(channel := b.channel + [events[0]]);
            && EnqueuedAll(b, events, maxSize) == EnqueuedAll(n, events[1..], maxSize)
            && n.channel + events[1..][..k - 1] == b.channel + events[..k] && events[1..][k - 1..] == events[k..]
  {
    assert events[..k] == [events[0]] + events[1..][..k - 1];
  }

  /** The channel takes the first events, as many as it has room for. Of the events kept and the others together the
      latest are kept, as many as were kept before, or one if there was none; each event displaced is counted. */
  lemma {:induction false} LatestAreKept<E>(b: Contents<E>, events: seq<E>, maxSize: nat)
    requires |b.channel| <= maxSize
    ensures var k := Min(|events|, maxSize - |b.channel|);
            var a, others := EnqueuedAll(b, events, maxSize), b.events + events[k..];
            && a.channel == b.channel + events[..k] && a.processed == b.processed
            && |a.events| == (if b.events == [] && k < |events| then 1 else |b.events|)
            && a.events == others[|others| - |a.events|..]
            && a.dropped - b.dropped == |others| - |a.events|
    decreases |events|
  {
    hide EnqueuedAll;
    var k := Min(|events|, maxSize - |b.channel|);
    if k == 0 {
      NothingEnqueued(b, maxSize);
      assert events[0..] == events && events[..0] == [] && b.channel + [] == b.channel && b.events + [] == b.events;
      if events != [] { FullChannel(b, events, maxSize); }
    } else {
      RoomInChannel(b, events, maxSize, k);
      LatestAreKept(b.(channel := b.channel + [events[0]]), events[1..], maxSize);
    }
  }

  lemma NothingEnqueued<E>(b: Contents<E>, maxSize: nat)
    ensures EnqueuedAll(b, [], maxSize) == b
  {
  }

  lemma Slices<E>(all: seq<E>, lo: nat, hi: nat)
    requires lo <= hi <= |all|
    ensures all[0..hi][lo..] == all[lo..hi]
    ensures hi < |all| ==> all[lo..hi] + [all[hi]] == all[lo..hi + 1]
  {
  }

  /** A batch processed is a prefix evicted: none of it when all fits, and as many as the batch holds otherwise. */
  lemma BatchedIs<E>(b: Contents<E>, batch: seq<E>, maxSize: nat, evicted: nat)
    requires (evicted == 0 && (batch == [] || |b.events| + |batch| <= maxSize))
          || (evicted == |batch| <= maxSize < |b.events| + |batch|)
    requires |b.events| <= Kept(maxSize)
    ensures |batch| <= maxSize
    ensures var all := b.events + batch;
            Batched(b, batch, maxSize) == b.(events := all[evicted..|all|], dropped := b.dropped + evicted)
    ensures |b.events| + |batch| - evicted <= Kept(maxSize)
  {
    var all := b.events + batch;
    assert all[0..|all|] == all;
  }

  class Buffer<E> {
    const maxSize: nat
    var events: seq<E>
    var eventChan: seq<E>
    var dropped: int
    var processed: int

    function View(): Contents<E>
      reads this
    {
      Contents(events, eventChan, dropped, processed)
    }

    predicate Valid()
      reads this
    {
      |events| <= Kept(maxSize) && |eventChan| <= maxSize
    }

    constructor (maxSize: nat)
      ensures this.maxSize == maxSize && Valid() && View() == Contents([], [], 0, 0)
    {
      this.maxSize := maxSize;
      events, eventChan, dropped, processed := [], [], 0, 0;
    }

    /** A channel without capacity takes an event only while the batcher waits at it, and hands it straight over. */
    method Enqueue(event: E, batcherWaits: bool) returns (handedOver: bool)
      requires Valid()
      modifies this
      ensures Valid() && (handedOver <==> maxSize == 0 && batcherWaits)
      ensures View() == if handedOver then old(View()) else Enqueued(old(View()), event, maxSize)
    {
      if maxSize == 0 && batcherWaits {
        return true;
      }
      handedOver := false;
      if |eventChan| < maxSize {
        eventChan := eventChan + [event];
      } else {
        if |events| > 0 {
          events := events[1..];
          dropped := dropped + 1;
        }
        events := events + [event];
      }
    }

    method Dequeue() returns (event: Option<E>)
      requires Valid()
      modifies this
      ensures Valid()
      ensures event == (if old(events) == [] then None else Some(old(events)[0]))
      ensures View() == if old(events) == [] then old(View())
                        else old(View()).(events := old(events)[1..], processed := old(processed) + 1)
    {
      if |events| == 0 {
        return None;
      }
      event := Some(events[0]);
      events := events[1..];
      processed := processed + 1;
    }

    method Flush() returns (flushed: seq<E>)
      requires Valid()
      modifies this
      ensures Valid() && flushed == old(events) && View() == old(View()).(events := [])
    {
      flushed := events;
      events := [];
    }

    /** `ok` is false where the slice expression of the source is out of range and the process dies. */
    method ProcessBatch(batch: seq<E>) returns (ok: bool)
      requires Valid()
      modifies this
      ensures ok <==> |batch| <= maxSize
      ensures ok ==> Valid() && View() == Batched(old(View()), batch, maxSize)
    {
      hide Batched;
      ghost var all := events + batch;
      ghost var k, evicted: nat := |events|, 0;
      var i := 0;
      while i < |batch|
        invariant 0 <= i <= |batch| && eventChan == old(eventChan) && processed == old(processed)
        invariant evicted <= k + i && events == all[evicted..k + i] && dropped == old(dropped) + evicted
        invariant (evicted == 0 && (i == 0 || k + i <= maxSize))
               || (evicted == |batch| <= maxSize < k + i)
      {
        var event := batch[i];
        if |events| >= maxSize {
          var overflow := |events| + |batch| - maxSize;
          if overflow > 0 {
            if overflow > |events| {
              return false;
            }
            Slices(all, overflow, k + i);
            events := events[overflow..];
            dropped := dropped + overflow;
            assert evicted == 0 && overflow == |batch|;
            evicted := overflow;
          }
        }
        assert events == all[evicted..k + i] && all[k + i] == event;
        Slices(all, evicted, k + i);
        events := events + [event];
        i := i + 1;
      }
      BatchedIs(old(View()), batch, maxSize, evicted);
      return true;
    }

    /** The loop of the background goroutine for one received event: the batch so far, and whether the
        receipt filled it. */
    method Receive(batch: seq<E>) returns (longer: seq<E>, full: bool)
      requires Valid() && |eventChan| > 0
      modifies this
      ensures Valid() && View() == old(View()).(channel := old(eventChan)[1..])
      ensures longer == batch + [old(eventChan)[0]] && (full <==> |longer| >= 100)
    {
      longer := batch + [eventChan[0]];
      eventChan := eventChan[1..];
      full := |longer| >= 100;
    }
  }
}

/** The event socket's client: reader, event processor, background batcher and replay on reconnect, as
    atomic steps of concurrent goroutines over bounded channels. */
module EventPipeline {
  import opened Common
  import opened EventBuffer

  const CLIENT_CAPACITY: nat := 1000
  const BATCH_CAPACITY: nat := 100

  /** Where the connection goroutine tries to put the event in its hand next. */
  datatype Stage = ToClient | ToChannel | ToEvents

  /** `hand` is what the connection goroutine holds: an event just read, or the rest of a replay.
      `flushing` says the batcher waits for the buffer's lock to process its batch. `read`, `handled` and
      `lost` record the history. */
  datatype State<E> = State(
    read: seq<E>, hand: seq<E>, stage: Stage, clientChan: seq<E>, handled: seq<E>,
    buffer: Contents<E>, lost: seq<E>, batch: seq<E>, flushing: bool, crashed: bool)

  datatype Step<E> =
    | Read(event: E)      // the reader has read an event from the socket
    | Replay              // a reconnect: the kept events are flushed into the connection goroutine's hand
    | Deliver             // one channel operation or locked region for the event in hand
    | HandOver            // a channel without capacity hands the event in hand to the waiting batcher
    | Handle              // the event processor takes an event
    | Receive             // the batcher takes an event from the buffer's channel
    | Tick                // the batcher's ticker fires
    | Process             // the batcher gets the lock and processes its batch

  function Init<E>(): State<E>
  {
    State([], [], ToClient, [], [], Contents([], [], 0, 0), [], [], false, false)
  }

  function DeliverNext<E>(s: State<E>, maxSize: nat): State<E>
    requires s.hand != []
  {
    var event, rest := s.hand[0], s.hand[1..];
    match s.stage
    case ToClient =>
      if |s.clientChan| < CLIENT_CAPACITY then s.(clientChan := s.clientChan + [event], hand := rest)
      else s.(stage := ToChannel)
    case ToChannel =>
      if |s.buffer.channel| < maxSize
      then s.(buffer := s.buffer.(channel := s.buffer.channel + [event]), hand := rest, stage := ToClient)
      else s.(stage := ToEvents)
    case ToEvents =>
      s.(buffer := PushLocked(s.buffer, event), hand := rest, stage := ToClient,
         lost := s.lost + s.buffer.events[..if |s.buffer.events| > 0 then 1 else 0])
  }

  function ProcessNext<E>(s: State<E>, maxSize: nat): State<E>
  {
    if |s.batch| > maxSize then s.(crashed := true)
    else
      var after := Batched(s.buffer, s.batch, maxSize);
      var evicted := if |s.buffer.events| + |s.batch| <= maxSize then 0 else |s.batch|;
      s.(buffer := after, batch := [], flushing := false,
         lost := s.lost + (s.buffer.events + s.batch)[..evicted])
  }

  /** One step; a step that is not enabled, and every step after a crash, changes nothing. */
  function Next<E>(s: State<E>, step: Step<E>, maxSize: nat): State<E>
  {
    if s.crashed then s
    else
      match step
      case Read(e) => if s.hand == [] then s.(hand := [e], read := s.read + [e]) else s
      case Replay => if s.hand == [] then s.(hand := s.buffer.events, buffer := s.buffer.(events := [])) else s
      case Deliver => if s.hand != [] then DeliverNext(s, maxSize) else s
      case HandOver =>
        if s.hand == [] || s.stage != ToChannel || maxSize > 0 || s.flushing then s
        else
          var batch := s.batch + [s.hand[0]];
          s.(hand := s.hand[1..], stage := ToClient, batch := batch, flushing := |batch| >= BATCH_CAPACITY)
      case Handle =>
        if s.clientChan != [] then s.(handled := s.handled + [s.clientChan[0]], clientChan := s.clientChan[1..]) else s
      case Receive =>
        if s.flushing || s.buffer.channel == [] then s
        else
          var batch := s.batch + [s.buffer.channel[0]];
          s.(batch := batch, buffer := s.buffer.(channel := s.buffer.channel[1..]),
             flushing := |batch| >= BATCH_CAPACITY)
      case Tick => if !s.flushing && s.batch != [] then s.(flushing := true) else s
      case Process => if s.flushing then ProcessNext(s, maxSize) else s
  }

  function Run<E>(s: State<E>, steps: seq<Step<E>>, maxSize: nat): State<E>
    decreases |steps|
  {
    if steps == [] then s else Run(Next(s, steps[0], maxSize), steps[1..], maxSize)
  }

  // ---------------------------------------------------------------- safety over every interleaving

  /** Every event read is in exactly one place. */
  ghost predicate Conserved<E>(s: State<E>)
  {
    multiset(s.read) == multiset(s.handled) + multiset(s.clientChan) + multiset(s.buffer.channel) + multiset(s.batch)
                        + multiset(s.buffer.events) + multiset(s.hand) + multiset(s.lost)
  }

  predicate Bounded<E>(s: State<E>, maxSize: nat)
  {
    && |s.clientChan| <= CLIENT_CAPACITY && |s.buffer.channel| <= maxSize && |s.buffer.events| <= Kept(maxSize)
    && |s.batch| <= BATCH_CAPACITY && (s.flushing ==> s.batch != []) && (!s.flushing ==> |s.batch| < BATCH_CAPACITY)
    && |s.hand| <= Kept(maxSize)
    && (s.stage != ToClient ==> s.hand != [])
    && s.buffer.dropped == |s.lost|
  }

  lemma HeadAndTail<E>(q: seq<E>)
    requires q != []
    ensures multiset(q) == multiset{q[0]} + multiset(q[1..])
  {
    assert q == [q[0]] + q[1..];
  }

  lemma TwoParts<E>(q: seq<E>, n: nat)
    requires n <= |q|
    ensures multiset(q) == multiset(q[..n]) + multiset(q[n..])
  {
    assert q == q[..n] + q[n..];
  }

  /** The oldest kept event is dropped and the event in hand takes the last place. */
  lemma PushConserves<E>(s: State<E>, event: E, rest: seq<E>)
    requires s.hand == [event] + rest && Conserved(s)
    ensures var pushed := s.(buffer := PushLocked(s.buffer, event), hand := rest);
            Conserved(pushed.(lost := s.lost + s.buffer.events[..if |s.buffer.events| > 0 then 1 else 0],
                              stage := ToClient))
  {
    hide Conserved;
    var events := s.buffer.events;
    var pushed := PushLocked(s.buffer, event);
    if |events| > 0 {
      PushOverOldest(s, event, rest, pushed.dropped);
      assert s.lost + events[..1] == s.lost + [events[0]];
    } else {
      PushBehind(s, event, rest);
      assert s.lost + events[..0] == s.lost;
      assert pushed.events == events + [event];
    }
  }

  lemma PushOverOldest<E>(s: State<E>, event: E, rest: seq<E>, dropped: int)
    requires s.hand == [event] + rest && Conserved(s) && |s.buffer.events| > 0
    ensures var oldest, others := s.buffer.events[0], s.buffer.events[1..];
            Conserved(s.(buffer := s.buffer.(events := others + [event], dropped := dropped),
                         hand := rest, lost := s.lost + [oldest], stage := ToClient))
  {
    var oldest, others := s.buffer.events[0], s.buffer.events[1..];
    HeadAndTail(s.buffer.events);
    assert multiset(s.hand) == multiset{event} + multiset(rest);
    assert multiset(s.lost + [oldest]) == multiset(s.lost) + multiset{oldest};
    assert multiset(others + [event]) == multiset(others) + multiset{event};
  }

  lemma PushBehind<E>(s: State<E>, event: E, rest: seq<E>)
    requires s.hand == [event] + rest && Conserved(s)
    ensures Conserved(s.(buffer := s.buffer.(events := s.buffer.events + [event]), hand := rest, stage := ToClient))
  {
  }

  lemma DeliverConserves<E>(s: State<E>, maxSize: nat)
    requires s.hand != [] && Conserved(s)
    ensures Conserved(DeliverNext(s, maxSize))
  {
    hide Conserved, PushLocked;
    var event, rest := s.hand[0], s.hand[1..];
    assert s.hand == [event] + rest;
    match s.stage
    case ToClient =>
      ToClientConserves(s);
      FlagsDoNotCount(s, s.(stage := ToChannel));
    case ToChannel =>
      ToChannelConserves(s);
      FlagsDoNotCount(s, s.(stage := ToEvents));
    case ToEvents => PushConserves(s, event, rest);
  }

  lemma ToClientConserves<E>(s: State<E>)
    requires Conserved(s) && s.hand != []
    ensures Conserved(s.(clientChan := s.clientChan + [s.hand[0]], hand := s.hand[1..]))
  {
    HeadAndTail(s.hand);
    assert multiset(s.clientChan + [s.hand[0]]) == multiset(s.clientChan) + multiset{s.hand[0]};
  }

  lemma ToChannelConserves<E>(s: State<E>)
    requires Conserved(s) && s.hand != []
    ensures Conserved(s.(buffer := s.buffer.(channel := s.buffer.channel + [s.hand[0]]), hand := s.hand[1..],
                         stage := ToClient))
  {
    HeadAndTail(s.hand);
    assert multiset(s.buffer.channel + [s.hand[0]]) == multiset(s.buffer.channel) + multiset{s.hand[0]};
  }

  lemma DeliverIsBounded<E>(s: State<E>, maxSize: nat)
    requires s.hand != [] && Bounded(s, maxSize)
    ensures Bounded(DeliverNext(s, maxSize), maxSize)
  {
  }

  lemma ProcessConserves<E>(s: State<E>, maxSize: nat)
    requires Conserved(s)
    ensures Conserved(ProcessNext(s, maxSize))
  {
    hide Conserved;
    var all, n := s.buffer.events + s.batch, ProcessNext(s, maxSize);
    if |s.batch| > maxSize {
      FlagsDoNotCount(s, s.(crashed := true));
    } else {
      var evicted := if |all| <= maxSize then 0 else |s.batch|;
      EvictConserves(s, evicted, n.buffer.dropped);
      assert all[0..] == all;
      assert n.buffer.events == all[evicted..];
    }
  }

  /** The first of what was kept and what was in the batch are dropped, the others kept. */
  lemma EvictConserves<E>(s: State<E>, evicted: nat, dropped: int)
    requires Conserved(s) && evicted <= |s.buffer.events + s.batch|
    ensures var all := s.buffer.events + s.batch;
            Conserved(s.(buffer := s.buffer.(events := all[evicted..], dropped := dropped), batch := [],
                         flushing := false, lost := s.lost + all[..evicted]))
  {
    var all := s.buffer.events + s.batch;
    TwoParts(all, evicted);
    assert multiset(all) == multiset(s.buffer.events) + multiset(s.batch);
    assert multiset(s.lost + all[..evicted]) == multiset(s.lost) + multiset(all[..evicted]);
    Redistributed(multiset(s.handled) + multiset(s.clientChan) + multiset(s.buffer.channel), multiset(s.batch),
                  multiset(s.buffer.events), multiset(s.hand), multiset(s.lost), multiset(all[evicted..]),
                  multiset(all[..evicted]));
  }

  lemma Redistributed<E>(others: multiset<E>, batch: multiset<E>, events: multiset<E>, hand: multiset<E>,
                         lost: multiset<E>, kept: multiset<E>, evicted: multiset<E>)
    requires events + batch == evicted + kept
    ensures others + batch + events + hand + lost == others + multiset{} + kept + hand + (lost + evicted)
  {
    forall e
      ensures (others + batch + events + hand + lost)[e] == (others + multiset{} + kept + hand + (lost + evicted))[e]
    {
      assert (events + batch)[e] == (evicted + kept)[e];
    }
  }

  lemma ProcessIsBounded<E>(s: State<E>, maxSize: nat)
    requires s.flushing && Bounded(s, maxSize)
    ensures Bounded(ProcessNext(s, maxSize), maxSize)
    ensures ProcessNext(s, maxSize).crashed ==> s.crashed || |s.batch| > maxSize
  {
  }

  lemma StepConserves<E>(s: State<E>, step: Step<E>, maxSize: nat)
    requires Conserved(s)
    ensures Conserved(Next(s, step, maxSize))
  {
    hide DeliverNext, ProcessNext, Conserved;
    match step
    case Read(e) => if s.hand == [] { ReadConserves(s, e); }
    case Replay => if s.hand == [] { ReplayConserves(s); }
    case Deliver => if s.hand != [] { DeliverConserves(s, maxSize); }
    case HandOver => if s.hand != [] { HandOverConserves(s, |s.batch| + 1 >= BATCH_CAPACITY); }
    case Handle => if s.clientChan != [] { HandleConserves(s); }
    case Receive => if s.buffer.channel != [] { ReceiveConserves(s, |s.batch| + 1 >= BATCH_CAPACITY); }
    case Tick => FlagsDoNotCount(s, s.(flushing := true));
    case Process => if s.flushing { ProcessConserves(s, maxSize); }
  }

  lemma FlagsDoNotCount<E>(s: State<E>, t: State<E>)
    requires Conserved(s) && s == t.(stage := s.stage, flushing := s.flushing, crashed := s.crashed)
    ensures Conserved(t)
  {
  }

  lemma ReadConserves<E>(s: State<E>, e: E)
    requires Conserved(s) && s.hand == []
    ensures Conserved(s.(hand := [e], read := s.read + [e]))
  {
  }

  lemma ReplayConserves<E>(s: State<E>)
    requires Conserved(s) && s.hand == []
    ensures Conserved(s.(hand := s.buffer.events, buffer := s.buffer.(events := [])))
  {
  }

  lemma HandleConserves<E>(s: State<E>)
    requires Conserved(s) && s.clientChan != []
    ensures Conserved(s.(handled := s.handled + [s.clientChan[0]], clientChan := s.clientChan[1..]))
  {
    HeadAndTail(s.clientChan);
    assert multiset(s.handled + [s.clientChan[0]]) == multiset(s.handled) + multiset{s.clientChan[0]};
  }

  lemma HandOverConserves<E>(s: State<E>, full: bool)
    requires Conserved(s) && s.hand != []
    ensures Conserved(s.(hand := s.hand[1..], stage := ToClient, batch := s.batch + [s.hand[0]], flushing := full))
  {
    HeadAndTail(s.hand);
    assert multiset(s.batch + [s.hand[0]]) == multiset(s.batch) + multiset{s.hand[0]};
  }

  lemma ReceiveConserves<E>(s: State<E>, full: bool)
    requires Conserved(s) && s.buffer.channel != []
    ensures Conserved(s.(batch := s.batch + [s.buffer.channel[0]],
                         buffer := s.buffer.(channel := s.buffer.channel[1..]), flushing := full))
  {
    HeadAndTail(s.buffer.channel);
    assert multiset(s.batch + [s.buffer.channel[0]]) == multiset(s.batch) + multiset{s.buffer.channel[0]};
  }

  lemma StepIsBounded<E>(s: State<E>, step: Step<E>, maxSize: nat)
    requires Bounded(s, maxSize)
    ensures Bounded(Next(s, step, maxSize), maxSize)
    ensures maxSize >= BATCH_CAPACITY && !s.crashed ==> !Next(s, step, maxSize).crashed
  {
    hide DeliverNext, ProcessNext;
    match step
    case Read(_) =>
    case Replay =>
    case Deliver => if s.hand != [] { DeliverIsBounded(s, maxSize); DeliverNeverCrashes(s, maxSize); }
    case HandOver =>
    case Handle =>
    case Receive =>
    case Tick =>
    case Process => if s.flushing { ProcessIsBounded(s, maxSize); }
  }

  lemma DeliverNeverCrashes<E>(s: State<E>, maxSize: nat)
    requires s.hand != []
    ensures DeliverNext(s, maxSize).crashed == s.crashed
  {
  }

  lemma {:induction false} RunIsSafe<E>(s: State<E>, steps: seq<Step<E>>, maxSize: nat)
    requires Conserved(s) && Bounded(s, maxSize)
    ensures Conserved(Run(s, steps, maxSize)) && Bounded(Run(s, steps, maxSize), maxSize)
    ensures maxSize >= BATCH_CAPACITY && !s.crashed ==> !Run(s, steps, maxSize).crashed
    decreases |steps|
  {
    hide Conserved, Bounded, Next;
    if steps == [] {
    } else {
      StepConserves(s, steps[0], maxSize);
      StepIsBounded(s, steps[0], maxSize);
      RunIsSafe(Next(s, steps[0], maxSize), steps[1..], maxSize);
    }
  }

  /** Whatever the goroutines' interleaving, each event read has been handled, dropped, or is held in exactly
      one place; the drop counter counts the dropped events; every queue keeps its bound; and with room for a
      full batch the process never dies. */
  lemma EveryEventIsAccountedFor<E>(steps: seq<Step<E>>, maxSize: nat)
    ensures var s := Run(Init(), steps, maxSize);
            && Conserved(s) && Bounded(s, maxSize) && s.buffer.dropped == |s.lost|
            && |s.clientChan| <= 1000 && |s.buffer.channel| <= maxSize && |s.batch| <= 100
            && |s.buffer.events| <= (if maxSize == 0 then 1 else maxSize)
            && |s.hand| <= (if maxSize == 0 then 1 else maxSize)
            && (maxSize >= 100 ==> !s.crashed)
  {
    RunIsSafe<E>(Init(), steps, maxSize);
  }

  ghost predicate NoRepeats<E>(q: seq<E>)
  {
    forall i, j :: 0 <= i < j < |q| ==> q[i] != q[j]
  }

  lemma {:induction false} NoRepeatsCounts<E>(q: seq<E>)
    ensures NoRepeats(q) <==> forall e :: e in multiset(q) ==> multiset(q)[e] == 1
  {
    if q == [] {
    } else {
      var rest := q[1..];
      HeadAndTail(q);
      NoRepeatsCounts(rest);
      assert NoRepeats(q) <==> NoRepeats(rest) && q[0] !in rest by {
        assert forall i :: 0 <= i < |rest| ==> rest[i] == q[i + 1];
        assert forall i :: 1 <= i < |q| ==> q[i] == rest[i - 1];
      }
      var all, tail := multiset(q), multiset(rest);
      assert forall e :: all[e] == (if e == q[0] then 1 else 0) + tail[e];
      assert q[0] in all && (q[0] in rest <==> q[0] in tail);
      if forall e :: e in all ==> all[e] == 1 {
        forall e | e in tail ensures tail[e] == 1 { assert e in all; }
      }
    }
  }

  /** When no two events read are equal, no event is handled twice, and none is both handled and dropped. */
  lemma NothingIsHandledTwice<E>(steps: seq<Step<E>>, maxSize: nat)
    requires NoRepeats(Run(Init(), steps, maxSize).read)
    ensures var s := Run(Init(), steps, maxSize);
            NoRepeats(s.handled) && (forall e :: e in s.handled ==> e in s.read && e !in s.lost)
  {
    hide Run, NoRepeats;
    var s := Run(Init(), steps, maxSize);
    RunIsSafe<E>(Init(), steps, maxSize);
    NoRepeatsCounts(s.read);
    NoRepeatsCounts(s.handled);
    forall e | e in s.handled ensures e in s.read && e !in s.lost && multiset(s.handled)[e] == 1 {
      assert e in multiset(s.handled);
      assert multiset(s.read)[e] >= multiset(s.handled)[e] + multiset(s.lost)[e];
      assert e in multiset(s.read);
    }
  }

  // ---------------------------------------------------------------- when the process can die

  lemma {:induction false} RunAppend<E>(s: State<E>, a: seq<Step<E>>, b: seq<Step<E>>, maxSize: nat)
    ensures Run(s, a + b, maxSize) == Run(Run(s, a, maxSize), b, maxSize)
    decreases |a|
  {
    hide Next;
    if a == [] {
      assert a + b == b;
    } else {
      assert (a + b)[1..] == a[1..] + b;
      RunAppend(Next(s, a[0], maxSize), a[1..], b, maxSize);
    }
  }

  function Copies<E>(e: E, n: nat): seq<E>
  {
    if n == 0 then [] else Copies(e, n - 1) + [e]
  }

  lemma CopiesLength<E>(e: E, n: nat)
    ensures |Copies(e, n)| == n
  {
  }

  /** `n` events have been read and have filled the client's channel, which nobody empties. */
  function Filled<E>(e: E, n: nat): State<E>
  {
    Init<E>().(read := Copies(e, n), clientChan := Copies(e, n))
  }

  lemma {:induction false} FillClient<E>(e: E, n: nat, maxSize: nat) returns (steps: seq<Step<E>>)
    requires n <= CLIENT_CAPACITY
    ensures Run(Init(), steps, maxSize) == Filled(e, n)
  {
    if n == 0 {
      steps := [];
    } else {
      var before := FillClient(e, n - 1, maxSize);
      CopiesLength(e, n - 1);
      var s0 := Filled(e, n - 1);
      var s1 := s0.(hand := [e], read := Copies(e, n));
      assert Next(s0, Read(e), maxSize) == s1;
      assert Next(s1, Deliver, maxSize) == Filled(e, n);
      RunTwo(s0, Read(e), Deliver, maxSize);
      steps := before + [Read(e), Deliver];
      RunAppend(Init(), before, [Read(e), Deliver], maxSize);
    }
  }

  lemma RunTwo<E>(s: State<E>, a: Step<E>, b: Step<E>, maxSize: nat)
    ensures Run(s, [a, b], maxSize) == Next(Next(s, a, maxSize), b, maxSize)
  {
    hide Next;
    assert [a, b][1..] == [b] && [b][1..] == [];
    var x := Next(s, a, maxSize);
    assert Run(x, [b], maxSize) == Run(Next(x, b, maxSize), [], maxSize);
  }

  /** Past a full client channel, `n` more events have reached the batcher. */
  function Overflowed<E>(e: E, n: nat): State<E>
  {
    Filled(e, CLIENT_CAPACITY).(read := Copies(e, CLIENT_CAPACITY + n), batch := Copies(e, n),
                                flushing := n >= BATCH_CAPACITY)
  }

  lemma {:induction false} FillBatch<E>(e: E, n: nat, maxSize: nat) returns (steps: seq<Step<E>>)
    requires n <= BATCH_CAPACITY && maxSize > 0
    ensures Run(Init(), steps, maxSize) == Overflowed(e, n)
  {
    if n == 0 {
      steps := FillClient(e, CLIENT_CAPACITY, maxSize);
    } else {
      var before := FillBatch(e, n - 1, maxSize);
      var round := [Read(e), Deliver, Deliver, Receive];
      OneOverflow(e, n - 1, maxSize);
      steps := before + round;
      RunAppend(Init(), before, round, maxSize);
    }
  }

  lemma OneOverflow<E>(e: E, n: nat, maxSize: nat)
    requires n < BATCH_CAPACITY && maxSize > 0
    ensures Run(Overflowed(e, n), [Read(e), Deliver, Deliver, Receive], maxSize) == Overflowed(e, n + 1)
  {
    hide Run;
    CopiesLength(e, CLIENT_CAPACITY);
    CopiesLength(e, n);
    var s0 := Overflowed(e, n);
    var s1 := s0.(hand := [e], read := Copies(e, CLIENT_CAPACITY + n + 1));
    assert Next(s0, Read(e), maxSize) == s1;
    var s2 := s1.(stage := ToChannel);
    assert Next(s1, Deliver, maxSize) == s2;
    var s3 := s2.(hand := [], stage := ToClient, buffer := s2.buffer.(channel := [e]));
    assert Next(s2, Deliver, maxSize) == s3;
    assert Next(s3, Receive, maxSize) == Overflowed(e, n + 1);
    RunTwo(s0, Read(e), Deliver, maxSize);
    RunTwo(s2, Deliver, Receive, maxSize);
    RunAppend(s0, [Read(e), Deliver], [Deliver, Receive], maxSize);
    assert [Read(e), Deliver] + [Deliver, Receive] == [Read(e), Deliver, Deliver, Receive];
  }

  /** With no room at all one event is enough: the batcher takes it as a batch of one. */
  lemma HandedOver<E>(e: E)
    ensures Run(Filled(e, CLIENT_CAPACITY), [Read(e), Deliver, HandOver], 0) == Overflowed(e, 1)
  {
    hide Run;
    CopiesLength(e, CLIENT_CAPACITY);
    var s0 := Filled(e, CLIENT_CAPACITY);
    var s1 := s0.(hand := [e], read := Copies(e, CLIENT_CAPACITY + 1));
    assert Next(s0, Read(e), 0) == s1;
    var s2 := s1.(stage := ToChannel);
    assert Next(s1, Deliver, 0) == s2;
    assert Copies(e, 1) == [] + [e] by { assert Copies(e, 0) == []; }
    assert Next(s2, HandOver, 0) == Overflowed(e, 1);
    RunTwo(s0, Read(e), Deliver, 0);
    RunOne(s2, HandOver, 0);
    RunAppend(s0, [Read(e), Deliver], [HandOver], 0);
    assert [Read(e), Deliver] + [HandOver] == [Read(e), Deliver, HandOver];
  }

  lemma RunOne<E>(s: State<E>, step: Step<E>, maxSize: nat)
    ensures Run(s, [step], maxSize) == Next(s, step, maxSize)
  {
    hide Next;
    assert [step][1..] == [];
  }

  /** A batch one longer than the buffer can be brought about. */
  lemma Oversize<E>(e: E, maxSize: nat) returns (steps: seq<Step<E>>)
    requires maxSize < BATCH_CAPACITY
    ensures Run(Init(), steps, maxSize) == Overflowed(e, maxSize + 1)
  {
    hide Next;
    if maxSize == 0 {
      var before := FillClient(e, CLIENT_CAPACITY, 0);
      var round := [Read(e), Deliver, HandOver];
      HandedOver(e);
      RunAppend(Init(), before, round, 0);
      steps := before + round;
    } else {
      steps := FillBatch(e, maxSize + 1, maxSize);
    }
  }

  /** The process can die exactly when the buffer is smaller than a full batch. */
  lemma DiesOnlyOnSmallBuffers<E>(e: E, maxSize: nat)
    ensures (exists steps: seq<Step<E>> :: Run(Init(), steps, maxSize).crashed) <==> maxSize < 100
  {
    hide Next;
    if maxSize < BATCH_CAPACITY {
      var before := Oversize(e, maxSize);
      var steps := before + [Tick, Process];
      RunAppend(Init(), before, [Tick, Process], maxSize);
      OversizedBatch(e, maxSize);
      assert Run(Init(), steps, maxSize).crashed;
    } else {
      forall steps: seq<Step<E>> ensures !Run(Init(), steps, maxSize).crashed {
        RunIsSafe<E>(Init(), steps, maxSize);
      }
    }
  }

  lemma OversizedBatch<E>(e: E, maxSize: nat)
    requires maxSize < BATCH_CAPACITY
    ensures Run(Overflowed(e, maxSize + 1), [Tick, Process], maxSize).crashed
  {
    CopiesLength(e, maxSize + 1);
    RunTwo(Overflowed(e, maxSize + 1), Tick, Process, maxSize);
  }

  // ---------------------------------------------------------------- the client's methods

  /** What the connection goroutine delivers to: the client's channel, the buffer if there is one, and the batcher. */
  datatype Queues<E> = Queues(clientChan: seq<E>, buffer: Option<Contents<E>>, handedOver: seq<E>)

  /** An event offered to the client's channel and, when that is full, to the buffer; without one it is gone. */
  function Offered<E>(q: Queues<E>, event: E, maxSize: nat, batcherWaits: bool): Queues<E>
  {
    if |q.clientChan| < CLIENT_CAPACITY then q.(clientChan := q.clientChan + [event])
    else if q.buffer.None? then q
    else if maxSize == 0 && batcherWaits then q.(handedOver := q.handedOver + [event])
    else q.(buffer := Some(Enqueued(q.buffer.value, event, maxSize)))
  }

  /** `batcherWaits` says of each event whether the batcher waits when it is offered. */
  function OfferedAll<E>(q: Queues<E>, events: seq<E>, maxSize: nat, batcherWaits: seq<bool>): Queues<E>
    requires |batcherWaits| == |events|
    decreases |events|
  {
    if events == [] then q
    else OfferedAll(Offered(q, events[0], maxSize, batcherWaits[0]), events[1..], maxSize, batcherWaits[1..])
  }

  /** Without a buffer the channel takes what it has room for and the other events are lost. */
  lemma {:induction false} WithoutBuffer<E>(q: Queues<E>, events: seq<E>, maxSize: nat, batcherWaits: seq<bool>)
    requires q.buffer.None? && |q.clientChan| <= 1000 && |batcherWaits| == |events|
    ensures OfferedAll(q, events, maxSize, batcherWaits) ==
            q.(clientChan := q.clientChan + events[..Min(|events|, 1000 - |q.clientChan|)])
    decreases |events|
  {
    if events == [] {
      assert q.clientChan + [] == q.clientChan;
    } else {
      var next := Offered(q, events[0], maxSize, batcherWaits[0]);
      WithoutBuffer(next, events[1..], maxSize, batcherWaits[1..]);
      var room := Min(|events|, CLIENT_CAPACITY - |q.clientChan|);
      if room > 0 {
        assert events[..room] == [events[0]] + events[1..][..room - 1];
        assert next.clientChan + events[1..][..room - 1] == q.clientChan + events[..room];
      } else {
        assert events[..0] == events[1..][..0];
      }
    }
  }

  /** With a buffer they go there, unless a channel without capacity hands them over. */
  lemma {:induction false} WithBuffer<E>(q: Queues<E>, events: seq<E>, maxSize: nat, batcherWaits: seq<bool>)
    requires q.buffer.Some? && |q.clientChan| <= 1000 && |batcherWaits| == |events|
    requires maxSize > 0 || forall i :: 0 <= i < |events| ==> !batcherWaits[i]
    ensures var k := Min(|events|, 1000 - |q.clientChan|);
            OfferedAll(q, events, maxSize, batcherWaits) ==
            q.(clientChan := q.clientChan + events[..k],
               buffer := Some(EnqueuedAll(q.buffer.value, events[k..], maxSize)))
    decreases |events|
  {
    hide Enqueued;
    if events == [] {
      assert q.clientChan + [] == q.clientChan;
    } else {
      var next := Offered(q, events[0], maxSize, batcherWaits[0]);
      WithBuffer(next, events[1..], maxSize, batcherWaits[1..]);
      var k := Min(|events|, 1000 - |q.clientChan|);
      if k > 0 {
        assert events[..k] == [events[0]] + events[1..][..k - 1] && events[1..][k - 1..] == events[k..];
        assert next.clientChan + events[1..][..k - 1] == q.clientChan + events[..k];
      } else {
        assert events[0..] == events && events[1..][0..] == events[1..] && events[..0] == events[1..][..0];
      }
    }
  }

  class Client<E> {
    const buffer: Buffer?<E>
    var eventChan: seq<E>

    function View(): Queues<E>
      reads this, buffer
    {
      Queues(eventChan, if buffer == null then None else Some(buffer.View()), [])
    }

    function Size(): nat { if buffer == null then 0 else buffer.maxSize }

    predicate Valid()
      reads this, buffer
    {
      (buffer != null ==> buffer.Valid()) && |eventChan| <= CLIENT_CAPACITY
    }

    constructor (buffer: Buffer?<E>)
      requires buffer != null ==> buffer.Valid()
      ensures this.buffer == buffer && Valid() && eventChan == []
    {
      this.buffer := buffer;
      eventChan := [];
    }

    /** What `processEvents` does with an event it has read; `handedOver` is the event if it goes straight to a
        waiting batcher. */
    method Offer(event: E, batcherWaits: bool) returns (handedOver: seq<E>)
      requires Valid()
      modifies this, buffer
      ensures Valid() && View().(handedOver := handedOver) == Offered(old(View()), event, Size(), batcherWaits)
    {
      handedOver := [];
      if |eventChan| < CLIENT_CAPACITY {
        eventChan := eventChan + [event];
      } else if buffer != null {
        var handed := buffer.Enqueue(event, batcherWaits);
        if handed {
          handedOver := [event];
        }
      }
    }

    method ReplayBufferedEvents(batcherWaits: seq<bool>) returns (handedOver: seq<E>)
      requires Valid() && (buffer != null ==> |batcherWaits| == |buffer.events|)
      modifies this, buffer
      ensures Valid()
      ensures buffer == null ==> handedOver == [] && View() == old(View())
      ensures buffer != null ==>
                View().(handedOver := handedOver) ==
                OfferedAll(old(View()).(buffer := Some(old(buffer.View()).(events := []))), old(buffer.events), Size(),
                           batcherWaits)
    {
      handedOver := [];
      if buffer == null {
        return;
      }
      var events := buffer.Flush();
      ghost var goal := OfferedAll(View(), events, Size(), batcherWaits);
      assert events[0..] == events && batcherWaits[0..] == batcherWaits;
      for i := 0 to |events|
        invariant Valid()
        invariant goal == OfferedAll(View().(handedOver := handedOver), events[i..], Size(), batcherWaits[i..])
      {
        OfferedNext(View().(handedOver := handedOver), events[i..], Size(), batcherWaits[i..]);
        assert events[i..][0] == events[i] && events[i..][1..] == events[i + 1..];
        assert batcherWaits[i..][0] == batcherWaits[i] && batcherWaits[i..][1..] == batcherWaits[i + 1..];
        OfferedBehind(View(), handedOver, events[i], Size(), batcherWaits[i]);
        var handed := Offer(events[i], batcherWaits[i]);
        handedOver := handedOver + handed;
      }
    }
  }

  lemma OfferedNext<E>(q: Queues<E>, events: seq<E>, maxSize: nat, batcherWaits: seq<bool>)
    requires |batcherWaits| == |events| > 0
    ensures OfferedAll(q, events, maxSize, batcherWaits)
         == OfferedAll(Offered(q, events[0], maxSize, batcherWaits[0]), events[1..], maxSize, batcherWaits[1..])
  {
  }

  /** What was handed over before plays no part in what happens to an event. */
  lemma OfferedBehind<E>(q: Queues<E>, before: seq<E>, event: E, maxSize: nat, batcherWaits: bool)
    requires q.handedOver == []
    ensures var n := Offered(q, event, maxSize, batcherWaits);
            Offered(q.(handedOver := before), event, maxSize, batcherWaits) == n.(handedOver := before + n.handedOver)
  {
    assert before + [] == before;
    assert before + [event] == before + ([] + [event]);
  }

  /** The connection goroutine's part in offering an event. */
  function Delivery<E>(n: nat, handingOver: bool): seq<Step<E>>
  {
    seq(n, _ => Deliver) + (if handingOver then [HandOver] else [])
  }

  /** What the connection goroutine of a client with a buffer delivers to. */
  function QueuesOf<E>(s: State<E>): Queues<E> { Queues(s.clientChan, Some(s.buffer), []) }

  /** Offering one event is one to three uninterrupted steps of the connection goroutine. */
  lemma OfferIsSteps<E>(s: State<E>, maxSize: nat, batcherWaits: bool) returns (n: nat, handing: bool)
    requires s.hand != [] && s.stage == ToClient && !s.crashed && (batcherWaits ==> !s.flushing)
    ensures var t := Run(s, Delivery(n, handing), maxSize);
            var q := Offered(QueuesOf(s), s.hand[0], maxSize, batcherWaits);
            && t.hand == s.hand[1..] && t.stage == ToClient && !t.crashed
            && t.clientChan == q.clientChan && Some(t.buffer) == q.buffer && t.batch == s.batch + q.handedOver
            && (handing ==> batcherWaits)
  {
    var s1 := Next(s, Deliver, maxSize);
    var s2 := Next(s1, Deliver, maxSize);
    handing := false;
    if |s.clientChan| < CLIENT_CAPACITY {
      n := 1;
      assert Delivery<E>(1, false) == [Deliver];
      RunOne(s, Deliver, maxSize);
    } else if maxSize == 0 && batcherWaits {
      n, handing := 1, true;
      assert Delivery<E>(1, true) == [Deliver, HandOver];
      RunTwo(s, Deliver, HandOver, maxSize);
    } else if |s.buffer.channel| < maxSize {
      n := 2;
      assert Delivery<E>(2, false) == [Deliver, Deliver];
      RunTwo(s, Deliver, Deliver, maxSize);
    } else {
      n := 3;
      RunTwo(s, Deliver, Deliver, maxSize);
      RunOne(s2, Deliver, maxSize);
      assert Delivery<E>(3, false) == [Deliver, Deliver] + [Deliver];
      RunAppend(s, [Deliver, Deliver], [Deliver], maxSize);
    }
  }

  /** The replay loop, left alone, is the steps of the connection goroutine one after the other. */
  lemma {:induction false} ReplayIsSteps<E>(s: State<E>, maxSize: nat) returns (n: nat)
    requires s.stage == ToClient && !s.crashed
    ensures var t := Run(s, Delivery(n, false), maxSize);
            && t.hand == [] && t.batch == s.batch
            && QueuesOf(t) == OfferedAll(QueuesOf(s), s.hand, maxSize, seq(|s.hand|, _ => false))
    decreases |s.hand|
  {
    hide Next, Offered;
    if s.hand == [] {
      n := 0;
      assert Delivery<E>(0, false) == [];
    } else {
      var k, handing := OfferIsSteps(s, maxSize, false);
      var t := Run(s, Delivery(k, false), maxSize);
      NothingHandedOver(QueuesOf(s), s.hand[0], maxSize);
      var m := ReplayIsSteps(t, maxSize);
      n := k + m;
      assert Delivery<E>(n, false) == Delivery(k, false) + Delivery(m, false);
      RunAppend(s, Delivery(k, false), Delivery(m, false), maxSize);
      var none := seq(|s.hand|, _ => false);
      assert none[1..] == seq(|s.hand| - 1, _ => false);
      OfferedNext(QueuesOf(s), s.hand, maxSize, none);
    }
  }

  lemma NothingHandedOver<E>(q: Queues<E>, event: E, maxSize: nat)
    ensures Offered(q, event, maxSize, false).handedOver == q.handedOver
  {
  }

  // ---------------------------------------------------------------- order and repetition

  /** No event has found the client's channel full. */
  predicate NeverFull<E>(s: State<E>, steps: seq<Step<E>>, maxSize: nat)
    decreases |steps|
  {
    s.stage == ToClient && (steps == [] || NeverFull(Next(s, steps[0], maxSize), steps[1..], maxSize))
  }

  /** The events read are those handled, those in the client's channel and the one in hand, in this order. */
  ghost predicate InOrder<E>(s: State<E>)
  {
    && s.handled + s.clientChan + s.hand == s.read
    && s.buffer.events == [] && s.buffer.channel == [] && s.batch == [] && s.lost == [] && !s.flushing
  }

  lemma StepKeepsOrder<E>(s: State<E>, step: Step<E>, maxSize: nat)
    requires InOrder(s) && s.stage == ToClient
    ensures InOrder(Next(s, step, maxSize))
  {
    match step
    case Read(e) =>
      assert s.hand == [] ==> s.handled + s.clientChan + [e] == s.handled + s.clientChan + s.hand + [e];
    case Deliver =>
      if s.hand != [] {
        assert s.hand == [s.hand[0]] + s.hand[1..];
        assert s.handled + (s.clientChan + [s.hand[0]]) + s.hand[1..] == s.handled + s.clientChan + s.hand;
      }
    case Handle =>
      if s.clientChan != [] {
        assert s.clientChan == [s.clientChan[0]] + s.clientChan[1..];
        assert s.handled + [s.clientChan[0]] + s.clientChan[1..] + s.hand == s.handled + s.clientChan + s.hand;
      }
    case _ =>
  }

  lemma {:induction false} RunKeepsOrder<E>(s: State<E>, steps: seq<Step<E>>, maxSize: nat)
    requires InOrder(s) && NeverFull(s, steps, maxSize)
    ensures InOrder(Run(s, steps, maxSize))
    decreases |steps|
  {
    hide InOrder, Next;
    if steps == [] {
    } else {
      StepKeepsOrder(s, steps[0], maxSize);
      RunKeepsOrder(Next(s, steps[0], maxSize), steps[1..], maxSize);
    }
  }

  /** As long as no event has found the client's channel full, events are handled in the order they are read, and
      nothing is buffered or dropped. */
  lemma OrderIsKept<E>(steps: seq<Step<E>>, maxSize: nat)
    requires NeverFull(Init(), steps, maxSize)
    ensures var s := Run<E>(Init(), steps, maxSize);
            && s.read == s.handled + s.clientChan + s.hand
            && s.buffer.events == [] && s.buffer.channel == [] && s.batch == [] && s.lost == []
  {
    RunKeepsOrder<E>(Init(), steps, maxSize);
  }

  /** Past that order is lost, for every buffer size: of two events read one after the other the second can be in line
      for its handler while the first is buffered. */
  lemma SecondOvertakesFirst<E>(e: E, first: E, second: E, maxSize: nat) returns (steps: seq<Step<E>>)
    ensures var s, before := Run(Init(), steps, maxSize), Copies(e, CLIENT_CAPACITY);
            && s.read == before + [first] + [second]
            && s.handled + s.clientChan == before + [second]
            && s.hand == [] && s.stage == ToClient && !s.crashed
  {
    hide Next;
    var before := Copies(e, CLIENT_CAPACITY);
    CopiesLength(e, CLIENT_CAPACITY);
    var fill := FillClient(e, CLIENT_CAPACITY, maxSize);
    var s0 := Filled(e, CLIENT_CAPACITY);
    var s1 := Next(s0, Read(first), maxSize);
    ReadStep(s0, first, maxSize);
    RunOne(s0, Read(first), maxSize);
    var n, handing := OfferIsSteps(s1, maxSize, false);
    var s2 := Run(s1, Delivery(n, handing), maxSize);
    DeliveriesKeepHistory(s1, n, maxSize);
    var tail := [Handle, Read(second), Deliver];
    LastThree(s2, second, maxSize);
    steps := fill + ([Read(first)] + (Delivery(n, handing) + tail));
    RunAppend(Init(), fill, [Read(first)] + (Delivery(n, handing) + tail), maxSize);
    RunAppend(s0, [Read(first)], Delivery(n, handing) + tail, maxSize);
    RunAppend(s1, Delivery(n, handing), tail, maxSize);
    var s := Run(Init(), steps, maxSize);
    assert s.read == s2.read + [second];
    assert [before[0]] + before[1..] == before;
    assert s.handled + s.clientChan == [] + [before[0]] + (before[1..] + [second]);
  }

  lemma ReadStep<E>(s: State<E>, e: E, maxSize: nat)
    requires s.hand == [] && !s.crashed
    ensures Next(s, Read(e), maxSize) == s.(hand := [e], read := s.read + [e])
  {
  }

  /** Delivering changes neither what was read nor what was handled. */
  lemma {:induction false} DeliveriesKeepHistory<E>(s: State<E>, n: nat, maxSize: nat)
    ensures var t := Run(s, Delivery(n, false), maxSize); t.read == s.read && t.handled == s.handled
    decreases n
  {
    if n == 0 {
      assert Delivery<E>(0, false) == [];
    } else {
      assert Delivery<E>(n, false)[1..] == Delivery(n - 1, false);
      DeliveriesKeepHistory(Next(s, Deliver, maxSize), n - 1, maxSize);
    }
  }

  lemma LastThree<E>(s: State<E>, e: E, maxSize: nat)
    requires |s.clientChan| == CLIENT_CAPACITY && s.hand == [] && s.stage == ToClient && !s.crashed
    ensures Run(s, [Handle, Read(e), Deliver], maxSize) ==
            s.(handled := s.handled + [s.clientChan[0]], clientChan := s.clientChan[1..] + [e], read := s.read + [e])
  {
    var t := Next(s, Handle, maxSize);
    RunOne(s, Handle, maxSize);
    RunTwo(t, Read(e), Deliver, maxSize);
    RunAppend(s, [Handle], [Read(e), Deliver], maxSize);
    assert [Handle] + [Read(e), Deliver] == [Handle, Read(e), Deliver];
  }

  /** Nothing is taken for a duplicate: every sequence of events, repetitions included, is handled as it is in some
      run. */
  lemma {:induction false} RepetitionsAreHandled<E>(events: seq<E>, maxSize: nat) returns (steps: seq<Step<E>>)
    ensures Run(Init(), steps, maxSize) == Init<E>().(read := events, handled := events)
    decreases |events|
  {
    if events == [] {
      steps := [];
    } else {
      var init, last := events[..|events| - 1], events[|events| - 1];
      var before := RepetitionsAreHandled(init, maxSize);
      var round := [Read(last), Deliver, Handle];
      var s := Init<E>().(read := init, handled := init);
      RunTwo(s, Read(last), Deliver, maxSize);
      var t := Next(Next(s, Read(last), maxSize), Deliver, maxSize);
      RunOne(t, Handle, maxSize);
      RunAppend(s, [Read(last), Deliver], [Handle], maxSize);
      assert [Read(last), Deliver] + [Handle] == round && init + [last] == events;
      RunAppend(Init(), before, round, maxSize);
      steps := before + round;
    }
  }
}

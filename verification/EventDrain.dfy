/** Nothing is stuck: from which states of the event pipeline everything can still be handled. */
module EventDrain {
  import opened Common
  import opened EventBuffer
  import opened EventPipeline

  /** No event is on its way any more. */
  predicate Drained<E>(s: State<E>)
  {
    && !s.crashed && s.hand == [] && s.clientChan == [] && s.buffer.channel == [] && s.batch == []
    && s.buffer.events == []
  }

  /** The batch can be processed without taking the process down. */
  predicate Alive<E>(s: State<E>, maxSize: nat) { !s.crashed && |s.batch| <= maxSize && Bounded(s, maxSize) }

  /** The same but for the client's channel and what has been handled. */
  ghost predicate SameBehind<E>(s: State<E>, t: State<E>)
  {
    && t.read == s.read && t.buffer == s.buffer && t.batch == s.batch && t.flushing == s.flushing
    && t.crashed == s.crashed
  }

  lemma {:induction false} EmptyClient<E>(s: State<E>, maxSize: nat) returns (steps: seq<Step<E>>)
    requires Alive(s, maxSize)
    ensures var t := Run(s, steps, maxSize);
            Alive(t, maxSize) && t.clientChan == [] && t.hand == s.hand && t.stage == s.stage && SameBehind(s, t)
    decreases |s.clientChan|
  {
    if s.clientChan == [] {
      steps := [];
    } else {
      var n := Next(s, Handle, maxSize);
      RunOne(s, Handle, maxSize);
      var more := EmptyClient(n, maxSize);
      steps := [Handle] + more;
      RunAppend(s, [Handle], more, maxSize);
    }
  }

  /** One more delivery of the event in hand, to a client whose channel is empty. */
  lemma DeliverOnce<E>(s: State<E>, maxSize: nat)
    requires Alive(s, maxSize) && s.hand != [] && s.clientChan == []
    ensures var t := Next(s, Deliver, maxSize);
            && Alive(t, maxSize) && t.read == s.read && t.batch == s.batch && t.flushing == s.flushing
            && (if s.stage == ToChannel && |s.buffer.channel| >= maxSize
                then t.hand == s.hand && t.stage == ToEvents
                else t.hand == s.hand[1..] && t.stage == ToClient)
            && (s.stage == ToClient ==> t.buffer == s.buffer)
  {
    hide Bounded;
    assert Bounded(Next(s, Deliver, maxSize), maxSize) by { StepIsBounded(s, Deliver, maxSize); }
  }

  function StagesLeft<E>(s: State<E>): nat { if s.stage == ToEvents then 0 else 1 }

  /** The connection goroutine gets rid of what it holds, and disturbs nothing unless it has turned to the buffer. */
  lemma {:induction false} EmptyHand<E>(s: State<E>, maxSize: nat) returns (steps: seq<Step<E>>)
    requires Alive(s, maxSize)
    ensures var t := Run(s, steps, maxSize);
            && Alive(t, maxSize) && t.hand == [] && t.clientChan == [] && t.stage == ToClient
            && t.read == s.read && t.batch == s.batch && t.flushing == s.flushing
            && (s.stage == ToClient ==> t.buffer == s.buffer)
    decreases |s.hand|, StagesLeft(s)
  {
    hide Next, Run;
    var first := EmptyClient(s, maxSize);
    var t := Run(s, first, maxSize);
    if s.hand == [] {
      steps := first;
      NoStageWithoutHand(t, maxSize);
    } else {
      DeliverOnce(t, maxSize);
      var n := Next(t, Deliver, maxSize);
      RunOne(t, Deliver, maxSize);
      var more := EmptyHand(n, maxSize);
      steps := first + ([Deliver] + more);
      RunAppend(t, [Deliver], more, maxSize);
      RunAppend(s, first, [Deliver] + more, maxSize);
    }
  }

  lemma NoStageWithoutHand<E>(s: State<E>, maxSize: nat)
    requires Bounded(s, maxSize) && s.hand == []
    ensures s.stage == ToClient
  {
  }

  /** Batched and processed: what the batcher holds. */
  lemma EmptyBatch<E>(s: State<E>, maxSize: nat) returns (steps: seq<Step<E>>)
    requires Alive(s, maxSize)
    ensures var t := Run(s, steps, maxSize);
            && Alive(t, maxSize) && t.batch == [] && !t.flushing && t.buffer.channel == s.buffer.channel
            && t.hand == s.hand && t.stage == s.stage && t.clientChan == s.clientChan && t.read == s.read
  {
    hide Run, Bounded, Next;
    if s.batch == [] {
      steps := [];
      assert Run(s, [], maxSize) == s by { RunNone(s, maxSize); }
      NoFlushWithoutBatch(s, maxSize);
    } else if s.flushing {
      steps := [Process];
      RunOne(s, Process, maxSize);
      Processed(s, maxSize);
    } else {
      steps := [Tick, Process];
      Ticked(s, maxSize);
      Processed(Next(s, Tick, maxSize), maxSize);
      RunTwo(s, Tick, Process, maxSize);
    }
  }

  lemma RunNone<E>(s: State<E>, maxSize: nat)
    ensures Run(s, [], maxSize) == s
  {
  }

  lemma NoFlushWithoutBatch<E>(s: State<E>, maxSize: nat)
    requires Bounded(s, maxSize) && s.batch == []
    ensures !s.flushing
  {
  }

  lemma Ticked<E>(s: State<E>, maxSize: nat)
    requires Alive(s, maxSize) && s.batch != [] && !s.flushing
    ensures Alive(Next(s, Tick, maxSize), maxSize) && Next(s, Tick, maxSize) == s.(flushing := true)
  {
    StepIsBounded(s, Tick, maxSize);
  }

  lemma Processed<E>(s: State<E>, maxSize: nat)
    requires Alive(s, maxSize) && s.flushing
    ensures var t := Next(s, Process, maxSize);
            && Alive(t, maxSize) && t.batch == [] && !t.flushing && t.buffer.channel == s.buffer.channel
            && t.hand == s.hand && t.stage == s.stage && t.clientChan == s.clientChan && t.read == s.read
  {
    hide Bounded;
    assert Bounded(Next(s, Process, maxSize), maxSize) by { StepIsBounded(s, Process, maxSize); }
  }

  /** Event by event the buffer's channel is emptied into batches of one. */
  lemma {:induction false} EmptyChannel<E>(s: State<E>, maxSize: nat) returns (steps: seq<Step<E>>)
    requires Alive(s, maxSize) && s.batch == [] && !s.flushing
    ensures var t := Run(s, steps, maxSize);
            && Alive(t, maxSize) && t.batch == [] && !t.flushing && t.buffer.channel == []
            && t.hand == s.hand && t.stage == s.stage && t.clientChan == s.clientChan && t.read == s.read
    decreases |s.buffer.channel|
  {
    hide Run, Next;
    if s.buffer.channel == [] {
      steps := [];
      RunNone(s, maxSize);
    } else {
      var n := Next(s, Receive, maxSize);
      Received(s, maxSize);
      RunOne(s, Receive, maxSize);
      var flush := EmptyBatch(n, maxSize);
      var t := Run(n, flush, maxSize);
      var more := EmptyChannel(t, maxSize);
      steps := [Receive] + (flush + more);
      RunAppend(n, flush, more, maxSize);
      RunAppend(s, [Receive], flush + more, maxSize);
    }
  }

  lemma Received<E>(s: State<E>, maxSize: nat)
    requires Alive(s, maxSize) && s.batch == [] && !s.flushing && s.buffer.channel != []
    ensures var t := Next(s, Receive, maxSize);
            && Alive(t, maxSize) && t.buffer.channel == s.buffer.channel[1..]
            && t.hand == s.hand && t.stage == s.stage && t.clientChan == s.clientChan && t.read == s.read
  {
    StepIsBounded(s, Receive, maxSize);
  }

  lemma Replayed<E>(s: State<E>, maxSize: nat)
    requires Alive(s, maxSize) && s.hand == []
    ensures var t := Next(s, Replay, maxSize);
            && Alive(t, maxSize) && t == s.(hand := s.buffer.events, buffer := s.buffer.(events := []))
  {
    StepIsBounded(s, Replay, maxSize);
  }

  /** Hand, batch, channel, and then the kept events by a replay. */
  lemma Drain<E>(s: State<E>, maxSize: nat) returns (steps: seq<Step<E>>)
    requires Alive(s, maxSize)
    ensures Drained(Run(s, steps, maxSize)) && Run(s, steps, maxSize).read == s.read
  {
    hide Run, Next, Bounded;
    var hand := EmptyHand(s, maxSize);
    var s1 := Run(s, hand, maxSize);
    var batch := EmptyBatch(s1, maxSize);
    var s2 := Run(s1, batch, maxSize);
    var channel := EmptyChannel(s2, maxSize);
    var s3 := Run(s2, channel, maxSize);
    Replayed(s3, maxSize);
    RunOne(s3, Replay, maxSize);
    var s4 := Next(s3, Replay, maxSize);
    NoStageWithoutHand(s3, maxSize);
    var kept := EmptyHand(s4, maxSize);
    RunAppend(s3, [Replay], kept, maxSize);
    RunAppend(s2, channel, [Replay] + kept, maxSize);
    RunAppend(s1, batch, channel + ([Replay] + kept), maxSize);
    steps := hand + (batch + (channel + ([Replay] + kept)));
    RunAppend(s, hand, batch + (channel + ([Replay] + kept)), maxSize);
  }

  /** A batch longer than the buffer never gets shorter, unless the process dies of it. */
  lemma {:induction false} TooLongStays<E>(s: State<E>, steps: seq<Step<E>>, maxSize: nat)
    requires s.crashed || |s.batch| > maxSize
    ensures !Drained(Run(s, steps, maxSize))
    decreases |steps|
  {
    if steps == [] {
    } else {
      LongerOrDead(s, steps[0], maxSize);
      TooLongStays(Next(s, steps[0], maxSize), steps[1..], maxSize);
    }
  }

  lemma LongerOrDead<E>(s: State<E>, step: Step<E>, maxSize: nat)
    requires s.crashed || |s.batch| > maxSize
    ensures var t := Next(s, step, maxSize); t.crashed || |t.batch| > maxSize
  {
  }

  /** After any run, everything read so far can still be handled or dropped, with nothing left on its way, exactly when
      the process is alive and the batcher holds no more than the buffer can take; and in such a run every event read
      has been handled or counted as dropped. */
  lemma NothingIsStuck<E>(steps: seq<Step<E>>, maxSize: nat)
    ensures var s := Run(Init(), steps, maxSize);
            (exists more :: Drained(Run(s, more, maxSize)) && Run(s, more, maxSize).read == s.read)
            <==> !s.crashed && |s.batch| <= maxSize
    ensures forall more ::
              var t := Run(Run(Init(), steps, maxSize), more, maxSize);
              Drained(t) ==> multiset(t.read) == multiset(t.handled) + multiset(t.lost) && t.buffer.dropped == |t.lost|
  {
    hide Run, Drained, Conserved, Bounded;
    var s := Run<E>(Init(), steps, maxSize);
    EveryEventIsAccountedFor(steps, maxSize);
    if !s.crashed && |s.batch| <= maxSize {
      var more := Drain(s, maxSize);
    } else {
      forall more ensures !Drained(Run(s, more, maxSize)) { TooLongStays(s, more, maxSize); }
    }
    forall more | Drained(Run(s, more, maxSize))
      ensures var t := Run(s, more, maxSize);
              multiset(t.read) == multiset(t.handled) + multiset(t.lost) && t.buffer.dropped == |t.lost|
    {
      RunAppend(Init(), steps, more, maxSize);
      EveryEventIsAccountedFor(steps + more, maxSize);
      NothingElse(Run(s, more, maxSize), maxSize);
    }
  }

  lemma NothingElse<E>(s: State<E>, maxSize: nat)
    requires Drained(s) && Conserved(s) && Bounded(s, maxSize)
    ensures multiset(s.read) == multiset(s.handled) + multiset(s.lost) && s.buffer.dropped == |s.lost|
  {
  }
}

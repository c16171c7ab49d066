/** What holds in every state the call machine can reach, over any interleaving of events and cleanups. */
module CallMachineLaws {
  import opened Common
  import opened CallMachine

  datatype Step = Event(headers: Headers, now: int) | Cleanup(uuid: string)

  /** One step. A cleanup that is not waiting changes nothing. */
  function Next(t: Table, step: Step): Table
  {
    match step
    case Event(headers, now) => Handled(t, headers, now).0
    case Cleanup(uuid) => Cleaned(t, uuid)
  }

  function Run(steps: seq<Step>): Table
  {
    if steps == [] then Table(map[], multiset{}) else Next(Run(steps[..|steps| - 1]), steps[|steps| - 1])
  }

  // ---------------------------------------------------------------- one call

  /** How far a call has come. */
  function Rank(s: CallState): nat
  {
    match s
    case Init => 0
    case Early => 1
    case Confirmed => 2
    case Established => 3
    case Terminated => 4
    case Failed => 4
  }

  /** A transition leads strictly forward from a state that has not ended; any other event leaves the state
      fields and the channel data as they were. */
  lemma TransitionLeadsForward(call: CallInfo, kind: EventKind, headers: Headers, now: int)
    ensures var (after, outcome) := Transition(call, kind, headers, now);
            && after.uuid == call.uuid
            && (outcome == Moved ==>
                  && Rank(call.currentState) < Rank(after.currentState) && !Ended(call.currentState)
                  && after.previousState == call.currentState && after.channelData == call.channelData + headers)
            && (outcome != Moved ==>
                  && after.currentState == call.currentState && after.previousState == call.previousState
                  && after.channelData == call.channelData)
  {
  }

  /** A call moves on an event exactly when the table has a rule for its state and that event, and then to the
      state the rule says; only the rules for a new create are never used. */
  lemma EventsFollowTable(call: CallInfo, kind: EventKind, headers: Headers, now: int)
    ensures var (after, outcome) := Transition(call, kind, headers, now);
            && (outcome == Moved <==> kind != Create && exists to :: Rule(call.currentState, to, kind) in TRANSITIONS)
            && (outcome == Moved ==> Rule(call.currentState, after.currentState, kind) in TRANSITIONS)
  {
    hide Transition;
    var (after, outcome) := Transition(call, kind, headers, now);
    MovesToTarget(call, kind, headers, now);
    forall to
      ensures Rule(call.currentState, to, kind) in TRANSITIONS <==> Target(call.currentState, kind) == Some(to)
    {
      TargetIsTable(call.currentState, to, kind);
    }
  }

  lemma MovesToTarget(call: CallInfo, kind: EventKind, headers: Headers, now: int)
    ensures var (after, outcome) := Transition(call, kind, headers, now);
            && (outcome == Moved <==> kind != Create && Target(call.currentState, kind).Some?)
            && (outcome == Moved ==> Target(call.currentState, kind) == Some(after.currentState))
  {
  }

  /** Once a call has ended every event is refused or ignored. */
  lemma EndedIsAbsorbing(call: CallInfo, kind: EventKind, headers: Headers, now: int)
    requires Ended(call.currentState)
    ensures var (after, outcome) := Transition(call, kind, headers, now);
            outcome != Moved && after.currentState == call.currentState
  {
  }

  /** The call as it is after an event that was not accepted: what the event had written by then stays written. */
  lemma RefusedEventStillWrites(call: CallInfo, kind: EventKind, headers: Headers, now: int)
    ensures var (after, outcome) := Transition(call, kind, headers, now);
            outcome != Moved ==>
              (after == call <==>
                 && (kind == Answer ==> call.answeredAt == Some(now))
                 && (kind == Hangup || kind == ExecuteComplete ==> call.hangupCause == Header(headers, "Hangup-Cause"))
                 && (kind == Hangup && call.answeredAt.Some? ==> call.duration == now - call.answeredAt.value))
  {
  }

  /** A late answer to a call that has hung up is refused, and overwrites the time the call was answered. */
  lemma LateAnswerOverwrites(call: CallInfo, headers: Headers, now: int)
    requires call.currentState == Terminated && call.answeredAt != Some(now)
    ensures var (after, outcome) := Transition(call, Answer, headers, now);
            outcome == Refused(InvalidTransition) && after.answeredAt == Some(now) && after != call
  {
  }

  predicate AnswerKnown(call: CallInfo)
  {
    call.currentState == Confirmed || call.currentState == Established ==> call.answeredAt.Some?
  }

  lemma AnswerStaysKnown(call: CallInfo, kind: EventKind, headers: Headers, now: int)
    requires AnswerKnown(call)
    ensures AnswerKnown(Transition(call, kind, headers, now).0)
  {
  }

  lemma CreatedStays(headers: Headers, now: int)
    requires Header(headers, "Event-Name") == "CHANNEL_CREATE"
    ensures Transition(NewCall(headers, now), KindOf(Header(headers, "Event-Name")), headers, now)
         == (NewCall(headers, now), Ignored)
  {
  }

  // ---------------------------------------------------------------- every reachable table

  /** Exactly one cleanup waits for a call that has ended, and none for any other identifier. */
  ghost predicate OneCleanupPerEndedCall(t: Table)
  {
    forall u :: t.cleanups[u] == if u in t.calls && Ended(t.calls[u].currentState) then 1 else 0
  }

  ghost predicate WellKept(t: Table)
  {
    && OneCleanupPerEndedCall(t)
    && (forall u :: u in t.calls ==> t.calls[u].uuid == u && AnswerKnown(t.calls[u]))
  }

  lemma EventKeeps(t: Table, uuid: string, call: CallInfo, headers: Headers, now: int)
    requires WellKept(t) && call.uuid == uuid && AnswerKnown(call)
    requires uuid in t.calls ==> t.calls[uuid] == call
    requires uuid !in t.calls ==> !Ended(call.currentState)
    ensures WellKept(EventOn(t, uuid, call, headers, now).0)
  {
    hide Transition, KindOf, AnswerKnown;
    var kind := KindOf(Header(headers, "Event-Name"));
    TransitionLeadsForward(call, kind, headers, now);
    AnswerStaysKnown(call, kind, headers, now);
  }

  lemma StepKeeps(t: Table, step: Step)
    requires WellKept(t)
    ensures WellKept(Next(t, step))
  {
    match step
    case Event(headers, now) =>
      hide EventOn, WellKept;
      var uuid := Header(headers, "Unique-ID");
      if uuid in t.calls {
        CallOf(t, uuid);
        EventKeeps(t, uuid, t.calls[uuid], headers, now);
      } else {
        NewCallIsFresh(headers, now);
        EventKeeps(t, uuid, NewCall(headers, now), headers, now);
      }
    case Cleanup(uuid) =>
  }

  lemma CallOf(t: Table, u: string)
    requires WellKept(t) && u in t.calls
    ensures t.calls[u].uuid == u && AnswerKnown(t.calls[u])
  {
  }

  lemma NewCallIsFresh(headers: Headers, now: int)
    ensures var c := NewCall(headers, now);
            c.uuid == Header(headers, "Unique-ID") && c.currentState == Init && AnswerKnown(c)
  {
  }

  /** In every reachable state exactly one cleanup waits for each call that has ended and none for a live one,
      and a confirmed or established call knows when it was answered. */
  lemma {:induction false} EveryStateIsWellKept(steps: seq<Step>)
    ensures WellKept(Run(steps))
    decreases |steps|
  {
    hide WellKept, Next;
    if steps == [] {
      EmptyIsWellKept();
    } else {
      EveryStateIsWellKept(steps[..|steps| - 1]);
      StepKeeps(Run(steps[..|steps| - 1]), steps[|steps| - 1]);
    }
  }

  lemma EmptyIsWellKept()
    ensures WellKept(Table(map[], multiset{}))
  {
  }

  /** A cleanup that wakes up always finds its call, and it has ended: only ended calls are ever removed, and
      the cleanup's own check never fails. */
  lemma CleanupFindsAnEndedCall(steps: seq<Step>, uuid: string)
    requires Run(steps).cleanups[uuid] > 0
    ensures var t := Run(steps);
            uuid in t.calls && Ended(t.calls[uuid].currentState) && Cleaned(t, uuid).calls == t.calls - {uuid}
  {
    EveryStateIsWellKept(steps);
  }

  // ---------------------------------------------------------------- counting

  /** Whether the last step moved the call `u` to another state. */
  predicate MovesLast(steps: seq<Step>, u: string)
    requires steps != []
  {
    var last := steps[|steps| - 1];
    && last.Event? && Header(last.headers, "Unique-ID") == u
    && Handled(Run(steps[..|steps| - 1]), last.headers, last.now).1 == Moved
  }

  /** How often the call `u` has moved since it was last created. */
  function Moves(steps: seq<Step>, u: string): nat
  {
    if steps == [] || u !in Run(steps).calls then 0
    else if MovesLast(steps, u) then Moves(steps[..|steps| - 1], u) + 1
    else Moves(steps[..|steps| - 1], u)
  }

  lemma HandledOn(t: Table, headers: Headers, now: int, u: string)
    requires WellKept(t)
    ensures var (after, outcome) := Handled(t, headers, now);
            var kind := KindOf(Header(headers, "Event-Name"));
            && (u in t.calls ==> u in after.calls)
            && (Header(headers, "Unique-ID") != u && u in after.calls ==> u in t.calls && after.calls[u] == t.calls[u])
            && (Header(headers, "Unique-ID") == u && u !in t.calls && u in after.calls ==>
                  outcome == Ignored && after.calls[u].currentState == Init)
            && (Header(headers, "Unique-ID") == u && u in t.calls ==>
                  (after.calls[u], outcome) == Transition(t.calls[u], kind, headers, now) || u == "")
            && (u == "" && u !in t.calls ==> u !in after.calls)
  {
    hide Transition, NewCall, KindOf;
    if Header(headers, "Event-Name") == "CHANNEL_CREATE" {
      CreatedStays(headers, now);
      NewCallIsFresh(headers, now);
    }
  }

  /** A call moves at most as often as it has come far, so at most four times in its life. */
  lemma {:induction false} AtMostFourMoves(steps: seq<Step>, u: string)
    ensures Moves(steps, u) <= 4
    ensures "" !in Run(steps).calls
    ensures u in Run(steps).calls ==> Moves(steps, u) <= Rank(Run(steps).calls[u].currentState)
    decreases |steps|
  {
    hide Transition, NewCall, KindOf, WellKept, Rank, Handled;
    assert forall s :: Rank(s) <= 4 by { RankBound(); }
    if steps == [] {
    } else {
      var init, last := steps[..|steps| - 1], steps[|steps| - 1];
      AtMostFourMoves(init, u);
      EveryStateIsWellKept(init);
      var t := Run(init);
      if last.Event? {
        HandledOn(t, last.headers, last.now, u);
        HandledOn(t, last.headers, last.now, "");
        if u in t.calls {
          TransitionLeadsForward(t.calls[u], KindOf(Header(last.headers, "Event-Name")), last.headers, last.now);
        } else {
          AbsentHasNotMoved(init, u);
        }
      }
    }
  }

  lemma RankBound()
    ensures forall s :: Rank(s) <= 4
  {
  }

  lemma AbsentHasNotMoved(steps: seq<Step>, u: string)
    requires u !in Run(steps).calls
    ensures Moves(steps, u) == 0
  {
  }

  function IdOf(step: Step): string
  {
    match step
    case Event(headers, _) => Header(headers, "Unique-ID")
    case Cleanup(uuid) => uuid
  }

  /** How many calls the steps have created. */
  function Creations(steps: seq<Step>): nat
  {
    if steps == [] then 0
    else
      var init := steps[..|steps| - 1];
      var u := IdOf(steps[|steps| - 1]);
      Creations(init) + (if u !in Run(init).calls && u in Run(steps).calls then 1 else 0)
  }

  /** How many calls the steps have moved into an end state. */
  function Endings(steps: seq<Step>): nat
  {
    if steps == [] then 0
    else
      var u := IdOf(steps[|steps| - 1]);
      Endings(steps[..|steps| - 1])
      + (if MovesLast(steps, u) && u in Run(steps).calls && Ended(Run(steps).calls[u].currentState) then 1 else 0)
  }

  lemma LiveAfterEvent(before: map<string, CallInfo>, after: map<string, CallInfo>, u: string)
    requires u in after && (u in before ==> Ended(before[u].currentState) ==> Ended(after[u].currentState))
    requires u !in before ==> !Ended(after[u].currentState)
    requires forall v :: v != u ==> (v in before <==> v in after) && (v in before ==> before[v] == after[v])
    ensures |Live(after)| == |Live(before)|
            + (if u !in before then 1 else 0)
            - (if u in before && !Ended(before[u].currentState) && Ended(after[u].currentState) then 1 else 0)
  {
    var l, m := Live(before), Live(after);
    forall v | v != u ensures v in l <==> v in m {
    }
    LiveSizes(l, m, u);
  }

  lemma LiveSizes(l: set<string>, m: set<string>, u: string)
    requires forall v :: v != u ==> (v in l <==> v in m)
    ensures |m| == |l| + (if u in m then 1 else 0) - (if u in l then 1 else 0)
  {
    var rest := l - {u};
    assert m - {u} == rest;
    assert l == if u in l then rest + {u} else rest;
    assert m == if u in m then rest + {u} else rest;
  }

  lemma StepChangesOnly(t: Table, step: Step, v: string)
    requires WellKept(t) && v != IdOf(step)
    ensures var after := Next(t, step);
            (v in t.calls <==> v in after.calls) && (v in t.calls ==> t.calls[v] == after.calls[v])
  {
    match step
    case Event(headers, now) => EventChangesOnly(t, headers, now, v);
    case Cleanup(_) =>
  }

  lemma EventChangesOnly(t: Table, headers: Headers, now: int, v: string)
    requires v != Header(headers, "Unique-ID")
    ensures var after := Handled(t, headers, now).0;
            (v in t.calls <==> v in after.calls) && (v in t.calls ==> t.calls[v] == after.calls[v])
  {
    hide Transition, NewCall, KindOf;
  }

  lemma RefusedChangesNothing(t: Table, headers: Headers, now: int)
    requires Header(headers, "Unique-ID") !in Handled(t, headers, now).0.calls
    ensures Handled(t, headers, now).0 == t && Handled(t, headers, now).1 != Moved
  {
  }

  /** The calls `ActiveCalls` counts are those created less those that have ended. */
  lemma {:induction false} ActiveIsCreatedLessEnded(steps: seq<Step>)
    ensures |Live(Run(steps).calls)| == Creations(steps) - Endings(steps)
    decreases |steps|
  {
    hide Transition, NewCall, KindOf, WellKept, Handled;
    if steps == [] {
      assert Live(map[]) == {};
    } else {
      var init, last := steps[..|steps| - 1], steps[|steps| - 1];
      var t := Run(init);
      var u := IdOf(last);
      ActiveIsCreatedLessEnded(init);
      EveryStateIsWellKept(init);
      if last.Event? {
        var after := Next(t, last);
        forall v | v != u
          ensures (v in t.calls <==> v in after.calls) && (v in t.calls ==> t.calls[v] == after.calls[v])
        {
          StepChangesOnly(t, last, v);
        }
        HandledOn(t, last.headers, last.now, u);
        if u in after.calls {
          AtMostFourMoves(init, u);
          if u in t.calls {
            TransitionLeadsForward(t.calls[u], KindOf(Header(last.headers, "Event-Name")), last.headers, last.now);
          }
          LiveAfterEvent(t.calls, after.calls, u);
        } else {
          RefusedChangesNothing(t, last.headers, last.now);
        }
      } else if t.cleanups[u] > 0 {
        CleanupFindsAnEndedCall(init, u);
        assert Live(t.calls - {u}) == Live(t.calls);
      }
    }
  }

  // ---------------------------------------------------------------- calls do not interfere

  /** One call on its own, driven by the events and cleanups that carry its identifier. */
  function SingleNext(c: Option<CallInfo>, step: Step): Option<CallInfo>
  {
    match step
    case Event(headers, now) =>
      var kind := KindOf(Header(headers, "Event-Name"));
      if Header(headers, "Unique-ID") == "" then c
      else if c.Some? then Some(Transition(c.value, kind, headers, now).0)
      else if Header(headers, "Event-Name") == "CHANNEL_CREATE" then Some(NewCall(headers, now))
      else None
    case Cleanup(_) =>
      if c.Some? && Ended(c.value.currentState) then None else c
  }

  function SingleRun(steps: seq<Step>): Option<CallInfo>
  {
    if steps == [] then None else SingleNext(SingleRun(steps[..|steps| - 1]), steps[|steps| - 1])
  }

  lemma OwnStep(t: Table, step: Step)
    requires WellKept(t)
    ensures Lookup(Next(t, step).calls, IdOf(step)) == SingleNext(Lookup(t.calls, IdOf(step)), step)
  {
    hide Transition, NewCall, KindOf;
    if step.Event? && Header(step.headers, "Event-Name") == "CHANNEL_CREATE" {
      CreatedStays(step.headers, step.now);
    }
  }

  function Concerns(u: string): Step -> bool { s => IdOf(s) == u }

  /** After any interleaved stream of events and cleanups, what the table says of an identifier is what that
      identifier's own events and cleanups say by themselves. */
  lemma {:induction false} CallsDoNotInterfere(steps: seq<Step>, u: string)
    ensures Lookup(Run(steps).calls, u) == SingleRun(Filter(Concerns(u), steps))
    decreases |steps|
  {
    hide Transition, NewCall, KindOf, WellKept, Next, SingleNext;
    var own := Concerns(u);
    if steps == [] {
    } else {
      var init, last := steps[..|steps| - 1], steps[|steps| - 1];
      CallsDoNotInterfere(init, u);
      EveryStateIsWellKept(init);
      if IdOf(last) == u {
        OwnStep(Run(init), last);
        var kept := Filter(own, init);
        assert Filter(own, steps) == kept + [last] && (kept + [last])[..|kept|] == kept;
      } else {
        StepChangesOnly(Run(init), last, u);
        assert Filter(own, steps) == Filter(own, init);
      }
    }
  }
}

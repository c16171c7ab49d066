/** The call state machine: many calls in one table, driven by channel events, each removed some time after
    it has ended. */
module CallMachine {
  import opened Common

  datatype CallState = Init | Early | Confirmed | Established | Terminated | Failed

  type Headers = map<string, string>

  datatype CallInfo = CallInfo(
    uuid: string, currentState: CallState, previousState: CallState,
    caller: string, callee: string, direction: string,
    createdAt: int, updatedAt: int, answeredAt: Option<int>, hangupCause: string, duration: int,
    channelData: map<string, string>)

  datatype HandleError = MissingId | UnknownCall | ParkRefused | InvalidTransition

  /** A missing header reads as the empty string. */
  function Header(headers: Headers, name: string): string
  {
    if name in headers then headers[name] else ""
  }

  predicate Ended(s: CallState) { s == Terminated || s == Failed }

  /** The events the machine tells apart. */
  datatype EventKind = Create | Progress | Answer | Park | Hangup | ExecuteComplete | Other

  function KindOf(eventType: string): EventKind
  {
    if eventType == "CHANNEL_PROGRESS" then Progress
    else if eventType == "CHANNEL_ANSWER" then Answer
    else if eventType == "CHANNEL_PARK" then Park
    else if eventType == "CHANNEL_HANGUP_COMPLETE" then Hangup
    else if eventType == "CHANNEL_EXECUTE_COMPLETE" then ExecuteComplete
    else if eventType == "CHANNEL_CREATE" then Create
    else Other
  }

  datatype StateTransition = Rule(from: CallState, to: CallState, event: EventKind)

  const FROM_INIT: seq<StateTransition> := [
    Rule(Init, Early, Progress), Rule(Init, Confirmed, Answer),
    Rule(Init, Terminated, Hangup), Rule(Init, Failed, ExecuteComplete)]
  const FROM_EARLY: seq<StateTransition> := [
    Rule(Early, Confirmed, Answer), Rule(Early, Terminated, Hangup), Rule(Early, Failed, ExecuteComplete)]
  const FROM_CONFIRMED: seq<StateTransition> := [
    Rule(Confirmed, Established, Park), Rule(Confirmed, Terminated, Hangup), Rule(Confirmed, Failed, ExecuteComplete)]
  const FROM_ESTABLISHED: seq<StateTransition> := [
    Rule(Established, Terminated, Hangup), Rule(Established, Failed, ExecuteComplete)]
  const FROM_ENDED: seq<StateTransition> := [Rule(Terminated, Init, Create), Rule(Failed, Init, Create)]

  const TRANSITIONS: seq<StateTransition> := FROM_INIT + FROM_EARLY + FROM_CONFIRMED + FROM_ESTABLISHED + FROM_ENDED

  /** The state pairs of the table; its events play no part in the check of a transition. */
  predicate Allowed(from: CallState, to: CallState)
  {
    match from
    case Init => to == Early || to == Confirmed || Ended(to)
    case Early => to == Confirmed || Ended(to)
    case Confirmed => to == Established || Ended(to)
    case Established => Ended(to)
    case Terminated => to == Init
    case Failed => to == Init
  }

  /** Where the table leads from a state on an event. */
  function Target(from: CallState, event: EventKind): Option<CallState>
  {
    match (from, event)
    case (Terminated, Create) => Some(Init)
    case (Failed, Create) => Some(Init)
    case (Terminated, _) => None
    case (Failed, _) => None
    case (_, Hangup) => Some(Terminated)
    case (_, ExecuteComplete) => Some(Failed)
    case (Init, Progress) => Some(Early)
    case (Init, Answer) => Some(Confirmed)
    case (Early, Answer) => Some(Confirmed)
    case (Confirmed, Park) => Some(Established)
    case _ => None
  }

  lemma TargetIsTable(from: CallState, to: CallState, event: EventKind)
    ensures Rule(from, to, event) in TRANSITIONS <==> Target(from, event) == Some(to)
  {
    var r := Rule(from, to, event);
    assert r in FROM_INIT <==> from == Init && Target(from, event) == Some(to);
    assert r in FROM_EARLY <==> from == Early && Target(from, event) == Some(to);
    assert r in FROM_CONFIRMED <==> from == Confirmed && Target(from, event) == Some(to);
    assert r in FROM_ESTABLISHED <==> from == Established && Target(from, event) == Some(to);
    assert r in FROM_ENDED <==> Ended(from) && Target(from, event) == Some(to);
  }

  ghost predicate Listed(rules: seq<StateTransition>, from: CallState, to: CallState)
  {
    exists e :: Rule(from, to, e) in rules
  }

  lemma ListedNext(rules: seq<StateTransition>, i: nat)
    requires i < |rules|
    ensures forall f, t ::
              Listed(rules[..i + 1], f, t) <==> Listed(rules[..i], f, t) || (f == rules[i].from && t == rules[i].to)
  {
    assert rules[..i + 1] == rules[..i] + [rules[i]];
    forall f, t
      ensures Listed(rules[..i + 1], f, t) <==> Listed(rules[..i], f, t) || (f == rules[i].from && t == rules[i].to)
    {
      if f == rules[i].from && t == rules[i].to { assert Rule(f, t, rules[i].event) in rules[..i + 1]; }
    }
  }

  lemma AllowedIsTable(from: CallState, to: CallState)
    ensures Allowed(from, to) <==> Listed(TRANSITIONS, from, to)
  {
    forall e ensures Rule(from, to, e) in TRANSITIONS <==> Target(from, e) == Some(to) { TargetIsTable(from, to, e); }
    AllowedIsReached(from, to);
  }

  lemma AllowedIsReached(from: CallState, to: CallState)
    ensures Allowed(from, to) <==> exists e :: Target(from, e) == Some(to)
  {
    assert Allowed(from, to) ==>
      var e := if to == Early then Progress else if to == Confirmed then Answer else if to == Established then Park
               else if to == Terminated then Hangup else if to == Failed then ExecuteComplete else Create;
      Target(from, e) == Some(to);
  }

  const RELEVANT: seq<string> := [
    "Channel-Name", "Channel-Call-State", "Channel-Call-UUID",
    "Channel-Read-Codec-Name", "Channel-Write-Codec-Name",
    "variable_sip_from_user", "variable_sip_req_user",
    "variable_domain_name", "variable_effective_caller_id_name"]

  function NewCall(headers: Headers, now: int): CallInfo
  {
    CallInfo(Header(headers, "Unique-ID"), Init, Init, Header(headers, "Caller-Username"),
             Header(headers, "Caller-Destination-Number"), Header(headers, "Call-Direction"),
             now, now, None, "", 0, Selected(headers, RELEVANT))
  }

  /** The headers of these names that are there and not empty. */
  function Selected(headers: Headers, names: seq<string>): Headers
  {
    map h | h in names && Header(headers, h) != "" :: Header(headers, h)
  }

  method CreateNewCall(headers: Headers, now: int) returns (call: CallInfo)
    ensures call == NewCall(headers, now)
  {
    call := CallInfo(Header(headers, "Unique-ID"), Init, Init, Header(headers, "Caller-Username"),
                     Header(headers, "Caller-Destination-Number"), Header(headers, "Call-Direction"),
                     now, now, None, "", 0, map[]);
    ghost var created := call;
    for i := 0 to |RELEVANT|
      invariant call == created.(channelData := Selected(headers, RELEVANT[..i]))
    {
      var value := Header(headers, RELEVANT[i]);
      assert RELEVANT[..i + 1] == RELEVANT[..i] + [RELEVANT[i]];
      if value != "" {
        call := call.(channelData := call.channelData[RELEVANT[i] := value]);
      }
    }
    assert RELEVANT[..|RELEVANT|] == RELEVANT;
  }

  // ---------------------------------------------------------------- one event on one call

  datatype Outcome = Moved | Ignored | Refused(error: HandleError)

  /** What an event writes before its transition is checked, and the state it asks for, if any. */
  function Prepare(call: CallInfo, kind: EventKind, headers: Headers, now: int): (CallInfo, Option<CallState>)
  {
    match kind
    case Progress => (call, Some(Early))
    case Answer => (call.(answeredAt := Some(now)), Some(Confirmed))
    case Park => (call, if call.currentState == Confirmed then Some(Established) else None)
    case Hangup =>
      (call.(hangupCause := Header(headers, "Hangup-Cause"),
             duration := if call.answeredAt.Some? then now - call.answeredAt.value else call.duration),
       Some(Terminated))
    case ExecuteComplete => (call.(hangupCause := Header(headers, "Hangup-Cause")), Some(Failed))
    case Create => (call, None)
    case Other => (call, None)
  }

  lemma PrepareKeeps(call: CallInfo, kind: EventKind, headers: Headers, now: int)
    ensures var written := Prepare(call, kind, headers, now).0;
            && written.uuid == call.uuid && written.currentState == call.currentState
            && written.previousState == call.previousState && written.channelData == call.channelData
  {
  }

  function Transition(call: CallInfo, kind: EventKind, headers: Headers, now: int): (CallInfo, Outcome)
  {
    var (written, wanted) := Prepare(call, kind, headers, now);
    if wanted.None? then (written, if kind == Park then Refused(ParkRefused) else Ignored)
    else if !Allowed(call.currentState, wanted.value) then (written, Refused(InvalidTransition))
    else
      (written.(previousState := call.currentState, currentState := wanted.value, updatedAt := now,
                channelData := call.channelData + headers), Moved)
  }

  /** The switch on the event: it writes into the call before anything is checked. */
  method Interpret(call: CallInfo, kind: EventKind, headers: Headers, now: int)
    returns (written: CallInfo, wanted: Option<CallState>)
    ensures (written, wanted) == Prepare(call, kind, headers, now)
  {
    written := call;
    match kind {
      case Progress =>
        return written, Some(Early);
      case Answer =>
        written := written.(answeredAt := Some(now));
        return written, Some(Confirmed);
      case Park =>
        if written.currentState == Confirmed {
          return written, Some(Established);
        }
        return written, None;
      case Hangup =>
        written := written.(hangupCause := Header(headers, "Hangup-Cause"));
        if written.answeredAt.Some? {
          written := written.(duration := now - written.answeredAt.value);
        }
        return written, Some(Terminated);
      case ExecuteComplete =>
        written := written.(hangupCause := Header(headers, "Hangup-Cause"));
        return written, Some(Failed);
      case Create =>
        return written, None;
      case Other =>
        return written, None;
    }
  }

  // ---------------------------------------------------------------- the table

  /** The calls in memory, and the cleanup goroutines that are waiting. */
  datatype Table = Table(calls: map<string, CallInfo>, cleanups: multiset<string>)

  function EventOn(t: Table, uuid: string, call: CallInfo, headers: Headers, now: int): (Table, Outcome)
  {
    var (after, outcome) := Transition(call, KindOf(Header(headers, "Event-Name")), headers, now);
    (Table(t.calls[uuid := after],
           if outcome == Moved && Ended(after.currentState) then t.cleanups + multiset{call.uuid} else t.cleanups),
       outcome)
  }

  function Handled(t: Table, headers: Headers, now: int): (Table, Outcome)
  {
    var uuid := Header(headers, "Unique-ID");
    if uuid == "" then (t, Refused(MissingId))
    else if uuid in t.calls then EventOn(t, uuid, t.calls[uuid], headers, now)
    else if Header(headers, "Event-Name") == "CHANNEL_CREATE" then EventOn(t, uuid, NewCall(headers, now), headers, now)
    else (t, Refused(UnknownCall))
  }

  /** A waiting cleanup wakes up: it removes its call if that has ended. */
  function Cleaned(t: Table, uuid: string): Table
  {
    if t.cleanups[uuid] == 0 then t
    else
      Table(if uuid in t.calls && Ended(t.calls[uuid].currentState) then t.calls - {uuid} else t.calls,
            t.cleanups - multiset{uuid})
  }

  function Live(calls: map<string, CallInfo>): set<string>
  {
    set u | u in calls && !Ended(calls[u].currentState)
  }

  type TransitionMap = map<CallState, map<CallState, bool>>

  predicate PermittedBy(transitions: TransitionMap, from: CallState, to: CallState)
  {
    from in transitions && to in transitions[from] && transitions[from][to]
  }

  lemma PermitOne(transitions: TransitionMap, from: CallState, to: CallState)
    ensures var inner := if from in transitions then transitions[from] else map[];
            var after := transitions[from := inner[to := true]];
            forall f, t :: PermittedBy(after, f, t) <==> PermittedBy(transitions, f, t) || (f == from && t == to)
  {
    var inner: map<CallState, bool> := if from in transitions then transitions[from] else map[];
    var after := transitions[from := inner[to := true]];
    forall f, t ensures PermittedBy(after, f, t) <==> PermittedBy(transitions, f, t) || (f == from && t == to) {
      if f == from {
        assert after[f] == inner[to := true];
        assert t != to && t in inner ==> after[f][t] == inner[t];
      } else {
        assert f in transitions ==> after[f] == transitions[f];
      }
    }
  }

  class Machine {
    var calls: map<string, CallInfo>
    var transitions: TransitionMap
    var cleanups: multiset<string>

    function View(): Table
      reads this
    {
      Table(calls, cleanups)
    }

    predicate Permits(from: CallState, to: CallState)
      reads this
    {
      PermittedBy(transitions, from, to)
    }

    ghost predicate Valid()
      reads this
    {
      forall f, t :: Permits(f, t) <==> Allowed(f, t)
    }

    constructor ()
      ensures Valid() && View() == Table(map[], multiset{})
    {
      calls, transitions, cleanups := map[], map[], multiset{};
      new;
      InitializeTransitions();
    }

    method InitializeTransitions()
      requires transitions == map[]
      modifies this`transitions
      ensures Valid()
    {
      FillTransitions(TRANSITIONS);
      forall f, t ensures Permits(f, t) <==> Allowed(f, t) { AllowedIsTable(f, t); }
    }

    method FillTransitions(valid: seq<StateTransition>)
      requires transitions == map[]
      modifies this`transitions
      ensures forall f, t :: Permits(f, t) <==> Listed(valid, f, t)
    {
      for i := 0 to |valid|
        invariant forall f, t :: Permits(f, t) <==> Listed(valid[..i], f, t)
      {
        var transition := valid[i];
        ghost var before := transitions;
        assert forall f, t :: Permits(f, t) <==> PermittedBy(before, f, t);
        PermitOne(before, transition.from, transition.to);
        if transition.from !in transitions {
          transitions := transitions[transition.from := map[]];
        }
        transitions := transitions[transition.from := transitions[transition.from][transition.to := true]];
        assert transitions == before[transition.from :=
          (if transition.from in before then before[transition.from] else map[])[transition.to := true]];
        ListedNext(valid, i);
        forall f, t ensures Permits(f, t) <==> Listed(valid[..i + 1], f, t) {
          assert PermittedBy(before, f, t) <==> Listed(valid[..i], f, t);
        }
      }
      assert valid[..|valid|] == valid;
    }

    method HandleEvent(headers: Headers, now: int) returns (outcome: Outcome)
      requires Valid()
      modifies this`calls, this`cleanups
      ensures Valid() && (View(), outcome) == Handled(old(View()), headers, now)
    {
      var uuid := Header(headers, "Unique-ID");
      if uuid == "" {
        return Refused(MissingId);
      }
      var eventType := Header(headers, "Event-Name");
      if uuid !in calls {
        if eventType == "CHANNEL_CREATE" {
          var created := CreateNewCall(headers, now);
          calls := calls[uuid := created];
        } else {
          return Refused(UnknownCall);
        }
      }
      hide Transition, KindOf, NewCall;
      outcome := ProcessTransition(uuid, KindOf(eventType), headers, now);
      assert calls == old(calls)[uuid := calls[uuid]];
    }

    method ProcessTransition(uuid: string, kind: EventKind, headers: Headers, now: int) returns (outcome: Outcome)
      requires Valid() && uuid in calls
      modifies this`calls, this`cleanups
      ensures var (after, o) := Transition(old(calls[uuid]), kind, headers, now);
              && outcome == o && calls == old(calls)[uuid := after]
              && cleanups == if o == Moved && Ended(after.currentState) then
                               old(cleanups) + multiset{old(calls[uuid].uuid)}
                             else old(cleanups)
      ensures Valid()
    {
      hide Prepare;
      var call, wanted := Interpret(calls[uuid], kind, headers, now);
      PrepareKeeps(calls[uuid], kind, headers, now);
      calls := calls[uuid := call];
      if wanted.None? {
        return if kind == Park then Refused(ParkRefused) else Ignored;
      }
      var newState := wanted.value;
      if !Permits(call.currentState, newState) {
        return Refused(InvalidTransition);
      }
      call := call.(previousState := call.currentState);
      call := call.(currentState := newState, updatedAt := now);
      call := call.(channelData := call.channelData + headers);
      calls := calls[uuid := call];
      assert calls == old(calls)[uuid := call];
      if newState == Terminated || newState == Failed {
        cleanups := cleanups + multiset{call.uuid};
      }
      return Moved;
    }

    /** A cleanup goroutine that has slept its time takes the lock. */
    method CleanupCall(uuid: string)
      requires cleanups[uuid] > 0
      modifies this`calls, this`cleanups
      ensures View() == Cleaned(old(View()), uuid)
    {
      cleanups := cleanups - multiset{uuid};
      if uuid in calls {
        if calls[uuid].currentState == Terminated || calls[uuid].currentState == Failed {
          calls := calls - {uuid};
        }
      }
    }

    method ActiveCalls() returns (count: nat)
      ensures count == |Live(calls)|
    {
      count := 0;
      var rest := calls.Keys;
      while rest != {}
        invariant rest <= calls.Keys && count == |Live(calls) - rest|
        decreases |rest|
      {
        var u :| u in rest;
        LiveWithout(calls, rest, u);
        rest := rest - {u};
        if calls[u].currentState != Terminated && calls[u].currentState != Failed {
          count := count + 1;
        }
      }
      assert Live(calls) - {} == Live(calls);
    }
  }

  lemma LiveWithout(calls: map<string, CallInfo>, rest: set<string>, u: string)
    requires u in rest && rest <= calls.Keys
    ensures |Live(calls) - (rest - {u})| == |Live(calls) - rest| + (if Ended(calls[u].currentState) then 0 else 1)
    ensures Live(calls) - calls.Keys == {}
  {
    var before, after := Live(calls) - rest, Live(calls) - (rest - {u});
    if Ended(calls[u].currentState) {
      assert after == before;
    } else {
      assert after == before + {u} && u !in before;
    }
  }
}

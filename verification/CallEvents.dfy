/** What each event does to a call, told by the name the event comes with. */
module CallEvents {
  import opened Common
  import opened CallMachine
  import opened CallMachineLaws

  /** The event has this name and is for the known call `u`. */
  predicate Names(t: Table, headers: Headers, name: string, u: string)
  {
    && "Event-Name" in headers && headers["Event-Name"] == name
    && "Unique-ID" in headers && headers["Unique-ID"] == u != ""
    && u in t.calls
  }

  function CauseIn(headers: Headers): string
  {
    if "Hangup-Cause" in headers then headers["Hangup-Cause"] else ""
  }

  /** The call has come to another state and everything that goes with it is recorded: the state it was in, the time,
      and all headers of the event. */
  ghost predicate CameTo(call: CallInfo, after: CallInfo, state: CallState, headers: Headers, now: int)
  {
    && after.currentState == state && after.previousState == call.currentState && after.updatedAt == now
    && (forall h :: h in headers ==> h in after.channelData && after.channelData[h] == headers[h])
    && (forall h :: h !in headers ==>
          (h in call.channelData <==> h in after.channelData)
          && (h in call.channelData ==> call.channelData[h] == after.channelData[h]))
  }

  /** The call is in the state it was in, with all that goes with it. */
  predicate StayedIn(call: CallInfo, after: CallInfo)
  {
    && after.currentState == call.currentState && after.previousState == call.previousState
    && after.updatedAt == call.updatedAt && after.channelData == call.channelData
  }

  /** What no event ever changes. */
  predicate SameCall(call: CallInfo, after: CallInfo)
  {
    && after.uuid == call.uuid && after.caller == call.caller && after.callee == call.callee
    && after.direction == call.direction && after.createdAt == call.createdAt
  }

  /** The event concerns call `u` alone, and starts a cleanup of it exactly when it has ended the call. */
  ghost predicate Concerns(t: Table, after: Table, u: string, ends: bool)
  {
    && u in t.calls && u in after.calls && SameCall(t.calls[u], after.calls[u])
    && (forall v :: v != u ==> (v in t.calls <==> v in after.calls) && (v in t.calls ==> t.calls[v] == after.calls[v]))
    && after.cleanups == if ends then t.cleanups + multiset{t.calls[u].uuid} else t.cleanups
  }

  lemma OneCallChanges(t: Table, headers: Headers, now: int, name: string, u: string)
    requires Names(t, headers, name, u)
    ensures var (n, outcome) := Handled(t, headers, now);
            && u in n.calls && (n.calls[u], outcome) == Transition(t.calls[u], KindOf(name), headers, now)
            && Concerns(t, n, u, outcome == Moved && Ended(n.calls[u].currentState))
  {
    hide KindOf;
    EventChangesOne(t, u, headers, now);
  }

  lemma EventChangesOne(t: Table, u: string, headers: Headers, now: int)
    requires u in t.calls
    ensures var (n, outcome) := EventOn(t, u, t.calls[u], headers, now);
            && u in n.calls
            && (n.calls[u], outcome) == Transition(t.calls[u], KindOf(Header(headers, "Event-Name")), headers, now)
            && Concerns(t, n, u, outcome == Moved && Ended(n.calls[u].currentState))
  {
    hide KindOf;
  }

  /** Ringing: from the initial state only. */
  lemma OnProgress(t: Table, headers: Headers, now: int, u: string)
    requires Names(t, headers, "CHANNEL_PROGRESS", u)
    ensures var (n, outcome) := Handled(t, headers, now);
            var call := t.calls[u];
            && Concerns(t, n, u, false)
            && n.calls[u].answeredAt == call.answeredAt && n.calls[u].hangupCause == call.hangupCause
            && n.calls[u].duration == call.duration
            && if call.currentState == Init
               then outcome == Moved && CameTo(call, n.calls[u], Early, headers, now)
               else outcome == Refused(InvalidTransition) && StayedIn(call, n.calls[u])
  {
    hide Handled;
    OneCallChanges(t, headers, now, "CHANNEL_PROGRESS", u);
  }

  /** Answered: from the initial state or while ringing. The time is written even when the event is refused. */
  lemma OnAnswer(t: Table, headers: Headers, now: int, u: string)
    requires Names(t, headers, "CHANNEL_ANSWER", u)
    ensures var (n, outcome) := Handled(t, headers, now);
            var call := t.calls[u];
            && Concerns(t, n, u, false)
            && n.calls[u].answeredAt == Some(now) && n.calls[u].hangupCause == call.hangupCause
            && n.calls[u].duration == call.duration
            && if call.currentState == Init || call.currentState == Early
               then outcome == Moved && CameTo(call, n.calls[u], Confirmed, headers, now)
               else outcome == Refused(InvalidTransition) && StayedIn(call, n.calls[u])
  {
    hide Handled;
    OneCallChanges(t, headers, now, "CHANNEL_ANSWER", u);
  }

  /** Parked: from the confirmed state only, with an error of its own. */
  lemma OnPark(t: Table, headers: Headers, now: int, u: string)
    requires Names(t, headers, "CHANNEL_PARK", u)
    ensures var (n, outcome) := Handled(t, headers, now);
            var call := t.calls[u];
            && Concerns(t, n, u, false)
            && n.calls[u].answeredAt == call.answeredAt && n.calls[u].hangupCause == call.hangupCause
            && n.calls[u].duration == call.duration
            && if call.currentState == Confirmed
               then outcome == Moved && CameTo(call, n.calls[u], Established, headers, now)
               else outcome == Refused(ParkRefused) && StayedIn(call, n.calls[u])
  {
    hide Handled;
    OneCallChanges(t, headers, now, "CHANNEL_PARK", u);
  }

  /** Hung up: from any state that is no end, which starts the cleanup. The cause and, for an answered call, the
      duration are written even when the event is refused. */
  lemma OnHangup(t: Table, headers: Headers, now: int, u: string)
    requires Names(t, headers, "CHANNEL_HANGUP_COMPLETE", u)
    ensures var (n, outcome) := Handled(t, headers, now);
            var call := t.calls[u];
            var alive := call.currentState != Terminated && call.currentState != Failed;
            && Concerns(t, n, u, alive)
            && n.calls[u].answeredAt == call.answeredAt && n.calls[u].hangupCause == CauseIn(headers)
            && n.calls[u].duration == (if call.answeredAt == None then call.duration else now - call.answeredAt.value)
            && if alive
               then outcome == Moved && CameTo(call, n.calls[u], Terminated, headers, now)
               else outcome == Refused(InvalidTransition) && StayedIn(call, n.calls[u])
  {
    hide Handled;
    OneCallChanges(t, headers, now, "CHANNEL_HANGUP_COMPLETE", u);
  }

  /** Failed: from any state that is no end, which starts the cleanup. The duration stays. */
  lemma OnExecuteComplete(t: Table, headers: Headers, now: int, u: string)
    requires Names(t, headers, "CHANNEL_EXECUTE_COMPLETE", u)
    ensures var (n, outcome) := Handled(t, headers, now);
            var call := t.calls[u];
            var alive := call.currentState != Terminated && call.currentState != Failed;
            && Concerns(t, n, u, alive)
            && n.calls[u].answeredAt == call.answeredAt && n.calls[u].hangupCause == CauseIn(headers)
            && n.calls[u].duration == call.duration
            && if alive
               then outcome == Moved && CameTo(call, n.calls[u], Failed, headers, now)
               else outcome == Refused(InvalidTransition) && StayedIn(call, n.calls[u])
  {
    hide Handled;
    OneCallChanges(t, headers, now, "CHANNEL_EXECUTE_COMPLETE", u);
  }

  /** Any other event, or one without a name, changes nothing at all. */
  lemma OnOther(t: Table, headers: Headers, now: int)
    requires "Unique-ID" in headers && headers["Unique-ID"] != "" && headers["Unique-ID"] in t.calls
    requires "Event-Name" in headers ==>
               headers["Event-Name"] !in {"CHANNEL_PROGRESS", "CHANNEL_ANSWER", "CHANNEL_PARK",
                                          "CHANNEL_HANGUP_COMPLETE", "CHANNEL_EXECUTE_COMPLETE"}
    ensures Handled(t, headers, now) == (t, Ignored)
  {
    var u := headers["Unique-ID"];
    EventChangesOne(t, u, headers, now);
    assert t.calls[u := t.calls[u]] == t.calls;
  }

  // ---------------------------------------------------------------- calls that are not known

  function Text(headers: Headers, name: string): string { if name in headers then headers[name] else "" }

  /** An event without an identifier, or of a call that is not known and is not created by it, changes nothing. */
  lemma OnUnknown(t: Table, headers: Headers, now: int)
    ensures Text(headers, "Unique-ID") == "" ==> Handled(t, headers, now) == (t, Refused(MissingId))
    ensures Text(headers, "Unique-ID") != "" && Text(headers, "Unique-ID") !in t.calls
            && Text(headers, "Event-Name") != "CHANNEL_CREATE" ==>
              Handled(t, headers, now) == (t, Refused(UnknownCall))
  {
  }

  /** A call is created in its initial state, with what three headers say of it and those of nine others that are not
      empty; nothing else changes. */
  lemma OnCreate(t: Table, headers: Headers, now: int, u: string)
    requires Text(headers, "Event-Name") == "CHANNEL_CREATE" && Text(headers, "Unique-ID") == u != "" && u !in t.calls
    ensures var (n, outcome) := Handled(t, headers, now);
            && outcome == Ignored && u in n.calls && n == Table(t.calls[u := n.calls[u]], t.cleanups)
            && n.calls[u] == CallInfo(u, Init, Init, Text(headers, "Caller-Username"),
                                      Text(headers, "Caller-Destination-Number"), Text(headers, "Call-Direction"),
                                      now, now, None, "", 0, n.calls[u].channelData)
            && forall h :: h in n.calls[u].channelData <==>
                 && h in {"Channel-Name", "Channel-Call-State", "Channel-Call-UUID", "Channel-Read-Codec-Name",
                          "Channel-Write-Codec-Name", "variable_sip_from_user", "variable_sip_req_user",
                          "variable_domain_name", "variable_effective_caller_id_name"}
                 && Text(headers, h) != ""
    ensures forall h :: h in Handled(t, headers, now).0.calls[u].channelData ==>
              Handled(t, headers, now).0.calls[u].channelData[h] == Text(headers, h)
  {
    hide Transition, KindOf;
    CreatedStays(headers, now);
    var call := NewCall(headers, now);
    assert Handled(t, headers, now) == (Table(t.calls[u := call], t.cleanups), Ignored);
    RelevantAre();
  }

  lemma RelevantAre()
    ensures forall h :: h in RELEVANT <==>
              h in {"Channel-Name", "Channel-Call-State", "Channel-Call-UUID", "Channel-Read-Codec-Name",
                    "Channel-Write-Codec-Name", "variable_sip_from_user", "variable_sip_req_user",
                    "variable_domain_name", "variable_effective_caller_id_name"}
  {
  }

  /** A cleanup removes its call if that is terminated or failed, and nothing else. */
  lemma OnCleanup(t: Table, uuid: string)
    requires t.cleanups[uuid] > 0
    ensures var n := Cleaned(t, uuid);
            && n.cleanups == t.cleanups - multiset{uuid}
            && (forall u :: u in n.calls ==> u in t.calls && n.calls[u] == t.calls[u])
            && (forall u :: u in t.calls ==>
                  (u !in n.calls <==>
                     u == uuid && (t.calls[u].currentState == Terminated || t.calls[u].currentState == Failed)))
  {
  }

  // ---------------------------------------------------------------- a whole call

  function EventNamed(u: string, name: string, now: int): Step
  {
    Event(map["Unique-ID" := u, "Event-Name" := name], now)
  }

  lemma RunNext(steps: seq<Step>, step: Step)
    requires step.Event?
    ensures Run(steps + [step]) == Handled(Run(steps), step.headers, step.now).0
  {
    assert (steps + [step])[..|steps|] == steps;
  }

  lemma NamedOn(t: Table, u: string, name: string, now: int)
    requires u != "" && u in t.calls
    ensures Names(t, EventNamed(u, name, now).headers, name, u)
  {
  }

  lemma AnsweredRinging(steps: seq<Step>, u: string, ringing: int, answered: int)
    requires u != "" && u in Run(steps).calls && Run(steps).calls[u].currentState == Init
    ensures var n := Run(steps + [EventNamed(u, "CHANNEL_PROGRESS", ringing)]
                         + [EventNamed(u, "CHANNEL_ANSWER", answered)]);
            && u in n.calls && n.calls[u].currentState == Confirmed && n.calls[u].answeredAt == Some(answered)
            && n.calls[u].uuid == Run(steps).calls[u].uuid && n.cleanups == Run(steps).cleanups
  {
    hide Handled, Run, Names;
    var ring, answer := EventNamed(u, "CHANNEL_PROGRESS", ringing), EventNamed(u, "CHANNEL_ANSWER", answered);
    RunNext(steps, ring);
    NamedOn(Run(steps), u, "CHANNEL_PROGRESS", ringing);
    OnProgress(Run(steps), ring.headers, ringing, u);
    RunNext(steps + [ring], answer);
    NamedOn(Run(steps + [ring]), u, "CHANNEL_ANSWER", answered);
    OnAnswer(Run(steps + [ring]), answer.headers, answered, u);
  }

  lemma HungUpParked(steps: seq<Step>, u: string, parked: int, ended: int)
    requires u != "" && u in Run(steps).calls && Run(steps).calls[u].currentState == Confirmed
    ensures var n := Run(steps + [EventNamed(u, "CHANNEL_PARK", parked)]
                         + [EventNamed(u, "CHANNEL_HANGUP_COMPLETE", ended)]);
            var call := Run(steps).calls[u];
            && u in n.calls && n.calls[u].currentState == Terminated && n.calls[u].previousState == Established
            && n.calls[u].answeredAt == call.answeredAt
            && (call.answeredAt.Some? ==> n.calls[u].duration == ended - call.answeredAt.value)
            && n.cleanups == Run(steps).cleanups + multiset{call.uuid}
  {
    hide Handled, Run, Names;
    var park, hangup := EventNamed(u, "CHANNEL_PARK", parked), EventNamed(u, "CHANNEL_HANGUP_COMPLETE", ended);
    RunNext(steps, park);
    NamedOn(Run(steps), u, "CHANNEL_PARK", parked);
    OnPark(Run(steps), park.headers, parked, u);
    RunNext(steps + [park], hangup);
    NamedOn(Run(steps + [park]), u, "CHANNEL_HANGUP_COMPLETE", ended);
    OnHangup(Run(steps + [park]), hangup.headers, ended, u);
  }

  /** A call that rings, is answered, parked and hung up passes through all five states whatever the times, and knows
      in the end when it was answered and how long it took from there. */
  lemma WholeCall(u: string, created: int, ringing: int, answered: int, parked: int, ended: int)
    requires u != ""
    ensures var t := Run([EventNamed(u, "CHANNEL_CREATE", created)] + [EventNamed(u, "CHANNEL_PROGRESS", ringing)]
                         + [EventNamed(u, "CHANNEL_ANSWER", answered)] + [EventNamed(u, "CHANNEL_PARK", parked)]
                         + [EventNamed(u, "CHANNEL_HANGUP_COMPLETE", ended)]);
            && u in t.calls && t.calls[u].currentState == Terminated && t.calls[u].previousState == Established
            && t.calls[u].answeredAt == Some(answered) && t.calls[u].duration == ended - answered
            && t.cleanups == multiset{u}
  {
    hide Handled;
    var create := EventNamed(u, "CHANNEL_CREATE", created);
    RunNext([], create);
    assert [] + [create] == [create];
    OnCreate(Run([]), create.headers, created, u);
    AnsweredRinging([create], u, ringing, answered);
    var confirmed := [create] + [EventNamed(u, "CHANNEL_PROGRESS", ringing)]
                     + [EventNamed(u, "CHANNEL_ANSWER", answered)];
    HungUpParked(confirmed, u, parked, ended);
  }
}

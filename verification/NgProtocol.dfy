/** Concurrent requests over one socket, as atomic steps: registration, datagrams, receipt, timeout, removal. */
module NgProtocol {
  import opened Common
  import opened NgClient

  datatype Result = Waiting | Got(resp: Response) | Gone

  /** One call of `Send`. It stays registered until its deferred removal. */
  datatype Call = Call(cookie: string, channel: Option<Response>, result: Result, registered: bool)

  /** The reader between looking a cookie up and offering the response to the channel it found. */
  datatype Reader = Idle | Holding(call: nat, resp: Response)

  datatype State = State(calls: seq<Call>, store: map<string, nat>, reader: Reader)

  datatype Step =
    | Register(cookie: string)   // a call of Send puts its channel in the store
    | Datagram(data: string)     // the reader decodes a datagram and looks its cookie up
    | Put                        // the reader offers the response to the channel
    | Receive(call: nat)         // a call takes the response from its channel and returns it
    | GiveUp(call: nat)          // a call times out, or could not write its request
    | Remove(call: nat)          // a call that has returned is taken out of the store

  function Next(s: State, step: Step, decode: Decoder): State
  {
    match step
    case Register(cookie) =>
      State(s.calls + [Call(cookie, None, Waiting, true)], s.store[cookie := |s.calls|], s.reader)
    case Datagram(data) =>
      if s.reader.Holding? then s
      else
        (match Decoded(data, decode)
         case None => s
         case Some((cookie, resp)) => if cookie in s.store then s.(reader := Holding(s.store[cookie], resp)) else s)
    case Put =>
      if s.reader.Idle? || s.reader.call >= |s.calls| then s.(reader := Idle)
      else
        var c := s.calls[s.reader.call];
        s.(calls := s.calls[s.reader.call := c.(channel := Offered(c.channel, s.reader.resp))], reader := Idle)
    case Receive(i) =>
      if i < |s.calls| && s.calls[i].result == Waiting && s.calls[i].channel.Some?
      then s.(calls := s.calls[i := s.calls[i].(channel := None, result := Got(s.calls[i].channel.value))])
      else s
    case GiveUp(i) =>
      if i < |s.calls| && s.calls[i].result == Waiting then
        s.(calls := s.calls[i := s.calls[i].(result := Gone)])
      else s
    case Remove(i) =>
      if i < |s.calls| && s.calls[i].result != Waiting && s.calls[i].registered
      then s.(calls := s.calls[i := s.calls[i].(registered := false)], store := s.store - {s.calls[i].cookie})
      else s
  }

  function Run(steps: seq<Step>, decode: Decoder): State
  {
    if steps == [] then State([], map[], Idle) else Next(Run(steps[..|steps| - 1], decode), steps[|steps| - 1], decode)
  }

  /** No cookie is drawn while it is still registered. */
  predicate FreshCookies(steps: seq<Step>, decode: Decoder)
  {
    steps != [] ==>
      var init, last := steps[..|steps| - 1], steps[|steps| - 1];
      && FreshCookies(init, decode)
      && (last.Register? ==> last.cookie !in Run(init, decode).store)
  }

  /** The response the last step delivers for call `i`: a datagram with the call's cookie, while it is
      registered and the reader is free. */
  function DeliveredLast(steps: seq<Step>, i: nat, decode: Decoder): seq<Response>
    requires steps != []
  {
    var s, last := Run(steps[..|steps| - 1], decode), steps[|steps| - 1];
    if last.Datagram? && s.reader.Idle? && i < |s.calls| && s.calls[i].registered
       && Decoded(last.data, decode).Some? && Decoded(last.data, decode).value.0 == s.calls[i].cookie
    then [Decoded(last.data, decode).value.1] else []
  }

  /** All responses delivered for call `i`, in order. */
  function Delivered(steps: seq<Step>, i: nat, decode: Decoder): seq<Response>
  {
    if steps == [] then [] else Delivered(steps[..|steps| - 1], i, decode) + DeliveredLast(steps, i, decode)
  }

  // ---------------------------------------------------------------- the store

  /** The store holds exactly the registered calls, each under its own cookie. */
  ghost predicate StoreMatches(s: State)
  {
    && (forall c :: c in s.store ==>
                      s.store[c] < |s.calls| && s.calls[s.store[c]].registered && s.calls[s.store[c]].cookie == c)
    && (forall i :: 0 <= i < |s.calls| && s.calls[i].registered ==>
                      s.calls[i].cookie in s.store && s.store[s.calls[i].cookie] == i)
    && (s.reader.Holding? ==> s.reader.call < |s.calls|)
  }

  lemma StepKeepsStore(s: State, step: Step, decode: Decoder)
    requires StoreMatches(s) && (step.Register? ==> step.cookie !in s.store)
    ensures StoreMatches(Next(s, step, decode))
  {
    hide Decoded;
  }

  lemma {:induction false} StoreAlwaysMatches(steps: seq<Step>, decode: Decoder)
    requires FreshCookies(steps, decode)
    ensures StoreMatches(Run(steps, decode))
    decreases |steps|
  {
    hide StoreMatches, Next;
    if steps == [] {
      EmptyStoreMatches();
    } else {
      StoreAlwaysMatches(steps[..|steps| - 1], decode);
      StepKeepsStore(Run(steps[..|steps| - 1], decode), steps[|steps| - 1], decode);
    }
  }

  lemma EmptyStoreMatches()
    ensures StoreMatches(State([], map[], Idle))
  {
  }

  // ---------------------------------------------------------------- one call

  /** Where the first delivered response of a call is: returned, in the channel, or in the reader's hand. */
  ghost predicate FirstIsTracked(s: State, i: nat, delivered: seq<Response>)
  {
    if i >= |s.calls| then delivered == []
    else
      match s.calls[i].result
      case Gone => true
      case Got(resp) => delivered != [] && resp == delivered[0]
      case Waiting =>
        match s.calls[i].channel
        case Some(resp) => delivered != [] && resp == delivered[0]
        case None => delivered == if s.reader.Holding? && s.reader.call == i then [s.reader.resp] else []
  }

  lemma StepTracksFirst(s: State, step: Step, decode: Decoder, i: nat, delivered: seq<Response>, more: seq<Response>)
    requires StoreMatches(s) && FirstIsTracked(s, i, delivered)
    requires more ==
      if step.Datagram? && s.reader.Idle? && i < |s.calls| && s.calls[i].registered
         && Decoded(step.data, decode).Some? && Decoded(step.data, decode).value.0 == s.calls[i].cookie
      then [Decoded(step.data, decode).value.1] else []
    requires i < |s.calls| && s.calls[i].result == Waiting ==> s.calls[i].registered
    ensures FirstIsTracked(Next(s, step, decode), i, delivered + more)
  {
    hide Decoded;
    assert more == [] ==> delivered + more == delivered;
    match step
    case Register(_) =>
    case Datagram(_) =>
    case Put =>
    case Receive(_) =>
    case GiveUp(_) =>
    case Remove(_) =>
  }

  ghost predicate WaitersRegistered(s: State)
  {
    forall i :: 0 <= i < |s.calls| && s.calls[i].result == Waiting ==> s.calls[i].registered
  }

  lemma StepKeepsWaiters(s: State, step: Step, decode: Decoder)
    requires WaitersRegistered(s)
    ensures WaitersRegistered(Next(s, step, decode))
  {
  }

  lemma {:induction false} WaitersAreRegistered(steps: seq<Step>, decode: Decoder)
    ensures WaitersRegistered(Run(steps, decode))
    decreases |steps|
  {
    hide Next;
    if steps == [] {
    } else {
      WaitersAreRegistered(steps[..|steps| - 1], decode);
      StepKeepsWaiters(Run(steps[..|steps| - 1], decode), steps[|steps| - 1], decode);
    }
  }

  lemma {:induction false} FirstStaysTracked(steps: seq<Step>, decode: Decoder, i: nat)
    requires FreshCookies(steps, decode)
    ensures FirstIsTracked(Run(steps, decode), i, Delivered(steps, i, decode))
    decreases |steps|
  {
    hide StoreMatches, Next, FirstIsTracked, Decoded;
    if steps == [] {
      NothingTracked(i);
    } else {
      var init := steps[..|steps| - 1];
      FirstStaysTracked(init, decode, i);
      StoreAlwaysMatches(init, decode);
      WaitersAreRegistered(init, decode);
      StepTracksFirst(Run(init, decode), steps[|steps| - 1], decode, i, Delivered(init, i, decode),
                      DeliveredLast(steps, i, decode));
    }
  }

  lemma NothingTracked(i: nat)
    ensures FirstIsTracked(State([], map[], Idle), i, [])
  {
  }

  /** Over any interleaving of concurrent requests, duplicate, late or reordered datagrams and timeouts, a call
      that returns a response returns the first one delivered for its own cookie while it was registered. */
  lemma FirstResponseIsReturned(steps: seq<Step>, decode: Decoder, i: nat)
    requires FreshCookies(steps, decode) && i < |Run(steps, decode).calls| && Run(steps, decode).calls[i].result.Got?
    ensures Delivered(steps, i, decode) != []
    ensures Run(steps, decode).calls[i].result.resp == Delivered(steps, i, decode)[0]
  {
    FirstStaysTracked(steps, decode, i);
  }

  /** How many responses call `i` has taken from its channel. */
  function Consumed(steps: seq<Step>, i: nat, decode: Decoder): nat
  {
    if steps == [] then 0
    else
      var s := Run(steps[..|steps| - 1], decode);
      Consumed(steps[..|steps| - 1], i, decode)
      + (if steps[|steps| - 1] == Receive(i) && Next(s, Receive(i), decode) != s then 1 else 0)
  }

  predicate HasGot(s: State, i: nat) { i < |s.calls| && s.calls[i].result.Got? }

  /** A call gets its result in the step that takes a response, and keeps it. */
  lemma GotByReceiving(s: State, step: Step, i: nat, decode: Decoder)
    ensures HasGot(Next(s, step, decode), i) <==> HasGot(s, i) || (step == Receive(i) && Next(s, step, decode) != s)
    ensures HasGot(s, i) ==> Next(s, Receive(i), decode) == s
  {
    hide Decoded;
    if step == Receive(i) && i < |s.calls| && s.calls[i].result == Waiting && s.calls[i].channel.Some? {
      assert Next(s, step, decode).calls[i].result != s.calls[i].result;
    }
  }

  /** A call consumes one response if it returns one, and otherwise none. */
  lemma {:induction false} AtMostOneIsConsumed(steps: seq<Step>, i: nat, decode: Decoder)
    ensures Consumed(steps, i, decode) == if HasGot(Run(steps, decode), i) then 1 else 0
    decreases |steps|
  {
    if steps == [] {
    } else {
      hide Next, HasGot;
      var init, last := steps[..|steps| - 1], steps[|steps| - 1];
      AtMostOneIsConsumed(init, i, decode);
      GotByReceiving(Run(init, decode), last, i, decode);
    }
  }

  /** A reader that is not interrupted does in two steps what the client's method does in one call. */
  lemma HandlingIsTwoSteps(s: State, data: string, decode: Decoder)
    requires s.reader.Idle? && StoreMatches(s)
    ensures var n := Next(Next(s, Datagram(data), decode), Put, decode);
            var channels := Map((c: Call) => c.channel, s.calls);
            Tables(n.store, Map((c: Call) => c.channel, n.calls)) == Routed(Tables(s.store, channels), data, decode)
  {
    hide Decoded;
    var n := Next(Next(s, Datagram(data), decode), Put, decode);
    var l := Map((c: Call) => c.channel, n.calls);
    var r := Routed(Tables(s.store, Map((c: Call) => c.channel, s.calls)), data, decode);
    assert |l| == |r.channels|;
  }

  // ---------------------------------------------------------------- a genuine reply, step by step

  /** In every run with fresh cookies, a genuine reply that comes while the reader is free is delivered to the call
      registered under its cookie, and to no other; to none at all if there is no such call. */
  lemma ReplyIsDelivered(steps: seq<Step>, cookie: string, json: string, decode: Decoder, resp: Response, i: nat)
    requires FreshCookies(steps, decode) && Run(steps, decode).reader.Idle?
    requires ' ' !in cookie && decode(json) == Some(resp)
    ensures var s, all := Run(steps, decode), steps + [Datagram(cookie + " " + json)];
            var mine := i < |s.calls| && s.calls[i].registered && s.calls[i].cookie == cookie;
            && Delivered(all, i, decode) == Delivered(steps, i, decode) + (if mine then [resp] else [])
            && (mine ==> Run(all, decode) == s.(reader := Holding(i, resp)))
            && ((forall j :: 0 <= j < |s.calls| && s.calls[j].registered ==> s.calls[j].cookie != cookie) ==>
                  Run(all, decode) == s)
  {
    hide Decoded;
    StoreAlwaysMatches(steps, decode);
    ReplyDecodes(cookie, json, decode, resp);
    var last := Datagram(cookie + " " + json);
    assert (steps + [last])[..|steps|] == steps;
    var s := Run(steps, decode);
    assert Run(steps + [last], decode) == Next(s, last, decode);
  }

  lemma ReplyDecodes(cookie: string, json: string, decode: Decoder, resp: Response)
    requires ' ' !in cookie && decode(json) == Some(resp)
    ensures Decoded(cookie + " " + json, decode) == Some((cookie, resp))
  {
    hide SplitParts;
    FramingRoundTrip(cookie, json);
  }

  /** The call waits with a response in its channel while the reader holds one for it. */
  predicate HoldsTwo(s: State, i: nat)
  {
    && i < |s.calls| && s.calls[i].result == Waiting && s.calls[i].channel.Some?
    && s.reader.Holding? && s.reader.call == i
  }

  lemma SecondInHand(s: State, step: Step, decode: Decoder, i: nat)
    requires StoreMatches(s) && HoldsTwo(Next(s, step, decode), i) && !HoldsTwo(s, i)
    ensures step.Datagram? && s.reader.Idle? && i < |s.calls| && s.calls[i].registered
    ensures s.calls[i].result == Waiting && s.calls[i].channel.Some?
    ensures Decoded(step.data, decode).Some? && Decoded(step.data, decode).value.0 == s.calls[i].cookie
  {
    hide Decoded;
  }

  /** A response in the reader's hand is another one than that in the call's channel. */
  lemma {:induction false} HeldIsAnother(steps: seq<Step>, i: nat, decode: Decoder)
    requires FreshCookies(steps, decode)
    ensures HoldsTwo(Run(steps, decode), i) ==> |Delivered(steps, i, decode)| >= 2
    decreases |steps|
  {
    hide Decoded, HoldsTwo, Next, StoreMatches;
    if steps == [] {
      NobodyWaits(i);
    } else {
      var init := steps[..|steps| - 1];
      HeldIsAnother(init, i, decode);
      FirstStaysTracked(init, decode, i);
      StoreAlwaysMatches(init, decode);
      if HoldsTwo(Run(steps, decode), i) && !HoldsTwo(Run(init, decode), i) {
        SecondInHand(Run(init, decode), steps[|steps| - 1], decode, i);
      }
    }
  }

  lemma NobodyWaits(i: nat)
    ensures !HoldsTwo(State([], map[], Idle), i)
  {
  }

  lemma EndOfCall(s: State, i: nat, decode: Decoder)
    requires StoreMatches(s) && i < |s.calls| && s.calls[i].result == Waiting && s.calls[i].registered
    ensures var n, gone := Next(s, Receive(i), decode), Next(s, GiveUp(i), decode);
            && s.calls[i].cookie in s.store
            && (if s.calls[i].channel == None then n == s
                else
                  && i < |n.calls| && n.calls[i].result == Got(s.calls[i].channel.value) && n.calls[i].channel == None
                  && s.calls[i].cookie !in Next(n, Remove(i), decode).store)
            && i < |gone.calls| && gone.calls[i].result == Gone
            && s.calls[i].cookie !in Next(gone, Remove(i), decode).store
  {
  }

  /** A waiting call can return exactly when a response has been delivered for it that is not still in the reader's
      hand; then it takes the first one delivered and returns it. It can always give up; and its place in the store is
      free after it was taken out. */
  lemma CallReturns(steps: seq<Step>, i: nat, decode: Decoder)
    requires FreshCookies(steps, decode)
    requires var s := Run(steps, decode); i < |s.calls| && s.calls[i].result == Waiting
    ensures var s, responses := Run(steps, decode), Delivered(steps, i, decode);
            var n, gone := Next(s, Receive(i), decode), Next(s, GiveUp(i), decode);
            var ready := |responses| >= 2 || (responses != [] && !(s.reader.Holding? && s.reader.call == i));
            && (if ready then n.calls[i].result == Got(responses[0]) && n.calls[i].channel == None else n == s)
            && gone.calls[i].result == Gone && s.calls[i].cookie in s.store
            && s.calls[i].cookie !in Next(gone, Remove(i), decode).store
            && (ready ==> s.calls[i].cookie !in Next(n, Remove(i), decode).store)
  {
    hide Next, StoreMatches, Run;
    StoreAlwaysMatches(steps, decode);
    WaitersAreRegistered(steps, decode);
    EndOfCall(Run(steps, decode), i, decode);
    HeldIsAnother(steps, i, decode);
    FirstStaysTracked(steps, decode, i);
  }
}

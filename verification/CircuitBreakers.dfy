/** The two circuit breakers: the event socket's and the monitor's. */
module CircuitBreakers {
  import opened Common

  datatype CircuitState = Closed | Open | HalfOpen

  /** What a breaker's owner does to it, with the clock it reads. */
  datatype Call = Success | Failure(at: int) | Query(at: int)

  // ---------------------------------------------------------------- the event socket's breaker

  datatype Breaker = Breaker(failures: int, lastFailure: int, state: CircuitState)

  function Asked(b: Breaker, timeout: int, now: int): Breaker
  {
    if b.state == Open && now - b.lastFailure > timeout then b.(state := HalfOpen) else b
  }

  function Succeeded(b: Breaker): Breaker { b.(failures := 0, state := Closed) }

  function Failed(b: Breaker, threshold: int, now: int): Breaker
  {
    Breaker(b.failures + 1, now, if b.failures + 1 >= threshold then Open else b.state)
  }

  class CircuitBreaker {
    const threshold: int
    const timeout: int
    var failures: int
    var lastFailure: int
    var state: CircuitState

    function View(): Breaker
      reads this
    {
      Breaker(failures, lastFailure, state)
    }

    constructor (threshold: int, timeout: int)
      ensures this.threshold == threshold && this.timeout == timeout && View() == Breaker(0, 0, Closed)
    {
      this.threshold, this.timeout := threshold, timeout;
      failures, lastFailure, state := 0, 0, Closed;
    }

    method IsOpen(now: int) returns (open: bool)
      modifies this
      ensures View() == Asked(old(View()), timeout, now) && (open <==> View().state == Open)
    {
      if state == Closed {
        return false;
      }
      if state == Open && now - lastFailure > timeout {
        state := HalfOpen;
        return false;
      }
      return state == Open;
    }

    method RecordSuccess()
      modifies this
      ensures View() == Succeeded(old(View()))
    {
      failures := 0;
      state := Closed;
    }

    method RecordFailure(now: int)
      modifies this
      ensures View() == Failed(old(View()), threshold, now)
    {
      failures := failures + 1;
      lastFailure := now;
      if failures >= threshold {
        state := Open;
      }
    }
  }

  function BreakerNext(b: Breaker, call: Call, threshold: int, timeout: int): Breaker
  {
    match call
    case Success => Succeeded(b)
    case Failure(at) => Failed(b, threshold, at)
    case Query(at) => Asked(b, timeout, at)
  }

  function BreakerAfter(calls: seq<Call>, threshold: int, timeout: int): Breaker
  {
    if calls == [] then Breaker(0, 0, Closed)
    else BreakerNext(BreakerAfter(calls[..|calls| - 1], threshold, timeout), calls[|calls| - 1], threshold, timeout)
  }

  // ---------------------------------------------------------------- the monitor's breaker

  datatype Monitor = Monitor(failures: int, openTime: int, state: CircuitState)

  /** Open, and its time is over. */
  predicate TimedOut(m: Monitor, timeout: int, now: int) { m.state == Open && now - m.openTime > timeout }

  function MonitorAsked(m: Monitor, timeout: int, now: int): Monitor
  {
    if TimedOut(m, timeout, now) then m.(state := HalfOpen) else m
  }

  function MonitorSucceeded(m: Monitor): Monitor
  {
    Monitor(0, m.openTime, if m.state == Open || m.state == HalfOpen then Closed else m.state)
  }

  function MonitorFailed(m: Monitor, threshold: int, now: int): Monitor
  {
    if m.failures + 1 >= threshold then Monitor(m.failures + 1, now, Open) else m.(failures := m.failures + 1)
  }

  class EnhancedMonitor {
    const circuitBreakerThreshold: int
    const circuitBreakerTimeout: int
    var circuitBreakerFailures: int
    var circuitBreakerOpenTime: int
    var circuitBreakerState: CircuitState

    function View(): Monitor
      reads this
    {
      Monitor(circuitBreakerFailures, circuitBreakerOpenTime, circuitBreakerState)
    }

    constructor (threshold: int, timeout: int)
      ensures circuitBreakerThreshold == threshold && circuitBreakerTimeout == timeout
              && View() == Monitor(0, 0, Closed)
    {
      circuitBreakerThreshold, circuitBreakerTimeout := threshold, timeout;
      circuitBreakerFailures, circuitBreakerOpenTime, circuitBreakerState := 0, 0, Closed;
    }

    method RecordCircuitBreakerFailure(now: int)
      modifies this
      ensures View() == MonitorFailed(old(View()), circuitBreakerThreshold, now)
    {
      circuitBreakerFailures := circuitBreakerFailures + 1;
      if circuitBreakerFailures >= circuitBreakerThreshold {
        circuitBreakerState := Open;
        circuitBreakerOpenTime := now;
      }
    }

    method RecordCircuitBreakerSuccess()
      modifies this
      ensures View() == MonitorSucceeded(old(View()))
    {
      circuitBreakerFailures := 0;
      if circuitBreakerState == Open || circuitBreakerState == HalfOpen {
        circuitBreakerState := Closed;
      }
    }

    /** The first locked region of a query: the state, unless it is open and its time is over. */
    method CheckState(now: int) returns (state: Option<CircuitState>)
      ensures state == if TimedOut(View(), circuitBreakerTimeout, now) then None else Some(View().state)
    {
      if circuitBreakerState == Open {
        if now - circuitBreakerOpenTime > circuitBreakerTimeout {
          return None;
        }
      }
      return Some(circuitBreakerState);
    }

    /** The second locked region, which looks at nothing. */
    method MarkHalfOpen()
      modifies this
      ensures View() == old(View()).(state := HalfOpen)
    {
      circuitBreakerState := HalfOpen;
    }

    /** The third locked region, which does not look at the clock again. */
    method ReadState() returns (state: CircuitState)
      ensures state == View().state
    {
      return circuitBreakerState;
    }

    method GetCircuitBreakerState(now: int) returns (state: CircuitState)
      modifies this
      ensures View() == MonitorAsked(old(View()), circuitBreakerTimeout, now) && state == View().state
    {
      var checked := CheckState(now);
      if checked.Some? {
        return checked.value;
      }
      MarkHalfOpen();
      state := ReadState();
    }

    method IsCircuitBreakerOpen(now: int) returns (open: bool)
      modifies this
      ensures View() == MonitorAsked(old(View()), circuitBreakerTimeout, now) && (open <==> View().state == Open)
    {
      var state := GetCircuitBreakerState(now);
      return state == Open;
    }
  }

  function MonitorNext(m: Monitor, call: Call, threshold: int, timeout: int): Monitor
  {
    match call
    case Success => MonitorSucceeded(m)
    case Failure(at) => MonitorFailed(m, threshold, at)
    case Query(at) => MonitorAsked(m, timeout, at)
  }

  function MonitorAfter(calls: seq<Call>, threshold: int, timeout: int): Monitor
  {
    if calls == [] then Monitor(0, 0, Closed)
    else MonitorNext(MonitorAfter(calls[..|calls| - 1], threshold, timeout), calls[|calls| - 1], threshold, timeout)
  }

  // ---------------------------------------------------------------- the history alone

  /** The times of the failures since the last success, oldest first. */
  function Streak(calls: seq<Call>): seq<int>
  {
    if calls == [] then []
    else
      var before := Streak(calls[..|calls| - 1]);
      match calls[|calls| - 1]
      case Success => []
      case Failure(at) => before + [at]
      case Query(_) => before
  }

  /** Open by the history: enough failures since the last success, the last of them recent enough. */
  predicate OpenByHistory(calls: seq<Call>, threshold: int, timeout: int, now: int)
  {
    var streak := Streak(calls);
    streak != [] && |streak| >= threshold && now - streak[|streak| - 1] <= timeout
  }

  function TimeOf(call: Call, otherwise: int): int
  {
    if call.Success? then otherwise else call.at
  }

  /** The latest clock reading in the history. */
  function LastTime(calls: seq<Call>, start: int): int
  {
    if calls == [] then start else TimeOf(calls[|calls| - 1], LastTime(calls[..|calls| - 1], start))
  }

  /** No reading of the clock is earlier than one before it. */
  predicate ClockForward(calls: seq<Call>, start: int)
  {
    calls != [] ==>
      var init, last := calls[..|calls| - 1], calls[|calls| - 1];
      ClockForward(init, start) && (last.Success? || LastTime(init, start) <= last.at)
  }

  lemma {:induction false} BreakerTracksHistory(calls: seq<Call>, threshold: int, timeout: int, start: int)
    requires ClockForward(calls, start)
    ensures var b, streak, now := BreakerAfter(calls, threshold, timeout), Streak(calls), LastTime(calls, start);
            && b.failures == |streak|
            && (streak == [] ==> b.state == Closed)
            && (streak != [] ==>
                 && b.lastFailure == streak[|streak| - 1] <= now
                 && (b.state == Closed <==> |streak| < threshold)
                 && (b.state == HalfOpen ==> now - b.lastFailure > timeout))
    decreases |calls|
  {
    if calls == [] {
    } else {
      BreakerTracksHistory(calls[..|calls| - 1], threshold, timeout, start);
    }
  }

  lemma {:induction false} MonitorTracksHistory(calls: seq<Call>, threshold: int, timeout: int, start: int)
    requires ClockForward(calls, start)
    ensures var m, streak, now := MonitorAfter(calls, threshold, timeout), Streak(calls), LastTime(calls, start);
            && m.failures == |streak|
            && (streak == [] ==> m.state == Closed)
            && (streak != [] ==>
                 && streak[|streak| - 1] <= now
                 && (m.state == Closed <==> |streak| < threshold)
                 && (m.state != Closed ==> m.openTime == streak[|streak| - 1])
                 && (m.state == HalfOpen ==> now - m.openTime > timeout))
    decreases |calls|
  {
    if calls == [] {
    } else {
      MonitorTracksHistory(calls[..|calls| - 1], threshold, timeout, start);
    }
  }

  /** After any calls on a clock that never runs back, the event socket's breaker answers as the history does. */
  lemma BreakerAnswersHistory(calls: seq<Call>, threshold: int, timeout: int, start: int, now: int)
    requires ClockForward(calls, start) && LastTime(calls, start) <= now
    ensures Asked(BreakerAfter(calls, threshold, timeout), timeout, now).state == Open
       <==> OpenByHistory(calls, threshold, timeout, now)
  {
    BreakerTracksHistory(calls, threshold, timeout, start);
  }

  lemma MonitorAnswersHistory(calls: seq<Call>, threshold: int, timeout: int, start: int, now: int)
    requires ClockForward(calls, start) && LastTime(calls, start) <= now
    ensures MonitorAsked(MonitorAfter(calls, threshold, timeout), timeout, now).state == Open
       <==> OpenByHistory(calls, threshold, timeout, now)
  {
    MonitorTracksHistory(calls, threshold, timeout, start);
  }

  /** The answers each breaker gives to the queries among the calls, in order. */
  function BreakerAnswers(calls: seq<Call>, threshold: int, timeout: int): seq<bool>
  {
    if calls == [] then []
    else BreakerAnswers(calls[..|calls| - 1], threshold, timeout)
         + (if calls[|calls| - 1].Query? then [BreakerAfter(calls, threshold, timeout).state == Open] else [])
  }

  function MonitorAnswers(calls: seq<Call>, threshold: int, timeout: int): seq<bool>
  {
    if calls == [] then []
    else MonitorAnswers(calls[..|calls| - 1], threshold, timeout)
         + (if calls[|calls| - 1].Query? then [MonitorAfter(calls, threshold, timeout).state == Open] else [])
  }

  /** Run by run, the two breakers cannot be told apart. */
  lemma {:induction false} BreakersAgree(calls: seq<Call>, threshold: int, timeout: int, start: int)
    requires ClockForward(calls, start)
    ensures BreakerAnswers(calls, threshold, timeout) == MonitorAnswers(calls, threshold, timeout)
    decreases |calls|
  {
    if calls == [] {
    } else {
      var init, last := calls[..|calls| - 1], calls[|calls| - 1];
      BreakersAgree(init, threshold, timeout, start);
      if last.Query? {
        BreakerAnswersHistory(init, threshold, timeout, start, last.at);
        MonitorAnswersHistory(init, threshold, timeout, start, last.at);
      }
    }
  }
}

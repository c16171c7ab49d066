/** The monitor's query in its three locked regions, with other goroutines' calls and queries in between. */
module MonitorRace {
  import opened Common
  import opened CircuitBreakers

  /** A whole call of the monitor, or one locked region of a numbered query: `Check` reads state and clock; `Mark`
      writes half-open; `Return` reads the state again, without the clock: `at` only says when. */
  datatype Move = Succeed | Fail(at: int) | Check(query: nat, at: int) | Mark(query: nat) | Return(query: nat, at: int)

  /** How far a query has come whose check found the time over; `since` is the place of that check. */
  datatype Phase = Expired(since: nat) | Marked(since: nat)

  datatype Raced = Raced(monitor: Monitor, queries: map<nat, Phase>)

  predicate IsMarking(r: Raced, query: nat) { query in r.queries && r.queries[query].Expired? }

  predicate IsReturning(r: Raced, query: nat) { query in r.queries && r.queries[query].Marked? }

  /** One move; a region whose query has not come to it changes nothing. */
  function Next(r: Raced, move: Move, place: nat, threshold: int, timeout: int): Raced
  {
    match move
    case Succeed => r.(monitor := MonitorSucceeded(r.monitor))
    case Fail(at) => r.(monitor := MonitorFailed(r.monitor, threshold, at))
    case Check(query, at) =>
      if query in r.queries || !TimedOut(r.monitor, timeout, at) then r
      else r.(queries := r.queries[query := Expired(place)])
    case Mark(query) =>
      if IsMarking(r, query)
      then Raced(r.monitor.(state := HalfOpen), r.queries[query := Marked(r.queries[query].since)])
      else r
    case Return(query, _) => if IsReturning(r, query) then r.(queries := r.queries - {query}) else r
  }

  /** What a move answers its query: in the first region when there is nothing to write, otherwise in the third. */
  function Answered(r: Raced, move: Move, timeout: int): Option<CircuitState>
  {
    match move
    case Check(query, at) =>
      if query in r.queries || TimedOut(r.monitor, timeout, at) then None else Some(r.monitor.state)
    case Return(query, _) => if IsReturning(r, query) then Some(r.monitor.state) else None
    case _ => None
  }

  function RacedAfter(moves: seq<Move>, threshold: int, timeout: int): Raced
  {
    if moves == [] then Raced(Monitor(0, 0, Closed), map[])
    else
      var init := moves[..|moves| - 1];
      Next(RacedAfter(init, threshold, timeout), moves[|moves| - 1], |init|, threshold, timeout)
  }

  function CallOf(move: Move): seq<Call>
  {
    match move
    case Succeed => [Success]
    case Fail(at) => [Failure(at)]
    case _ => []
  }

  /** The successes and failures among the moves, which are the history. */
  function CallsOf(moves: seq<Move>): seq<Call>
  {
    if moves == [] then [] else CallsOf(moves[..|moves| - 1]) + CallOf(moves[|moves| - 1])
  }

  /** A query has written half-open since the last success or failure. */
  predicate Overtaken(moves: seq<Move>, threshold: int, timeout: int)
  {
    moves != [] &&
    var init := moves[..|moves| - 1];
    match moves[|moves| - 1]
    case Succeed => false
    case Fail(_) => false
    case Mark(query) => IsMarking(RacedAfter(init, threshold, timeout), query) || Overtaken(init, threshold, timeout)
    case _ => Overtaken(init, threshold, timeout)
  }

  /** Enough failures since the last success. */
  predicate HasFailures(calls: seq<Call>, threshold: int)
  {
    Streak(calls) != [] && |Streak(calls)| >= threshold
  }

  // ---------------------------------------------------------------- the state against the history

  lemma StreakNext(calls: seq<Call>, call: Call)
    ensures Streak(calls + [call]) ==
            if call.Success? then [] else if call.Failure? then Streak(calls) + [call.at] else Streak(calls)
  {
    assert (calls + [call])[..|calls|] == calls;
  }

  lemma StreakMove(calls: seq<Call>, move: Move)
    ensures Streak(calls + CallOf(move)) ==
            if move.Succeed? then [] else if move.Fail? then Streak(calls) + [move.at] else Streak(calls)
  {
    if move.Succeed? {
      StreakNext(calls, Success);
    } else if move.Fail? {
      StreakNext(calls, Failure(move.at));
    } else {
      assert calls + [] == calls;
    }
  }

  /** Over every interleaving the monitor is open exactly when the history has the failures and no query has written
      over the last of them. */
  lemma {:induction false} StateByHistory(moves: seq<Move>, threshold: int, timeout: int)
    ensures var m, streak := RacedAfter(moves, threshold, timeout).monitor, Streak(CallsOf(moves));
            && m.failures == |streak|
            && (m.state == Open <==> HasFailures(CallsOf(moves), threshold) && !Overtaken(moves, threshold, timeout))
            && (HasFailures(CallsOf(moves), threshold) ==> m.openTime == streak[|streak| - 1])
    decreases |moves|
  {
    hide Streak;
    if moves == [] {
      assert Streak([]) == [] by { NoStreak(); }
    } else {
      StateByHistory(moves[..|moves| - 1], threshold, timeout);
      StreakMove(CallsOf(moves[..|moves| - 1]), moves[|moves| - 1]);
    }
  }

  lemma NoStreak()
    ensures Streak([]) == []
  {
  }

  /** What a whole query, or the check of an interrupted one, would say now: open exactly when the history says so and
      no query has overtaken its last failure. */
  lemma AskedByHistory(moves: seq<Move>, threshold: int, timeout: int, now: int)
    ensures MonitorAsked(RacedAfter(moves, threshold, timeout).monitor, timeout, now).state == Open
       <==> OpenByHistory(CallsOf(moves), threshold, timeout, now) && !Overtaken(moves, threshold, timeout)
  {
    StateByHistory(moves, threshold, timeout);
  }

  // ---------------------------------------------------------------- the clock

  function Reading(move: Move): Option<int>
  {
    match move
    case Succeed => None
    case Fail(at) => Some(at)
    case Check(_, at) => Some(at)
    case Mark(_) => None
    case Return(_, at) => Some(at)
  }

  /** No reading of the clock is earlier than one before it, and `now` is not earlier than any. */
  predicate ClockForward(moves: seq<Move>, now: int)
  {
    && (forall i :: 0 <= i < |moves| && Reading(moves[i]).Some? ==> Reading(moves[i]).value <= now)
    && (forall i, j :: 0 <= i < j < |moves| && Reading(moves[i]).Some? && Reading(moves[j]).Some? ==>
          Reading(moves[i]).value <= Reading(moves[j]).value)
  }

  /** The place of the last failure, if there was no success since. */
  function LastFail(moves: seq<Move>): Option<nat>
  {
    if moves == [] then None
    else
      match moves[|moves| - 1]
      case Succeed => None
      case Fail(_) => Some(|moves| - 1)
      case _ => LastFail(moves[..|moves| - 1])
  }

  lemma {:induction false} LastFailEndsStreak(moves: seq<Move>)
    ensures LastFail(moves).Some? <==> Streak(CallsOf(moves)) != []
    ensures LastFail(moves).Some? ==>
              var k, streak := LastFail(moves).value, Streak(CallsOf(moves));
              && k < |moves| && moves[k] == Fail(streak[|streak| - 1])
              && Streak(CallsOf(moves[..k + 1])) == streak
    decreases |moves|
  {
    hide Streak;
    if moves == [] {
      NoStreak();
    } else {
      var init := moves[..|moves| - 1];
      LastFailEndsStreak(init);
      StreakMove(CallsOf(init), moves[|moves| - 1]);
      assert moves[..|moves|] == moves;
      if !moves[|moves| - 1].Fail? && LastFail(moves).Some? {
        assert moves[..LastFail(moves).value + 1] == init[..LastFail(moves).value + 1];
      }
    }
  }

  // ---------------------------------------------------------------- when the race hides a failure

  function Fails(n: nat): seq<Move> { seq(n, _ => Fail(0)) }

  lemma RacedAppend(moves: seq<Move>, move: Move, threshold: int, timeout: int)
    ensures RacedAfter(moves + [move], threshold, timeout)
         == Next(RacedAfter(moves, threshold, timeout), move, |moves|, threshold, timeout)
    ensures CallsOf(moves + [move]) == CallsOf(moves) + CallOf(move)
    ensures Overtaken(moves + [move], threshold, timeout) <==>
              && !move.Succeed? && !move.Fail?
              && ((move.Mark? && IsMarking(RacedAfter(moves, threshold, timeout), move.query))
                  || Overtaken(moves, threshold, timeout))
  {
    hide Next;
    assert (moves + [move])[..|moves|] == moves;
  }

  lemma NothingYet(threshold: int, timeout: int)
    ensures RacedAfter([], threshold, timeout).queries == map[] && !Overtaken([], threshold, timeout)
    ensures CallsOf([]) == []
  {
  }

  /** As many failures at time zero as it takes. */
  lemma {:induction false} FailsOpen(n: nat, threshold: int, timeout: int)
    ensures RacedAfter(Fails(n), threshold, timeout).queries == map[]
    ensures !Overtaken(Fails(n), threshold, timeout)
    ensures Streak(CallsOf(Fails(n))) == seq(n, _ => 0)
  {
    hide Streak, Next, RacedAfter, CallsOf, Overtaken;
    if n == 0 {
      NothingYet(threshold, timeout);
      NoStreak();
    } else {
      FailsOpen(n - 1, threshold, timeout);
      assert Fails(n) == Fails(n - 1) + [Fail(0)];
      RacedAppend(Fails(n - 1), Fail(0), threshold, timeout);
      StreakMove(CallsOf(Fails(n - 1)), Fail(0));
      FailKeepsQueries(RacedAfter(Fails(n - 1), threshold, timeout), 0, n - 1, threshold, timeout);
    }
  }

  lemma FailKeepsQueries(r: Raced, at: int, place: nat, threshold: int, timeout: int)
    ensures Next(r, Fail(at), place, threshold, timeout).queries == r.queries
  {
  }

  /** Enough failures, after which the monitor is open since time zero and no query is under way. */
  lemma Opened(threshold: int, timeout: int) returns (moves: seq<Move>)
    ensures var r := RacedAfter(moves, threshold, timeout);
            r.queries == map[] && r.monitor.state == Open && r.monitor.openTime == 0
    ensures HasFailures(CallsOf(moves), threshold) && forall i :: 0 <= i < |moves| ==> moves[i] == Fail(0)
  {
    var n: nat := if threshold < 1 then 1 else threshold;
    moves := Fails(n);
    FailsOpen(n, threshold, timeout);
    StateByHistory(moves, threshold, timeout);
  }

  /** A query finds the time over at `late`; a failure comes before it writes. */
  lemma HiddenFailure(threshold: int, timeout: int, late: int) returns (moves: seq<Move>)
    requires late > timeout && late >= 0
    ensures Overtaken(moves, threshold, timeout) && HasFailures(CallsOf(moves), threshold) && ClockForward(moves, late)
    ensures Streak(CallsOf(moves))[|Streak(CallsOf(moves))| - 1] == late
  {
    hide RacedAfter, CallsOf, Streak, Overtaken;
    var begun := Opened(threshold, timeout);
    var checked := begun + [Check(0, late)];
    var failed := checked + [Fail(late)];
    moves := failed + [Mark(0)];
    RacedAppend(begun, Check(0, late), threshold, timeout);
    RacedAppend(checked, Fail(late), threshold, timeout);
    RacedAppend(failed, Mark(0), threshold, timeout);
    StreakMove(CallsOf(begun), Check(0, late));
    StreakMove(CallsOf(checked), Fail(late));
    StreakMove(CallsOf(failed), Mark(0));
  }

  /** A query finds the time over at `late` and writes; then a failure opens the monitor again, before it returns. */
  lemma FailureBeforeReturn(threshold: int, timeout: int, late: int) returns (moves: seq<Move>)
    requires late > timeout && late >= 0
    ensures IsReturning(RacedAfter(moves, threshold, timeout), 0) && !Overtaken(moves, threshold, timeout)
    ensures HasFailures(CallsOf(moves), threshold) && ClockForward(moves, late)
    ensures Streak(CallsOf(moves))[|Streak(CallsOf(moves))| - 1] == late
  {
    hide RacedAfter, CallsOf, Streak, Overtaken;
    var begun := Opened(threshold, timeout);
    var checked := begun + [Check(0, late)];
    var marked := checked + [Mark(0)];
    moves := marked + [Fail(late)];
    RacedAppend(begun, Check(0, late), threshold, timeout);
    RacedAppend(checked, Mark(0), threshold, timeout);
    RacedAppend(marked, Fail(late), threshold, timeout);
    StreakMove(CallsOf(begun), Check(0, late));
    StreakMove(CallsOf(checked), Mark(0));
    StreakMove(CallsOf(marked), Fail(late));
  }

  /** The race can make the monitor answer other than the history, exactly when the timeout is not negative, whatever
      the threshold. */
  lemma RaceHidesFailure(threshold: int, timeout: int)
    ensures (exists moves, now :: ClockForward(moves, now)
                && MonitorAsked(RacedAfter(moves, threshold, timeout).monitor, timeout, now).state != Open
                && OpenByHistory(CallsOf(moves), threshold, timeout, now))
       <==> timeout >= 0
  {
    if timeout >= 0 {
      var moves := HiddenFailure(threshold, timeout, timeout + 1);
      AskedByHistory(moves, threshold, timeout, timeout + 1);
      assert ClockForward(moves, timeout + 1);
    } else {
      forall moves, now | ClockForward(moves, now) ensures !OpenByHistory(CallsOf(moves), threshold, timeout, now) {
        LastFailEndsStreak(moves);
        if Streak(CallsOf(moves)) != [] {
          assert Reading(moves[LastFail(moves).value]).Some?;
        }
      }
    }
  }

  // ---------------------------------------------------------------- what a query answers

  /** Uninterrupted, the three regions are the query taken as a whole. */
  lemma QueryIsThreeRegions(r: Raced, query: nat, place: nat, threshold: int, timeout: int, now: int)
    requires query !in r.queries
    ensures var checked := Next(r, Check(query, now), place, threshold, timeout);
            var marked := Next(checked, Mark(query), place + 1, threshold, timeout);
            var whole := MonitorAsked(r.monitor, timeout, now);
            var answer := Answered(r, Check(query, now), timeout);
            if answer.Some? then checked == r && answer.value == whole.state && whole == r.monitor
            else
              && Answered(marked, Return(query, now), timeout) == Some(whole.state)
              && Next(marked, Return(query, now), place + 2, threshold, timeout) == r.(monitor := whole)
  {
    var checked := Next(r, Check(query, now), place, threshold, timeout);
    var marked := Next(checked, Mark(query), place + 1, threshold, timeout);
    assert query in checked.queries ==> marked.queries - {query} == r.queries;
  }

  /** The regions of a query come in their order: a check finds the time over, then one mark, then one return; and only
      a success, a failure and such a mark change the monitor. */
  lemma RegionsInOrder(r: Raced, move: Move, place: nat, threshold: int, timeout: int, query: nat)
    ensures var n := Next(r, move, place, threshold, timeout);
            var before, after := Lookup(r.queries, query), Lookup(n.queries, query);
            && (before == None ==>
                  after == if move.Check? && move.query == query && r.monitor.state == Open
                              && move.at - r.monitor.openTime > timeout then Some(Expired(place)) else None)
            && (before.Some? && before.value.Expired? ==>
                  after == if move == Mark(query) then Some(Marked(before.value.since)) else before)
            && (before.Some? && before.value.Marked? ==>
                  after == if move.Return? && move.query == query then None else before)
            && (move == Mark(query) ==>
                  n.monitor == if before.Some? && before.value.Expired? then r.monitor.(state := HalfOpen)
                               else r.monitor)
            && (move.Check? || move.Return? ==> n.monitor == r.monitor)
  {
  }

  /** A query answered in its first region says open exactly when the history does and no other query has overtaken
      the last failure. */
  lemma CheckAnswers(moves: seq<Move>, query: nat, now: int, threshold: int, timeout: int)
    ensures var answer := Answered(RacedAfter(moves, threshold, timeout), Check(query, now), timeout);
            answer.Some? ==>
              (answer.value == Open <==>
                 OpenByHistory(CallsOf(moves), threshold, timeout, now) && !Overtaken(moves, threshold, timeout))
  {
    StateByHistory(moves, threshold, timeout);
  }

  /** A query answered in its third region does not look at the clock: it says open exactly when there are enough
      failures and none was overtaken, and it is right by the history at that moment exactly when there are not enough
      failures, or being overtaken and being out of time go together. */
  lemma ReturnAnswers(moves: seq<Move>, query: nat, now: int, threshold: int, timeout: int)
    requires IsReturning(RacedAfter(moves, threshold, timeout), query)
    ensures var answer := Answered(RacedAfter(moves, threshold, timeout), Return(query, now), timeout);
            var calls, overtaken := CallsOf(moves), Overtaken(moves, threshold, timeout);
            && answer.Some?
            && (answer.value == Open <==> HasFailures(calls, threshold) && !overtaken)
            && ((answer.value == Open <==> OpenByHistory(calls, threshold, timeout, now)) <==>
                  (HasFailures(calls, threshold) ==>
                     (overtaken <==> now - Streak(calls)[|Streak(calls)| - 1] > timeout)))
  {
    StateByHistory(moves, threshold, timeout);
  }

  /** Every query under way began with its own check, and one that has written finds the monitor open only by a failure
      after that check. */
  lemma {:induction false} QueriesBeganBefore(moves: seq<Move>, query: nat, threshold: int, timeout: int)
    ensures var r := RacedAfter(moves, threshold, timeout);
            query in r.queries ==>
              var since := r.queries[query].since;
              && since < |moves| && moves[since].Check? && moves[since].query == query
              && (r.queries[query].Marked? && r.monitor.state == Open ==>
                    LastFail(moves).Some? && since < LastFail(moves).value)
    decreases |moves|
  {
    if moves == [] {
    } else {
      var init := moves[..|moves| - 1];
      QueriesBeganBefore(init, query, threshold, timeout);
    }
  }

  /** When a query answers open in its third region, its monitor was opened between the query's check and its return,
      by a failure at whose moment the history said open, unless the timeout is negative. */
  lemma OpenWasRight(moves: seq<Move>, query: nat, now: int, threshold: int, timeout: int)
    requires Answered(RacedAfter(moves, threshold, timeout), Return(query, now), timeout) == Some(Open)
    ensures var since := RacedAfter(moves, threshold, timeout).queries[query].since;
            exists k :: since < k < |moves| && moves[k].Fail?
              && (OpenByHistory(CallsOf(moves[..k + 1]), threshold, timeout, moves[k].at) <==> timeout >= 0)
  {
    hide Streak, RacedAfter, Overtaken, CallsOf;
    StateByHistory(moves, threshold, timeout);
    QueriesBeganBefore(moves, query, threshold, timeout);
    LastFailEndsStreak(moves);
    var k := LastFail(moves).value;
    assert OpenByHistory(CallsOf(moves[..k + 1]), threshold, timeout, moves[k].at) <==> timeout >= 0;
  }

  /** For every threshold and timeout there is a run in which a query answers open where the history does not. */
  lemma ReturnAnswersStale(threshold: int, timeout: int)
    ensures exists moves, now ::
              && ClockForward(moves, now)
              && Answered(RacedAfter(moves, threshold, timeout), Return(0, now), timeout) == Some(Open)
              && !OpenByHistory(CallsOf(moves), threshold, timeout, now)
  {
    var late := if timeout < 0 then 0 else timeout + 1;
    var moves := FailureBeforeReturn(threshold, timeout, late);
    var now := late + late + 1;
    ReturnAnswers(moves, 0, now, threshold, timeout);
    ForwardLater(moves, late, now);
    assert !OpenByHistory(CallsOf(moves), threshold, timeout, now);
  }

  lemma ForwardLater(moves: seq<Move>, now: int, later: int)
    requires ClockForward(moves, now) && now <= later
    ensures ClockForward(moves, later)
  {
  }
}

/** The reconnection loop of the event socket's client, with its exponential backoff. */
module ConnectionManager {
  import opened Common
  import opened CircuitBreakers

  datatype Config = Config(
    maxRetries: int, initialBackoff: int, maxBackoff: int, multiplier: real, threshold: int, breakerTimeout: int)

  /** What an iteration of the loop meets: the clock when it asks the breaker, then whether connecting fails,
      and if not whether and when the session that follows ends in an error. */
  datatype Round = Refused(now: int) | Connected(now: int, failed: bool, endedAt: int)

  datatype Action = AwaitBreaker | Sleep(duration: int) | Session | GiveUp

  /** `min(time.Duration(float64(backoff) * multiplier), max)`; the conversion drops the fraction. */
  function Longer(backoff: int, config: Config): int
  {
    Min(Truncated(Grown(backoff, config.multiplier)), config.maxBackoff)
  }

  function Grown(backoff: int, multiplier: real): real { backoff as real * multiplier }

  function Truncated(x: real): int { if x < 0.0 then -((-x).Floor) else x.Floor }

  datatype Loop = Loop(attempts: int, backoff: int, breaker: Breaker, actions: seq<Action>, stopped: bool)

  function Start(config: Config): Loop
  {
    Loop(0, config.initialBackoff, Breaker(0, 0, Closed), [], false)
  }

  function Iterate(l: Loop, round: Round, config: Config): Loop
  {
    if l.stopped then l
    else
      var asked := Asked(l.breaker, config.breakerTimeout, round.now);
      if asked.state == Open then l.(breaker := asked, actions := l.actions + [AwaitBreaker])
      else if round.Refused? then
        if l.attempts + 1 >= config.maxRetries
        then Loop(l.attempts + 1, l.backoff, asked, l.actions + [GiveUp], true)
        else Loop(l.attempts + 1, Longer(l.backoff, config), asked, l.actions + [Sleep(l.backoff)], false)
      else
        var healed := Succeeded(asked);
        var after := if round.failed then Failed(healed, config.threshold, round.endedAt) else healed;
        Loop(0, config.initialBackoff, after, l.actions + [Session], false)
  }

  function After(rounds: seq<Round>, config: Config): Loop
  {
    if rounds == [] then Start(config) else Iterate(After(rounds[..|rounds| - 1], config), rounds[|rounds| - 1], config)
  }

  class Client {
    const config: Config
    const circuitBreaker: CircuitBreaker
    var reconnectAttempts: int

    constructor (config: Config)
      ensures this.config == config && reconnectAttempts == 0 && fresh(circuitBreaker)
      ensures circuitBreaker.threshold == config.threshold && circuitBreaker.timeout == config.breakerTimeout
      ensures circuitBreaker.View() == Breaker(0, 0, Closed)
    {
      this.config := config;
      circuitBreaker := new CircuitBreaker(config.threshold, config.breakerTimeout);
      reconnectAttempts := 0;
    }

    /** The loop, until it gives up or the rounds end because the context is cancelled. */
    method Run(rounds: seq<Round>) returns (actions: seq<Action>, gaveUp: bool)
      requires reconnectAttempts == 0 && circuitBreaker.View() == Breaker(0, 0, Closed)
      requires circuitBreaker.threshold == config.threshold && circuitBreaker.timeout == config.breakerTimeout
      modifies this, circuitBreaker
      ensures var l := After(rounds, config);
              actions == l.actions && gaveUp == l.stopped && reconnectAttempts == l.attempts
              && circuitBreaker.View() == l.breaker
    {
      var backoff := config.initialBackoff;
      actions := [];
      var i := 0;
      while i < |rounds|
        invariant 0 <= i <= |rounds|
        invariant After(rounds[..i], config) == Loop(reconnectAttempts, backoff, circuitBreaker.View(), actions, false)
      {
        var round := rounds[i];
        assert rounds[..i + 1][..i] == rounds[..i];
        i := i + 1;
        var open := circuitBreaker.IsOpen(round.now);
        if open {
          actions := actions + [AwaitBreaker];
          continue;
        }
        if round.Refused? {
          reconnectAttempts := reconnectAttempts + 1;
          if reconnectAttempts >= config.maxRetries {
            actions := actions + [GiveUp];
            StoppedStays(rounds, i, config);
            return actions, true;
          }
          actions := actions + [Sleep(backoff)];
          backoff := Longer(backoff, config);
          continue;
        }
        reconnectAttempts := 0;
        backoff := config.initialBackoff;
        circuitBreaker.RecordSuccess();
        actions := actions + [Session];
        if round.failed {
          circuitBreaker.RecordFailure(round.endedAt);
        }
      }
      assert rounds[..|rounds|] == rounds;
      return actions, false;
    }
  }

  lemma {:induction false} StoppedStays(rounds: seq<Round>, i: nat, config: Config)
    requires i <= |rounds| && After(rounds[..i], config).stopped
    ensures After(rounds, config) == After(rounds[..i], config)
    decreases |rounds|
  {
    if i == |rounds| {
      assert rounds[..i] == rounds;
    } else {
      var init := rounds[..|rounds| - 1];
      assert init[..i] == rounds[..i];
      StoppedStays(init, i, config);
    }
  }

  // ---------------------------------------------------------------- the breaker never opens

  /** A recorded failure always follows a recorded success, so one failure is all the breaker ever counts. */
  lemma {:induction false} BreakerStaysClosed(rounds: seq<Round>, config: Config)
    requires config.threshold >= 2
    ensures After(rounds, config).breaker.state == Closed
    ensures AwaitBreaker !in After(rounds, config).actions
    decreases |rounds|
  {
    if rounds == [] {
    } else {
      BreakerStaysClosed(rounds[..|rounds| - 1], config);
    }
  }

  function LastReading(rounds: seq<Round>): int
    requires rounds != []
  {
    var last := rounds[|rounds| - 1];
    if last.Connected? then last.endedAt else last.now
  }

  /** No reading of the clock is earlier than one before it. */
  predicate ClockRunsForward(rounds: seq<Round>)
  {
    rounds != [] ==>
      var init, last := rounds[..|rounds| - 1], rounds[|rounds| - 1];
      && ClockRunsForward(init) && (init != [] ==> LastReading(init) <= last.now)
      && (last.Connected? ==> last.now <= last.endedAt)
  }

  /** On a forward clock a negative timeout is over at once, so the breaker never keeps the loop waiting. */
  lemma {:induction false} NegativeTimeoutIsOver(rounds: seq<Round>, config: Config)
    requires config.breakerTimeout < 0 && ClockRunsForward(rounds)
    ensures var l := After(rounds, config);
            && AwaitBreaker !in l.actions
            && (l.breaker.state == Open ==> rounds != [] && l.breaker.lastFailure <= LastReading(rounds))
    decreases |rounds|
  {
    if rounds == [] {
    } else {
      NegativeTimeoutIsOver(rounds[..|rounds| - 1], config);
    }
  }

  /** A session that fails at time zero, and another attempt at once. */
  lemma FailAndAsk(config: Config) returns (rounds: seq<Round>)
    requires config.threshold <= 1 && config.breakerTimeout >= 0
    ensures ClockRunsForward(rounds) && AwaitBreaker in After(rounds, config).actions
  {
    var first, second := Connected(0, true, 0), Refused(0);
    rounds := [first, second];
    assert rounds[..1] == [first] && [first][..0] == [];
    var one := Iterate(Start(config), first, config);
    assert After([first], config) == Iterate(After([], config), first, config) == one;
    assert one.breaker == Breaker(1, 0, Open) && one.actions == [Session] && !one.stopped;
    assert After(rounds, config) == Iterate(one, second, config);
    assert After(rounds, config).actions == [Session] + [AwaitBreaker];
    assert After(rounds, config).actions[1] == AwaitBreaker;
    assert ClockRunsForward([first]) by { assert ClockRunsForward([]); }
  }

  /** On a forward clock the loop can come to wait for its breaker exactly when one failure is enough to open it
      and its timeout is not negative. */
  lemma BreakerOpensOnlyAtOne(config: Config)
    ensures (exists rounds :: ClockRunsForward(rounds) && AwaitBreaker in After(rounds, config).actions)
       <==> config.threshold <= 1 && config.breakerTimeout >= 0
  {
    hide After, ClockRunsForward;
    if config.threshold >= 2 {
      forall rounds ensures AwaitBreaker !in After(rounds, config).actions { BreakerStaysClosed(rounds, config); }
    } else if config.breakerTimeout < 0 {
      forall rounds | ClockRunsForward(rounds) ensures AwaitBreaker !in After(rounds, config).actions {
        NegativeTimeoutIsOver(rounds, config);
      }
    } else {
      var rounds := FailAndAsk(config);
    }
  }

  /** When the last session ended, if it ended in an error. */
  function LastError(rounds: seq<Round>, actions: seq<Action>): Option<int>
    requires |actions| <= |rounds|
  {
    if actions == [] then None
    else
      var round := rounds[|actions| - 1];
      if actions[|actions| - 1].Session? then
        if round.Connected? && round.failed then Some(round.endedAt) else None
      else LastError(rounds, actions[..|actions| - 1])
  }

  /** What the breaker knows of that error on a clock that has come to `now`. */
  predicate Remembers(b: Breaker, error: Option<int>, config: Config, now: int)
  {
    match error
    case None => b.state == Closed
    case Some(at) =>
      && b.lastFailure == at <= now
      && if config.threshold >= 2 then b.state == Closed
         else b.state == Open || (b.state == HalfOpen && now - at > config.breakerTimeout)
  }

  lemma RoundIsRemembered(l: Loop, round: Round, error: Option<int>, config: Config, before: int)
    requires !l.stopped && Remembers(l.breaker, error, config, before) && before <= round.now
    requires round.Connected? ==> round.now <= round.endedAt
    ensures var n := Iterate(l, round, config);
            var a := n.actions[|l.actions|];
            && n.actions == l.actions + [a] && (a.Session? ==> round.Connected?)
            && (a == AwaitBreaker <==>
                  error.Some? && config.threshold <= 1 && round.now - error.value <= config.breakerTimeout)
            && Remembers(n.breaker, if !a.Session? then error else if round.failed then Some(round.endedAt) else None,
                         config, if round.Connected? then round.endedAt else round.now)
  {
    hide Longer;
  }

  lemma LastErrorNext(rounds: seq<Round>, round: Round, actions: seq<Action>, a: Action)
    requires |actions| == |rounds| && (a.Session? ==> round.Connected?)
    ensures LastError(rounds + [round], actions + [a]) ==
            if !a.Session? then LastError(rounds, actions) else if round.failed then Some(round.endedAt) else None
  {
    assert (actions + [a])[..|actions|] == actions;
    SameError(rounds, round, actions);
  }

  lemma {:induction false} SameError(rounds: seq<Round>, round: Round, actions: seq<Action>)
    requires |actions| <= |rounds|
    ensures LastError(rounds + [round], actions) == LastError(rounds, actions)
    decreases |actions|
  {
    if actions != [] { SameError(rounds, round, actions[..|actions| - 1]); }
  }

  /** Before the loop has given up, every round causes one action, and what the breaker knows is the last error. */
  lemma {:induction false} ErrorIsRemembered(rounds: seq<Round>, config: Config)
    requires ClockRunsForward(rounds) && !After(rounds, config).stopped
    ensures var l := After(rounds, config);
            |l.actions| == |rounds| && (rounds == [] ==> l.breaker.state == Closed && l.actions == [])
            && (rounds != [] ==> Remembers(l.breaker, LastError(rounds, l.actions), config, LastReading(rounds)))
    decreases |rounds|
  {
    hide Remembers, Iterate, LastError;
    if rounds == [] {
    } else {
      var init, round := rounds[..|rounds| - 1], rounds[|rounds| - 1];
      assert rounds == init + [round];
      var l := After(init, config);
      if l.stopped { StoppedIterate(l, round, config); }
      ErrorIsRemembered(init, config);
      NextAction(init, round, config);
    }
  }

  lemma NextAction(rounds: seq<Round>, round: Round, config: Config)
    requires ClockRunsForward(rounds + [round])
    requires var l := After(rounds, config);
             && !l.stopped && |l.actions| == |rounds| && (rounds == [] ==> l.breaker.state == Closed && l.actions == [])
             && (rounds != [] ==> Remembers(l.breaker, LastError(rounds, l.actions), config, LastReading(rounds)))
    ensures var l, n := After(rounds, config), After(rounds + [round], config);
            var a := n.actions[|rounds|];
            && n.actions == l.actions + [a]
            && (a == AwaitBreaker <==>
                  var error := LastError(rounds, l.actions);
                  error.Some? && config.threshold <= 1 && round.now - error.value <= config.breakerTimeout)
            && Remembers(n.breaker, LastError(rounds + [round], n.actions), config, LastReading(rounds + [round]))
  {
    hide Iterate, LastError, Remembers;
    var l := After(rounds, config);
    assert (rounds + [round])[..|rounds|] == rounds;
    var error := LastError(rounds, l.actions);
    var before := if rounds == [] then round.now else LastReading(rounds);
    if rounds == [] { NoError(l.breaker, rounds, config, before); }
    RoundIsRemembered(l, round, error, config, before);
    var n := Iterate(l, round, config);
    LastErrorNext(rounds, round, l.actions, n.actions[|rounds|]);
  }

  lemma NoError(b: Breaker, rounds: seq<Round>, config: Config, now: int)
    requires b.state == Closed
    ensures LastError(rounds, []) == None && Remembers(b, None, config, now)
  {
  }

  /** When the loop waits for its breaker, told from the rounds: exactly when one failure is enough to open it and the
      last session ended in an error, no longer ago than the breaker's timeout. */
  lemma WaitsByLastError(rounds: seq<Round>, round: Round, config: Config)
    requires ClockRunsForward(rounds + [round]) && !After(rounds, config).stopped
    ensures var l, n := After(rounds, config), After(rounds + [round], config);
            && |l.actions| == |rounds| && |n.actions| == |rounds| + 1
            && (n.actions[|rounds|] == AwaitBreaker <==>
                  var error := LastError(rounds, l.actions);
                  error.Some? && config.threshold <= 1 && round.now - error.value <= config.breakerTimeout)
  {
    hide Remembers, Iterate, LastError;
    assert (rounds + [round])[..|rounds|] == rounds;
    ErrorIsRemembered(rounds, config);
    NextAction(rounds, round, config);
  }

  // ---------------------------------------------------------------- the sleeps

  /** The sleep after the `k`-th refusal in a row. */
  function SleepAfter(k: nat, config: Config): int
    requires k >= 1
  {
    if k == 1 then config.initialBackoff else Longer(SleepAfter(k - 1, config), config)
  }

  /** How many connection attempts have been refused since the last session. */
  function Refusals(actions: seq<Action>): nat
  {
    if actions == [] then 0
    else
      match actions[|actions| - 1]
      case Session => 0
      case AwaitBreaker => Refusals(actions[..|actions| - 1])
      case _ => 1 + Refusals(actions[..|actions| - 1])
  }

  /** The refusals in a row at which the loop gives up: at the first, if the limit is below one. */
  function Limit(config: Config): nat { if config.maxRetries < 1 then 1 else config.maxRetries }

  /** Each refused attempt is followed by its sleep, or by giving up at the limit. */
  predicate Follows(actions: seq<Action>, config: Config)
  {
    actions != [] ==>
      var init := actions[..|actions| - 1];
      var k := Refusals(init) + 1;
      && Follows(init, config) && Refusals(init) < Limit(config)
      && match actions[|actions| - 1]
         case Sleep(duration) => k < Limit(config) && duration == SleepAfter(k, config)
         case GiveUp => k == Limit(config)
         case _ => true
  }

  lemma RefusalsNext(actions: seq<Action>, action: Action)
    ensures Refusals(actions + [action]) ==
            if action.Session? then 0 else if action.AwaitBreaker? then Refusals(actions) else 1 + Refusals(actions)
  {
    assert (actions + [action])[..|actions|] == actions;
  }

  lemma FollowsNext(actions: seq<Action>, action: Action, config: Config)
    ensures Follows(actions + [action], config) <==>
              && Follows(actions, config) && Refusals(actions) < Limit(config)
              && (action.Sleep? ==> Refusals(actions) + 1 < Limit(config)
                                    && action.duration == SleepAfter(Refusals(actions) + 1, config))
              && (action.GiveUp? ==> Refusals(actions) + 1 == Limit(config))
  {
    hide SleepAfter;
    assert (actions + [action])[..|actions|] == actions;
  }

  /** An action is what the round that caused it allows. */
  predicate Fits(action: Action, round: Round)
  {
    match action
    case Session => round.Connected?
    case AwaitBreaker => true
    case _ => round.Refused?
  }

  lemma IterateFollows(l: Loop, round: Round, config: Config)
    requires !l.stopped && Follows(l.actions, config) && Refusals(l.actions) < Limit(config)
    requires l.attempts == Refusals(l.actions) && l.backoff == SleepAfter(Refusals(l.actions) + 1, config)
    ensures var n := Iterate(l, round, config);
            && Follows(n.actions, config)
            && (n.stopped <==> Refusals(n.actions) == Limit(config)) && Refusals(n.actions) <= Limit(config)
            && n.attempts == Refusals(n.actions)
            && (!n.stopped ==> n.backoff == SleepAfter(Refusals(n.actions) + 1, config))
            && |n.actions| == |l.actions| + 1 && n.actions[..|l.actions|] == l.actions
            && Fits(n.actions[|l.actions|], round)
  {
    hide Follows, Refusals;
    var n := Iterate(l, round, config);
    var action := n.actions[|l.actions|];
    assert n.actions == l.actions + [action];
    RefusalsNext(l.actions, action);
    FollowsNext(l.actions, action, config);
  }

  /** The loop sleeps after each refused attempt, by the number of refusals since the last session alone, and gives up
      exactly when that number reaches the limit: for every multiplier, threshold and clock. Up to then each round
      causes one action that fits it. */
  lemma {:induction false} LoopFollowsRefusals(rounds: seq<Round>, config: Config)
    ensures var l := After(rounds, config);
            && Follows(l.actions, config)
            && Refusals(l.actions) <= Limit(config) && (l.stopped <==> Refusals(l.actions) == Limit(config))
            && l.attempts == Refusals(l.actions)
            && (!l.stopped ==> l.backoff == SleepAfter(Refusals(l.actions) + 1, config))
            && |l.actions| <= |rounds| && (!l.stopped ==> |l.actions| == |rounds|)
            && forall i :: 0 <= i < |l.actions| ==> Fits(l.actions[i], rounds[i])
    decreases |rounds|
  {
    hide Follows, Refusals, Iterate, Fits;
    if rounds == [] {
      NothingYet(config);
    } else {
      var init := rounds[..|rounds| - 1];
      LoopFollowsRefusals(init, config);
      var l := After(init, config);
      if l.stopped {
        StoppedIterate(l, rounds[|rounds| - 1], config);
      } else {
        IterateFollows(l, rounds[|rounds| - 1], config);
        var n := After(rounds, config);
        forall i | 0 <= i < |n.actions| ensures Fits(n.actions[i], rounds[i]) {
          if i < |l.actions| { assert n.actions[i] == n.actions[..|l.actions|][i]; }
        }
      }
    }
  }

  lemma NothingYet(config: Config)
    ensures Follows([], config) && Refusals([]) == 0
  {
  }

  lemma StoppedIterate(l: Loop, round: Round, config: Config)
    requires l.stopped
    ensures Iterate(l, round, config) == l
  {
  }

  lemma LongerIsMonotone(a: int, b: int, config: Config)
    requires a <= b && config.multiplier >= 0.0
    ensures Longer(a, config) <= Longer(b, config)
  {
    hide Truncated, Grown;
    GrownRises(a, b, config.multiplier);
    TruncatedRises(Grown(a, config.multiplier), Grown(b, config.multiplier));
  }

  /** The next sleep is the product without its fraction, on either side of zero, or the maximum if that is less. */
  lemma LongerIs(backoff: int, config: Config, n: int)
    requires var x := backoff as real * config.multiplier;
             if x >= 0.0 then n as real <= x < (n + 1) as real else (n - 1) as real < x <= n as real
    ensures Longer(backoff, config) == if n < config.maxBackoff then n else config.maxBackoff
  {
    hide Grown, Longer;
    var x := backoff as real * config.multiplier;
    GrownIs(backoff, config);
    if x >= 0.0 { FloorIs(x, n); } else { FloorIs(-x, -n); }
  }

  lemma GrownIs(backoff: int, config: Config)
    ensures Grown(backoff, config.multiplier) == backoff as real * config.multiplier
    ensures Longer(backoff, config) == Min(Truncated(Grown(backoff, config.multiplier)), config.maxBackoff)
  {
  }

  lemma FloorIs(x: real, n: int)
    requires n as real <= x < (n + 1) as real
    ensures x.Floor == n
  {
  }

  lemma TruncatedRises(x: real, y: real)
    requires x <= y
    ensures Truncated(x) <= Truncated(y)
  {
    if y < 0.0 {
      FloorRises(-y, -x);
    } else {
      FloorRises(if x < 0.0 then 0.0 else x, y);
    }
  }

  lemma FloorRises(x: real, y: real)
    requires x <= y
    ensures x.Floor <= y.Floor
  {
    assert x.Floor as real <= x <= y < (y.Floor + 1) as real;
  }

  lemma GrownRises(a: int, b: int, m: real)
    requires a <= b && m >= 0.0
    ensures Grown(a, m) <= Grown(b, m)
  {
    ScaledReal(a as real, b as real, m);
  }

  lemma ScaledReal(a: real, b: real, m: real)
    requires a <= b && m >= 0.0
    ensures a * m <= b * m
  {
    assert (b - a) * m >= 0.0 by { NonnegativeProduct(b - a, m); }
  }

  lemma NonnegativeProduct(a: real, b: real)
    requires a >= 0.0 && b >= 0.0
    ensures a * b >= 0.0
  {
  }

  /** The sleeps never shrink if the second is not shorter than the first. */
  lemma {:induction false} SleepsRise(k: nat, config: Config)
    requires config.multiplier >= 0.0 && config.initialBackoff <= Longer(config.initialBackoff, config) && k >= 1
    ensures SleepAfter(k, config) <= SleepAfter(k + 1, config)
  {
    hide Longer;
    if k == 1 {
      assert SleepAfter(1, config) == config.initialBackoff;
    } else {
      SleepsRise(k - 1, config);
      LongerIsMonotone(SleepAfter(k - 1, config), SleepAfter(k, config), config);
    }
  }

  lemma {:induction false} SleepsOrdered(j: nat, k: nat, config: Config)
    requires config.multiplier >= 0.0 && config.initialBackoff <= Longer(config.initialBackoff, config) && 1 <= j <= k
    ensures SleepAfter(j, config) <= SleepAfter(k, config)
  {
    if j == k {
    } else {
      SleepsOrdered(j, k - 1, config);
      SleepsRise(k - 1, config);
    }
  }

  // ---------------------------------------------------------------- the sleeps of a run

  /** Actions `i` and `j` belong to one block: there is no session from one to the other. */
  predicate SameBlock(actions: seq<Action>, i: nat, j: nat)
    requires i <= j < |actions|
  {
    forall m :: i <= m <= j ==> !actions[m].Session?
  }

  /** No sleep is shorter than an earlier one of its block. */
  predicate NeverShorter(actions: seq<Action>)
  {
    forall i, j :: 0 <= i < j < |actions| && actions[i].Sleep? && actions[j].Sleep? && SameBlock(actions, i, j) ==>
      actions[i].duration <= actions[j].duration
  }

  /** A sleep within a block is the sleep after as many refusals as there were by then. */
  lemma {:induction false} SleepOf(actions: seq<Action>, i: nat, config: Config)
    requires Follows(actions, config) && i < |actions| && actions[i].Sleep?
    ensures Refusals(actions[..i + 1]) >= 1 && Refusals(actions[..i + 1]) < Limit(config)
    ensures actions[i].duration == SleepAfter(Refusals(actions[..i + 1]), config)
    decreases |actions|
  {
    hide SleepAfter;
    var init := actions[..|actions| - 1];
    if i == |actions| - 1 {
      assert actions[..i + 1] == actions;
    } else {
      SleepOf(init, i, config);
      assert init[..i + 1] == actions[..i + 1];
    }
  }

  lemma {:induction false} RefusalsRise(actions: seq<Action>, i: nat, j: nat)
    requires i < j < |actions| && SameBlock(actions, i, j)
    ensures Refusals(actions[..i + 1]) <= Refusals(actions[..j + 1])
    ensures actions[j].Sleep? ==> Refusals(actions[..i + 1]) < Refusals(actions[..j + 1])
    decreases j
  {
    assert actions[..j + 1] == actions[..j] + [actions[j]];
    RefusalsNext(actions[..j], actions[j]);
    if j == i + 1 {
    } else {
      RefusalsRise(actions, i, j - 1);
    }
  }

  lemma SleepsOfRun(rounds: seq<Round>, config: Config)
    requires config.multiplier >= 0.0
    requires config.initialBackoff <= Longer(config.initialBackoff, config) || config.maxRetries <= 2
    ensures NeverShorter(After(rounds, config).actions)
  {
    hide After, Follows, Refusals, SleepAfter, Longer, SameBlock;
    var actions := After(rounds, config).actions;
    LoopFollowsRefusals(rounds, config);
    forall i, j | 0 <= i < j < |actions| && actions[i].Sleep? && actions[j].Sleep? && SameBlock(actions, i, j)
      ensures actions[i].duration <= actions[j].duration
    {
      SleepOf(actions, i, config);
      SleepOf(actions, j, config);
      RefusalsRise(actions, i, j);
      if config.maxRetries > 2 { SleepsOrdered(Refusals(actions[..i + 1]), Refusals(actions[..j + 1]), config); }
    }
  }

  function AllRefused(n: nat): seq<Round> { seq(n, _ => Refused(0)) }

  /** `n` refusals from the start, up to the limit. */
  lemma {:induction false} RefusedRun(n: nat, config: Config)
    requires n <= Limit(config)
    ensures var l := After(AllRefused(n), config);
            && l.breaker == Breaker(0, 0, Closed) && Refusals(l.actions) == n
            && (n < Limit(config) ==> l.actions == seq(n, i requires 0 <= i < n => Sleep(SleepAfter(i + 1, config))))
  {
    hide SleepAfter, After, Refusals, Follows, Iterate, Fits;
    if n == 0 {
      NoRounds(config);
      NothingYet(config);
    } else {
      RefusedRun(n - 1, config);
      LoopFollowsRefusals(AllRefused(n - 1), config);
      assert AllRefused(n) == AllRefused(n - 1) + [Refused(0)];
      AfterNext(AllRefused(n - 1), Refused(0), config);
      var l := After(AllRefused(n - 1), config);
      var action := if n < Limit(config) then Sleep(l.backoff) else GiveUp;
      RefusedRound(l, n, config);
      RefusalsNext(l.actions, action);
    }
  }

  lemma NoRounds(config: Config)
    ensures After(AllRefused(0), config) == Start(config)
  {
  }

  lemma AfterNext(rounds: seq<Round>, round: Round, config: Config)
    ensures After(rounds + [round], config) == Iterate(After(rounds, config), round, config)
  {
    hide Iterate;
    assert (rounds + [round])[..|rounds|] == rounds;
  }

  lemma RefusedRound(l: Loop, n: nat, config: Config)
    requires !l.stopped && l.attempts == n - 1 && l.breaker.state == Closed && 1 <= n <= Limit(config)
    ensures var m := Iterate(l, Refused(0), config);
            && m.breaker == l.breaker
            && m.actions == l.actions + [if n < Limit(config) then Sleep(l.backoff) else GiveUp]
  {
  }

  /** In no run a sleep is shorter than an earlier one of its block, exactly when the second sleep is not shorter than
      the first, or no block sleeps twice. */
  lemma SleepsGrow(config: Config)
    requires config.multiplier >= 0.0
    ensures (forall rounds :: NeverShorter(After(rounds, config).actions))
       <==> config.initialBackoff <= Longer(config.initialBackoff, config) || config.maxRetries <= 2
  {
    hide After, Longer, NeverShorter;
    if config.initialBackoff <= Longer(config.initialBackoff, config) || config.maxRetries <= 2 {
      forall rounds ensures NeverShorter(After(rounds, config).actions) { SleepsOfRun(rounds, config); }
    } else {
      TwoSleeps(config);
      assert !NeverShorter(After(AllRefused(2), config).actions);
    }
  }

  lemma TwoSleeps(config: Config)
    requires config.maxRetries > 2 && config.initialBackoff > Longer(config.initialBackoff, config)
    ensures !NeverShorter(After(AllRefused(2), config).actions)
  {
    hide After, Longer;
    RefusedRun(2, config);
    var actions := After(AllRefused(2), config).actions;
    assert SleepAfter(1, config) == config.initialBackoff;
    assert SleepAfter(2, config) == Longer(SleepAfter(1, config), config);
    assert actions[0] == Sleep(SleepAfter(1, config)) && actions[1] == Sleep(SleepAfter(2, config));
    assert SameBlock(actions, 0, 1);
  }

  /** The usual case: with a multiplier of at least one, the second sleep is not shorter than the first exactly when the
      first is no longer than the maximum. */
  lemma SecondSleep(config: Config)
    requires config.multiplier >= 1.0 && config.initialBackoff >= 0
    ensures config.initialBackoff <= Longer(config.initialBackoff, config)
            <==> config.initialBackoff <= config.maxBackoff
  {
    var b := config.initialBackoff as real;
    ScaledReal(1.0, config.multiplier, b);
    assert b * config.multiplier >= b;
  }

  // ---------------------------------------------------------------- the waiting of a run

  /** The time slept since the last session. */
  function Slept(actions: seq<Action>): int
  {
    if actions == [] then 0
    else
      match actions[|actions| - 1]
      case Session => 0
      case Sleep(duration) => Slept(actions[..|actions| - 1]) + duration
      case _ => Slept(actions[..|actions| - 1])
  }

  /** The sleeps after the first `n - 1` refusals of a block. */
  function Waited(n: nat, config: Config): int
  {
    if n <= 1 then 0 else Waited(n - 1, config) + SleepAfter(n - 1, config)
  }

  /** What has been slept since the last session: a sleep for each refusal, the one given up at aside. */
  lemma {:induction false} SleptFollows(actions: seq<Action>, config: Config)
    requires Follows(actions, config)
    ensures var k := Refusals(actions); Slept(actions) == Waited(if k >= Limit(config) then k else k + 1, config)
    decreases |actions|
  {
    hide SleepAfter;
    if actions == [] {
    } else {
      SleptFollows(actions[..|actions| - 1], config);
    }
  }

  lemma SleptInBlock(rounds: seq<Round>, config: Config)
    ensures var l := After(rounds, config);
            Slept(l.actions) == Waited(if l.stopped then Limit(config) else Refusals(l.actions) + 1, config)
  {
    hide After, Follows;
    LoopFollowsRefusals(rounds, config);
    SleptFollows(After(rounds, config).actions, config);
  }

  lemma {:induction false} WaitedIsBounded(n: nat, config: Config)
    requires config.initialBackoff <= config.maxBackoff && n >= 1
    ensures Waited(n, config) <= (n - 1) * config.maxBackoff
  {
    hide Longer;
    if n == 1 {
    } else {
      WaitedIsBounded(n - 1, config);
      AtMostMaximum(n - 1, config);
      assert (n - 1) * config.maxBackoff == (n - 2) * config.maxBackoff + config.maxBackoff;
    }
  }

  lemma AtMostMaximum(k: nat, config: Config)
    requires config.initialBackoff <= config.maxBackoff && k >= 1
    ensures SleepAfter(k, config) <= config.maxBackoff
  {
  }

  /** With a multiplier of at least one, a first sleep beyond the maximum is followed by sleeps of the maximum. */
  lemma {:induction false} AtMaximum(k: nat, config: Config)
    requires config.multiplier >= 1.0 && config.initialBackoff > config.maxBackoff >= 0 && k >= 2
    ensures SleepAfter(k, config) == config.maxBackoff
  {
    hide Longer;
    if k == 2 {
      assert SleepAfter(1, config) == config.initialBackoff;
    } else {
      AtMaximum(k - 1, config);
    }
    LongerBeyond(SleepAfter(k - 1, config), config);
  }

  lemma LongerBeyond(backoff: int, config: Config)
    requires config.multiplier >= 1.0 && backoff >= config.maxBackoff && backoff >= 0
    ensures Longer(backoff, config) == config.maxBackoff
  {
    ScaledReal(1.0, config.multiplier, backoff as real);
    assert backoff as real * config.multiplier >= backoff as real;
  }

  lemma {:induction false} WaitedBeyond(n: nat, config: Config)
    requires config.multiplier >= 1.0 && config.initialBackoff > config.maxBackoff >= 0 && n >= 2
    ensures Waited(n, config) == config.initialBackoff + (n - 2) * config.maxBackoff
  {
    hide Longer;
    if n == 2 {
      assert Waited(1, config) == 0;
    } else {
      WaitedBeyond(n - 1, config);
      AtMaximum(n - 1, config);
      Scaled(n - 3, n - 2, config.maxBackoff);
    }
  }

  lemma Scaled(a: int, b: int, c: int)
    requires a <= b && c >= 0
    ensures a * c <= b * c
    ensures b == a + 1 ==> b * c == a * c + c
  {
  }

  /** For every multiplier: a first sleep within the maximum bounds what any block of any run waits. */
  lemma BlockIsBounded(rounds: seq<Round>, config: Config)
    requires config.initialBackoff <= config.maxBackoff && config.maxBackoff >= 0
    ensures Slept(After(rounds, config).actions) <= (Limit(config) - 1) * config.maxBackoff
  {
    hide After, Slept, Waited, Refusals, Follows;
    SleptInBlock(rounds, config);
    LoopFollowsRefusals(rounds, config);
    var l := After(rounds, config);
    var n := if l.stopped then Limit(config) else Refusals(l.actions) + 1;
    WaitedIsBounded(n, config);
    Scaled(n - 1, Limit(config) - 1, config.maxBackoff);
  }

  /** With a multiplier of at least one, no block of any run waits for more than (MaxRetries - 1) times the maximum,
      exactly when the first sleep is no longer than the maximum, or the loop never sleeps at all. */
  lemma WaitIsBounded(config: Config)
    requires config.multiplier >= 1.0 && config.maxBackoff >= 0
    ensures (forall rounds :: Slept(After(rounds, config).actions) <= (Limit(config) - 1) * config.maxBackoff)
       <==> config.initialBackoff <= config.maxBackoff || config.maxRetries <= 1
  {
    hide After, Slept, Waited, Refusals, Follows;
    if config.initialBackoff <= config.maxBackoff {
      forall rounds ensures Slept(After(rounds, config).actions) <= (Limit(config) - 1) * config.maxBackoff {
        BlockIsBounded(rounds, config);
      }
    } else if config.maxRetries <= 1 {
      forall rounds ensures Slept(After(rounds, config).actions) <= (Limit(config) - 1) * config.maxBackoff {
        SleptInBlock(rounds, config);
        LoopFollowsRefusals(rounds, config);
        NothingWaited(config);
      }
    } else {
      var rounds := AllRefused(config.maxRetries);
      RefusedRun(config.maxRetries, config);
      LoopFollowsRefusals(rounds, config);
      SleptInBlock(rounds, config);
      WaitedBeyond(config.maxRetries, config);
      Scaled(config.maxRetries - 2, config.maxRetries - 1, config.maxBackoff);
      assert Slept(After(rounds, config).actions) > (Limit(config) - 1) * config.maxBackoff;
    }
  }

  lemma NothingWaited(config: Config)
    ensures Waited(0, config) == 0 && Waited(1, config) == 0
  {
  }

  // ---------------------------------------------------------------- the documented configuration

  /** Durations and multiplier as documented: the backoff doubles. */
  predicate Doubling(config: Config)
  {
    config.multiplier == 2.0 && config.initialBackoff >= 0 && config.maxBackoff >= 0
  }

  lemma DoubledIs(backoff: int, config: Config)
    requires config.multiplier == 2.0 && backoff >= 0
    ensures Longer(backoff, config) == Min(2 * backoff, config.maxBackoff)
  {
    assert backoff as real * 2.0 == (2 * backoff) as real;
  }

  /** With the documented multiplier the sleeps are the powers of two times the first, up to the maximum. */
  lemma {:induction false} SleepsDouble(k: nat, config: Config)
    requires Doubling(config) && k >= 1
    ensures SleepAfter(k, config) ==
            if k == 1 then config.initialBackoff else Min(config.initialBackoff * Pow2(k - 1), config.maxBackoff)
    ensures SleepAfter(k, config) >= 0
  {
    hide Longer;
    if k == 1 {
    } else {
      SleepsDouble(k - 1, config);
      DoubledIs(SleepAfter(k - 1, config), config);
      DoubleBounded(config.initialBackoff, Pow2(k - 2), config.maxBackoff);
      assert Pow2(0) == 1 && Pow2(k - 1) == 2 * Pow2(k - 2);
    }
  }

  lemma DoubleBounded(i: int, p: int, m: int)
    requires i >= 0 && p >= 1 && m >= 0
    ensures Min(2 * Min(i * p, m), m) == Min(i * (2 * p), m)
    ensures i * 1 == i && i * p >= 0 && i * (2 * p) >= 0
  {
  }

  const SECOND: int := 1_000_000_000

  /** `DefaultConfig`, durations in nanoseconds. */
  const DEFAULT: Config := Config(10, SECOND, 60 * SECOND, 2.0, 5, 30 * SECOND)

  /** The documented intervals of 1, 2, 4, 8, 16, 32, 60, 60, ... seconds; the block of refusals that makes a run give
      up has waited 243 seconds; and the documented circuit breaker, which never comes to open. */
  lemma DocumentedSleeps(k: nat, rounds: seq<Round>)
    requires k >= 1
    ensures SleepAfter(k, DEFAULT) == (if k <= 6 then Pow2(k - 1) else 60) * SECOND
    ensures var l := After(rounds, DEFAULT);
            && Follows(l.actions, DEFAULT) && l.breaker.state == Closed
            && (l.stopped ==> Slept(l.actions) == 243 * SECOND)
  {
    hide After, Slept, Follows, Refusals;
    BreakerStaysClosed(rounds, DEFAULT);
    LoopFollowsRefusals(rounds, DEFAULT);
    SleptInBlock(rounds, DEFAULT);
    DefaultWait(10);
    DefaultSleep(k);
  }

  /** The waiting of the default configuration: 1, 3, 7, 15, 31, 63 seconds, and a minute more for each refusal. */
  lemma {:induction false} DefaultWait(n: nat)
    requires n >= 1
    ensures Waited(n, DEFAULT) == (if n <= 7 then Pow2(n - 1) - 1 else 63 + 60 * (n - 7)) * SECOND
  {
    hide SleepAfter;
    SmallPowers();
    if n == 1 {
    } else {
      DefaultWait(n - 1);
      DefaultSleep(n - 1);
    }
  }

  lemma SmallPowers()
    ensures Pow2(0) == 1 && Pow2(1) == 2 && Pow2(2) == 4 && Pow2(3) == 8 && Pow2(4) == 16 && Pow2(5) == 32
            && Pow2(6) == 64
  {
  }

  lemma DefaultSleep(k: nat)
    requires k >= 1
    ensures SleepAfter(k, DEFAULT) == (if k <= 6 then Pow2(k - 1) else 60) * SECOND
  {
    SleepsDouble(k, DEFAULT);
    SmallPowers();
    PowersGrow(6, k - 1);
    PowersGrow(5, k - 1);
  }

  lemma {:induction false} PowersGrow(m: nat, n: nat)
    ensures m <= n ==> Pow2(m) <= Pow2(n)
    ensures n <= m ==> Pow2(n) <= Pow2(m)
    decreases m + n
  {
    if m == n {
    } else if m < n {
      PowersGrow(m, n - 1);
    } else {
      PowersGrow(m - 1, n);
    }
  }
}

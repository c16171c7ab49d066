/** The in-memory rate limiter: a counter per key, started anew once its window is over. */
module RateLimiter {
  import opened Common
  import opened Uuids

  datatype Counter = Counter(count: int, resetTime: int, window: int, limit: int)

  type Counters = map<string, Counter>

  datatype Request = Request(key: string, limit: int, window: int, now: int)

  /** The counter a request finds, after the reset if the window is over. */
  function CounterFor(counters: Counters, r: Request): Counter
  {
    if r.key !in counters || r.now > counters[r.key].resetTime then Counter(0, r.now + r.window, r.window, r.limit)
    else counters[r.key]
  }

  function Unlimited(r: Request): bool { r.limit <= 0 || r.window <= 0 }

  function Counted(counters: Counters, r: Request): Counters
  {
    if Unlimited(r) then counters
    else
      var c := CounterFor(counters, r);
      counters[r.key := c.(count := c.count + 1)]
  }

  function Allowed(counters: Counters, r: Request): bool
  {
    Unlimited(r) || CounterFor(counters, r).count + 1 <= r.limit
  }

  function TenantKey(id: Uuid): string { "tenant:" + UuidText(id) }

  function UserKey(userId: string): string { "user:" + userId }

  class InMemoryRateLimiter {
    var counters: Counters

    constructor ()
      ensures counters == map[]
    {
      counters := map[];
    }

    method Allow(key: string, limit: int, window: int, now: int) returns (allowed: bool)
      modifies this
      ensures counters == Counted(old(counters), Request(key, limit, window, now))
      ensures allowed == Allowed(old(counters), Request(key, limit, window, now))
    {
      if limit <= 0 || window <= 0 {
        return true;
      }
      if key !in counters || now > counters[key].resetTime {
        counters := counters[key := Counter(0, now + window, window, limit)];
      }
      var counter := counters[key];
      counters := counters[key := counter.(count := counter.count + 1)];
      return counters[key].count <= limit;
    }

    method AllowTenant(tenantId: Uuid, limit: int, window: int, now: int) returns (allowed: bool)
      modifies this
      ensures counters == Counted(old(counters), Request("tenant:" + UuidText(tenantId), limit, window, now))
      ensures allowed == Allowed(old(counters), Request("tenant:" + UuidText(tenantId), limit, window, now))
    {
      allowed := Allow("tenant:" + UuidText(tenantId), limit, window, now);
    }

    method AllowUser(userId: string, limit: int, window: int, now: int) returns (allowed: bool)
      modifies this
      ensures counters == Counted(old(counters), Request("user:" + userId, limit, window, now))
      ensures allowed == Allowed(old(counters), Request("user:" + userId, limit, window, now))
    {
      allowed := Allow("user:" + userId, limit, window, now);
    }
  }

  // ---------------------------------------------------------------- keys

  /** No tenant shares a key with another tenant or with a user, and no two users share one. */
  lemma KeysApart(a: Uuid, b: Uuid, u: string, v: string)
    ensures TenantKey(a) == TenantKey(b) ==> a == b
    ensures UserKey(u) == UserKey(v) ==> u == v
    ensures TenantKey(a) != UserKey(u)
  {
    hide UuidText;
    assert TenantKey(a)[7..] == UuidText(a) && TenantKey(b)[7..] == UuidText(b);
    assert UserKey(u)[5..] == u && UserKey(v)[5..] == v;
    assert TenantKey(a)[0] == 't' && UserKey(u)[0] == 'u';
    if UuidText(a) == UuidText(b) { UuidTextInjective(a, b); }
  }

  // ---------------------------------------------------------------- runs

  function After(requests: seq<Request>): Counters
  {
    if requests == [] then map[] else Counted(After(requests[..|requests| - 1]), requests[|requests| - 1])
  }

  /** The answer to the last request. */
  function Answer(requests: seq<Request>): bool
    requires requests != []
  {
    Allowed(After(requests[..|requests| - 1]), requests[|requests| - 1])
  }

  /** A request without a positive limit and window is let through at once, in every run, and counts for nothing. */
  lemma NoLimitNoCount(requests: seq<Request>, r: Request)
    requires r.limit <= 0 || r.window <= 0
    ensures Answer(requests + [r]) && After(requests + [r]) == After(requests)
  {
    assert (requests + [r])[..|requests|] == requests;
  }

  function OnKey(key: string): Request -> bool { (r: Request) => r.key == key }

  /** Traffic on other keys never changes a key's counter, and so none of its answers. */
  lemma {:induction false} KeysDoNotInterfere(requests: seq<Request>, key: string)
    ensures Lookup(After(requests), key) == Lookup(After(Filter(OnKey(key), requests)), key)
    ensures requests != [] && requests[|requests| - 1].key == key ==>
              Filter(OnKey(key), requests) != [] && Answer(requests) == Answer(Filter(OnKey(key), requests))
    decreases |requests|
  {
    if requests == [] {
    } else {
      var init, last := requests[..|requests| - 1], requests[|requests| - 1];
      KeysDoNotInterfere(init, key);
      var own := Filter(OnKey(key), init);
      if last.key == key {
        assert Filter(OnKey(key), requests) == own + [last] && (own + [last])[..|own|] == own;
      } else {
        assert Filter(OnKey(key), requests) == own;
      }
    }
  }

  /** One key asked at these times, with the same limit and window each time. */
  function Requests(key: string, limit: int, window: int, times: seq<int>): seq<Request>
  {
    Map(t => Request(key, limit, window, t), times)
  }

  predicate Forward(times: seq<int>)
  {
    forall i, j :: 0 <= i < j < |times| ==> times[i] <= times[j]
  }

  /** When the window of the last request began: with the first request after the previous window was over. */
  function WindowStart(times: seq<int>, window: int): int
    requires times != []
  {
    var init, now := times[..|times| - 1], times[|times| - 1];
    if init == [] || now > WindowStart(init, window) + window then now else WindowStart(init, window)
  }

  /** The place of the last request within its window, counted from one. */
  function PlaceInWindow(times: seq<int>, window: int): nat
    requires times != []
  {
    var init, now := times[..|times| - 1], times[|times| - 1];
    if init == [] || now > WindowStart(init, window) + window then 1 else 1 + PlaceInWindow(init, window)
  }

  lemma {:induction false} CounterIsWindow(key: string, limit: int, window: int, times: seq<int>)
    requires limit > 0 && window > 0 && times != []
    ensures var c := After(Requests(key, limit, window, times));
            && key in c
            && c[key] == Counter(PlaceInWindow(times, window), WindowStart(times, window) + window, window, limit)
    ensures Answer(Requests(key, limit, window, times)) <==> PlaceInWindow(times, window) <= limit
    decreases |times|
  {
    var init := times[..|times| - 1];
    var all := Requests(key, limit, window, times);
    assert all[..|all| - 1] == Requests(key, limit, window, init);
    if init != [] {
      CounterIsWindow(key, limit, window, init);
    } else {
      assert Requests(key, limit, window, init) == [];
    }
  }

  /** A request is allowed exactly when it is among the first `limit` of its window, whatever is asked on
      other keys in between. */
  lemma AllowedByPlace(requests: seq<Request>, key: string, limit: int, window: int, times: seq<int>)
    requires limit > 0 && window > 0 && times != []
    requires requests != [] && requests[|requests| - 1].key == key
    requires Filter(OnKey(key), requests) == Requests(key, limit, window, times)
    ensures Answer(requests) <==> PlaceInWindow(times, window) <= limit
  {
    KeysDoNotInterfere(requests, key);
    CounterIsWindow(key, limit, window, times);
  }

  // ---------------------------------------------------------------- how many in any interval

  /** How many of the requests at these times are allowed between `a` and `b`, both included. */
  function AllowedBetween(times: seq<int>, limit: int, window: int, a: int, b: int): nat
  {
    if times == [] then 0
    else
      AllowedBetween(times[..|times| - 1], limit, window, a, b)
      + (if a <= times[|times| - 1] <= b && PlaceInWindow(times, window) <= limit then 1 else 0)
  }

  lemma {:induction false} NoneBefore(times: seq<int>, limit: int, window: int, a: int, b: int)
    requires forall i :: 0 <= i < |times| ==> times[i] < a
    ensures AllowedBetween(times, limit, window, a, b) == 0
    decreases |times|
  {
    if times == [] {
    } else {
      NoneBefore(times[..|times| - 1], limit, window, a, b);
    }
  }

  /** The count so far, by where the current window began: before the interval its first request lies outside;
      inside, at most one earlier window reaches in; after, nothing more can be added. */
  lemma {:induction false} CountByWindow(times: seq<int>, limit: int, window: int, a: int)
    requires limit > 0 && window > 0 && times != [] && Forward(times)
    ensures var n, s, c := AllowedBetween(times, limit, window, a, a + window), WindowStart(times, window),
            PlaceInWindow(times, window);
            && s <= times[|times| - 1] <= s + window
            && (s < a ==> n <= Min(c, limit) - 1)
            && (a <= s <= a + window ==> n <= limit - 1 + Min(c, limit))
            && n <= 2 * limit - 1
    decreases |times|
  {
    var init, now := times[..|times| - 1], times[|times| - 1];
    if init == [] {
    } else {
      CountByWindow(init, limit, window, a);
      if now < a { NoneBefore(init, limit, window, a, a + window); }
    }
  }

  /** Any closed interval as long as the window holds fewer than twice the limit of allowed requests. */
  lemma FewerThanTwiceTheLimit(times: seq<int>, limit: int, window: int, a: int)
    requires limit > 0 && window > 0 && Forward(times)
    ensures AllowedBetween(times, limit, window, a, a + window) <= 2 * limit - 1
  {
    if times != [] { CountByWindow(times, limit, window, a); }
  }

  /** `n` requests at the same time. */
  function Burst(time: int, n: nat): seq<int> { seq(n, _ => time) }

  /** A request opens the first window; the others of that window wait for its end; the next window follows. */
  function Worst(limit: nat, window: int, n: nat): seq<int>
    requires limit >= 1
  {
    [0] + Burst(window, limit - 1) + Burst(window + 1, n)
  }

  lemma {:induction false} FirstWindow(limit: nat, window: int, n: nat)
    requires window > 0 && n < limit
    ensures var times := [0] + Burst(window, n);
            WindowStart(times, window) == 0 && PlaceInWindow(times, window) == n + 1
            && AllowedBetween(times, limit, window, 1, 1 + window) == n
  {
    var times := [0] + Burst(window, n);
    if n == 0 {
      assert times == [0] && [0][..0] == [];
      assert AllowedBetween([], limit, window, 1, 1 + window) == 0;
    } else {
      FirstWindow(limit, window, n - 1);
      assert times[..|times| - 1] == [0] + Burst(window, n - 1);
    }
  }

  lemma {:induction false} SecondWindow(limit: nat, window: int, n: nat)
    requires window > 0 && 1 <= n <= limit
    ensures var times := Worst(limit, window, n);
            WindowStart(times, window) == window + 1 && PlaceInWindow(times, window) == n
            && AllowedBetween(times, limit, window, 1, 1 + window) == limit - 1 + n
  {
    var times := Worst(limit, window, n);
    assert times[..|times| - 1] == Worst(limit, window, n - 1);
    if n == 1 {
      FirstWindow(limit, window, limit - 1);
      assert Worst(limit, window, 0) == [0] + Burst(window, limit - 1);
    } else {
      SecondWindow(limit, window, n - 1);
    }
  }

  lemma WorstIsAllowed(limit: nat, window: int)
    requires limit >= 1 && window > 0
    ensures Forward(Worst(limit, window, limit))
    ensures AllowedBetween(Worst(limit, window, limit), limit, window, 1, 1 + window) == 2 * limit - 1
  {
    SecondWindow(limit, window, limit);
  }

  // ---------------------------------------------------------------- the same for whole runs

  function Time(r: Request): int { r.now }

  function TimesOf(requests: seq<Request>, key: string): seq<int>
  {
    Map(Time, Filter(OnKey(key), requests))
  }

  /** Every request on the key comes with this limit and this window. */
  predicate Uniform(requests: seq<Request>, key: string, limit: int, window: int)
  {
    forall i :: 0 <= i < |requests| && requests[i].key == key ==>
                  requests[i].limit == limit && requests[i].window == window
  }

  /** How many requests on the key the limiter has let through between `a` and `b`, both included. */
  function PassedBetween(requests: seq<Request>, key: string, a: int, b: int): nat
  {
    if requests == [] then 0
    else
      var last := requests[|requests| - 1];
      PassedBetween(requests[..|requests| - 1], key, a, b)
      + (if last.key == key && a <= last.now <= b && Answer(requests) then 1 else 0)
  }

  lemma OwnRequests(requests: seq<Request>, key: string, limit: int, window: int)
    requires Uniform(requests, key, limit, window)
    ensures Filter(OnKey(key), requests) == Requests(key, limit, window, TimesOf(requests, key))
  {
  }

  lemma {:induction false} PassedIsAllowed(requests: seq<Request>, key: string, limit: int, window: int, a: int, b: int)
    requires limit > 0 && window > 0 && Uniform(requests, key, limit, window)
    ensures PassedBetween(requests, key, a, b) == AllowedBetween(TimesOf(requests, key), limit, window, a, b)
    decreases |requests|
  {
    hide Answer, PlaceInWindow, Filter, Map, Requests;
    if requests == [] {
      NoTimes(key);
    } else {
      var init, last := requests[..|requests| - 1], requests[|requests| - 1];
      PassedIsAllowed(init, key, limit, window, a, b);
      if last.key == key {
        var times := TimesOf(requests, key);
        LastTime(requests, key);
        assert times[..|times| - 1] == TimesOf(init, key);
        OwnRequests(requests, key, limit, window);
        AllowedByPlace(requests, key, limit, window, times);
      } else {
        LastTime(requests, key);
      }
    }
  }

  lemma NoTimes(key: string)
    ensures TimesOf([], key) == []
  {
  }

  lemma LastTime(requests: seq<Request>, key: string)
    requires requests != []
    ensures var init, last := requests[..|requests| - 1], requests[|requests| - 1];
            TimesOf(requests, key) == if last.key == key then TimesOf(init, key) + [last.now] else TimesOf(init, key)
  {
  }

  /** In every run on a clock that never runs back, over any mixture of keys, a key with one limit and one
      window is let through fewer than twice its limit within any closed interval as long as its window. */
  lemma FewPassInAnyInterval(requests: seq<Request>, key: string, limit: int, window: int, a: int)
    requires limit > 0 && window > 0 && Uniform(requests, key, limit, window) && Forward(TimesOf(requests, key))
    ensures PassedBetween(requests, key, a, a + window) <= 2 * limit - 1
  {
    PassedIsAllowed(requests, key, limit, window, a, a + window);
    FewerThanTwiceTheLimit(TimesOf(requests, key), limit, window, a);
  }

  lemma TimesOfRequests(key: string, limit: int, window: int, times: seq<int>)
    ensures Uniform(Requests(key, limit, window, times), key, limit, window)
    ensures TimesOf(Requests(key, limit, window, times), key) == times
  {
    FilterKeepsAll(OnKey(key), Requests(key, limit, window, times));
  }

  /** The bound is reached: for every limit, window and key there is a run on a forward clock in which the limiter lets
      one request less than twice the limit pass within a window's length. */
  lemma BoundIsReached(key: string, limit: nat, window: int)
    requires limit >= 1 && window > 0
    ensures var requests := Requests(key, limit, window, Worst(limit, window, limit));
            && Uniform(requests, key, limit, window) && Forward(TimesOf(requests, key))
            && PassedBetween(requests, key, 1, 1 + window) == 2 * limit - 1
  {
    hide Requests, Uniform, TimesOf, Worst, PassedBetween, AllowedBetween, Forward;
    var times := Worst(limit, window, limit);
    WorstIsAllowed(limit, window);
    TimesOfRequests(key, limit, window, times);
    PassedIsAllowed(Requests(key, limit, window, times), key, limit, window, 1, 1 + window);
  }
}

/** Shared result types and the sequence, map and set facts that several components use. */
module Common {

  datatype Option<+T> = None | Some(value: T)

  datatype Result<+T, +E> = Ok(value: T) | Err(error: E)

  function Min(a: int, b: int): int { if a < b then a else b }

  function Pow2(n: nat): (p: int)
    ensures p >= 1
  {
    if n == 0 then 1 else 2 * Pow2(n - 1)
  }

  function Map<A, B>(f: A -> B, xs: seq<A>): (ys: seq<B>)
    ensures |ys| == |xs|
    ensures forall i :: 0 <= i < |xs| ==> ys[i] == f(xs[i])
  {
    seq(|xs|, i requires 0 <= i < |xs| => f(xs[i]))
  }

  lemma MapSnoc<A, B>(f: A -> B, xs: seq<A>, i: nat)
    requires i < |xs|
    ensures Map(f, xs[..i + 1]) == Map(f, xs[..i]) + [f(xs[i])]
  {
  }

  lemma MapCons<A, B>(f: A -> B, xs: seq<A>)
    requires |xs| > 0
    ensures Map(f, xs) == [f(xs[0])] + Map(f, xs[1..])
  {
  }

  lemma MapConcat<A, B>(f: A -> B, xs: seq<A>, ys: seq<A>)
    ensures Map(f, xs + ys) == Map(f, xs) + Map(f, ys)
  {
  }

  function MapOption<A, B>(f: A -> B, x: Option<A>): Option<B>
  {
    match x
    case None => None
    case Some(v) => Some(f(v))
  }

  function Lookup<K, V>(m: map<K, V>, k: K): Option<V>
  {
    if k in m then Some(m[k]) else None
  }

  /** The elements that satisfy `p`, in order. */
  function Filter<A>(p: A -> bool, xs: seq<A>): seq<A>
  {
    if xs == [] then []
    else Filter(p, xs[..|xs| - 1]) + (if p(xs[|xs| - 1]) then [xs[|xs| - 1]] else [])
  }

  lemma {:induction false} FilterMembers<A>(p: A -> bool, xs: seq<A>)
    ensures forall x :: x in Filter(p, xs) <==> x in xs && p(x)
    ensures |Filter(p, xs)| <= |xs|
    decreases |xs|
  {
    if xs == [] {
    } else {
      var init := xs[..|xs| - 1];
      FilterMembers(p, init);
      assert forall x :: x in xs <==> x in init || x == xs[|xs| - 1];
    }
  }

  lemma FilterSnoc<A>(p: A -> bool, xs: seq<A>, i: nat)
    requires i < |xs|
    ensures Filter(p, xs[..i + 1]) == Filter(p, xs[..i]) + (if p(xs[i]) then [xs[i]] else [])
  {
    assert xs[..i + 1][..i] == xs[..i];
  }

  lemma {:induction false} FilterConcat<A>(p: A -> bool, xs: seq<A>, ys: seq<A>)
    ensures Filter(p, xs + ys) == Filter(p, xs) + Filter(p, ys)
    decreases |ys|
  {
    if ys == [] {
      assert xs + ys == xs;
    } else {
      FilterConcat(p, xs, ys[..|ys| - 1]);
      assert (xs + ys)[..|xs + ys| - 1] == xs + ys[..|ys| - 1];
    }
  }

  lemma FilterEnd<A>(p: A -> bool, init: seq<A>, last: A)
    ensures Filter(p, init + [last]) == if p(last) then Filter(p, init) + [last] else Filter(p, init)
  {
    assert (init + [last])[..|init|] == init;
  }

  lemma AllEnd<A>(p: A -> bool, init: seq<A>, last: A)
    ensures (forall x :: x in init + [last] ==> p(x)) <==> (forall x :: x in init ==> p(x)) && p(last)
  {
    assert forall x :: x in init + [last] <==> x in init || x == last;
  }

  lemma SameEnd<A>(xs: seq<A>, ys: seq<A>, last: A)
    ensures xs + [last] == ys + [last] <==> xs == ys
  {
    if xs + [last] == ys + [last] {
      assert |xs + [last]| == |ys + [last]|;
      assert (xs + [last])[..|xs|] == xs && (ys + [last])[..|ys|] == ys;
    }
  }

  /** A filter keeps every element exactly when it drops none. */
  lemma {:induction false} FilterKeepsAll<A>(p: A -> bool, xs: seq<A>)
    ensures Filter(p, xs) == xs <==> forall x :: x in xs ==> p(x)
    ensures |Filter(p, xs)| == |xs| <==> forall x :: x in xs ==> p(x)
    ensures |Filter(p, xs)| <= |xs|
    decreases |xs|
  {
    if xs == [] {
    } else {
      hide Filter;
      var init, last := xs[..|xs| - 1], xs[|xs| - 1];
      assert xs == init + [last];
      FilterKeepsAll(p, init);
      FilterEnd(p, init, last);
      AllEnd(p, init, last);
      SameEnd(Filter(p, init), init, last);
    }
  }

  /** Filtering twice is filtering once by both conditions. */
  lemma {:induction false} FilterFilter<A>(p: A -> bool, q: A -> bool, both: A -> bool, xs: seq<A>)
    requires forall x :: x in xs ==> (both(x) <==> p(x) && q(x))
    ensures Filter(p, Filter(q, xs)) == Filter(both, xs)
    decreases |xs|
  {
    if xs == [] {
    } else {
      var init, last := xs[..|xs| - 1], xs[|xs| - 1];
      FilterFilter(p, q, both, init);
      if q(last) {
        var kept := Filter(q, init);
        assert (kept + [last])[..|kept|] == kept;
      } else {
        assert Filter(q, xs) == Filter(q, init);
      }
    }
  }

  /** The places a filter takes its elements from: in order, and exactly those where the condition holds. */
  ghost predicate Picks<A>(picked: seq<A>, xs: seq<A>, places: seq<nat>)
  {
    && |picked| == |places|
    && (forall k :: 0 <= k < |places| ==> places[k] < |xs| && picked[k] == xs[places[k]])
    && (forall k, l :: 0 <= k < l < |places| ==> places[k] < places[l])
  }

  lemma PicksMore<A>(picked: seq<A>, xs: seq<A>, places: seq<nat>)
    requires xs != [] && Picks(picked, xs[..|xs| - 1], places)
    ensures Picks(picked, xs, places) && |xs| - 1 !in places
    ensures Picks(picked + [xs[|xs| - 1]], xs, places + [|xs| - 1])
  {
  }

  /** Exactly the places where the condition holds. */
  ghost predicate AllPlaces<A>(p: A -> bool, xs: seq<A>, places: seq<nat>)
  {
    forall i: nat :: i < |xs| ==> (i in places <==> p(xs[i]))
  }

  lemma AllPlacesMore<A>(p: A -> bool, xs: seq<A>, places: seq<nat>)
    requires xs != [] && AllPlaces(p, xs[..|xs| - 1], places) && |xs| - 1 !in places
    ensures AllPlaces(p, xs, if p(xs[|xs| - 1]) then places + [|xs| - 1] else places)
  {
    var init := xs[..|xs| - 1];
    forall i: nat | i < |xs| - 1 ensures i in places <==> p(xs[i]) {
      assert init[i] == xs[i];
    }
  }

  lemma {:induction false} FilterPlaces<A>(p: A -> bool, xs: seq<A>) returns (places: seq<nat>)
    ensures Picks(Filter(p, xs), xs, places) && AllPlaces(p, xs, places)
    decreases |xs|
  {
    if xs == [] {
      places := [];
    } else {
      hide Picks, AllPlaces, Filter;
      var init, last := xs[..|xs| - 1], xs[|xs| - 1];
      var before := FilterPlaces(p, init);
      PicksMore(Filter(p, init), xs, before);
      AllPlacesMore(p, xs, before);
      assert xs == init + [last];
      FilterEnd(p, init, last);
      places := if p(last) then before + [|xs| - 1] else before;
    }
  }
}

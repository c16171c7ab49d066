/** The voice quality estimate: loss and delay lower a rating, and a cubic turns the rating into a mean opinion
    score. The floating-point numbers of the source are reals here; its 64-bit counters keep their width. */
module Mos {
  const COUNTER_LIMIT: nat := 0x1_0000_0000_0000_0000

  type Counter = n: nat | n < COUNTER_LIMIT witness 0

  // ---------------------------------------------------------------- the estimate

  /** The sum as unsigned 64-bit addition gives it. */
  function CounterSum(a: Counter, b: Counter): Counter { (a + b) % COUNTER_LIMIT }

  /** Percent of packets lost, from the wrapping sum. */
  function LossRate(lost: Counter, received: Counter): (rate: real)
    ensures rate >= 0.0
  {
    var total := CounterSum(received, lost);
    if total > 0 then
      QuotientOrder(0.0, 1.0, lost as real, total as real);
      lost as real / total as real * 100.0
    else 0.0
  }

  function LossImpairment(rate: real): real
    requires rate >= 0.0
  {
    95.0 * (rate / (rate + 25.1))
  }

  function DelayImpairment(delay: real): real
  {
    if delay < 100.0 then 0.0
    else if delay < 400.0 then 0.024 * delay
    else 0.024 * 400.0 + 0.11 * (delay - 400.0)
  }

  function Clamp(low: real, x: real, high: real): real
  {
    if x < low then low else if x > high then high else x
  }

  function Rating(delay: real, rate: real): real
    requires rate >= 0.0
  {
    Clamp(0.0, 93.2 - LossImpairment(rate) - DelayImpairment(delay), 100.0)
  }

  function Cubic(r: real): real { 1.0 + 0.035 * r + r * (r - 60.0) * (100.0 - r) * 7.0 * 0.000001 }

  function Score(r: real): real
  {
    Clamp(1.0, if r < 0.0 then 1.0 else if r < 100.0 then Cubic(r) else 4.5, 4.5)
  }

  function CalculateMOS(jitter: real, rtt: real, lost: Counter, received: Counter): real
  {
    Score(Rating(rtt + jitter, LossRate(lost, received)))
  }

  // ---------------------------------------------------------------- the loss rate

  /** Quotients compare as their cross products do. */
  lemma QuotientOrder(a: real, b: real, c: real, d: real)
    requires b > 0.0 && d > 0.0
    ensures a / b <= c / d <==> a * d <= c * b
  {
  }

  lemma ProductOrder(p: real, q: real, k: real)
    requires k > 0.0
    ensures p <= q <==> p * k <= q * k
  {
  }

  /** Percent of packets lost, with the sum taken in full. */
  function TrueLossRate(lost: nat, received: nat): (rate: real)
    ensures 0.0 <= rate <= 100.0
  {
    if received + lost > 0 then
      QuotientOrder(0.0, 1.0, lost as real, (received + lost) as real);
      QuotientOrder(lost as real, (received + lost) as real, 1.0, 1.0);
      lost as real / (received + lost) as real * 100.0
    else 0.0
  }

  /** What the wrap does: the rate is the true one as long as the sum fits 64 bits; past that it is zero when the
      sum wraps to zero exactly, and too high otherwise. */
  lemma LossRateIsTrue(lost: Counter, received: Counter)
    ensures LossRate(lost, received) == TrueLossRate(lost, received) <==> received + lost < COUNTER_LIMIT
    ensures received + lost == COUNTER_LIMIT ==> LossRate(lost, received) == 0.0 < TrueLossRate(lost, received)
    ensures received + lost > COUNTER_LIMIT ==> LossRate(lost, received) > TrueLossRate(lost, received)
  {
    if received + lost >= COUNTER_LIMIT {
      var total := received + lost;
      assert CounterSum(received, lost) == total - COUNTER_LIMIT;
      assert lost > 0;
      QuotientOrder(lost as real, total as real, 0.0, 1.0);
      if total > COUNTER_LIMIT {
        var wrapped := total - COUNTER_LIMIT;
        assert lost as real * total as real > lost as real * wrapped as real by {
          ProductOrder(total as real, wrapped as real, lost as real);
        }
        QuotientOrder(lost as real, wrapped as real, lost as real, total as real);
      }
    }
  }

  lemma TrueLossRateMonotone(lost: nat, lost': nat, received: nat, received': nat)
    requires lost <= lost' && received' <= received
    ensures TrueLossRate(lost, received) <= TrueLossRate(lost', received')
  {
    if lost > 0 {
      var a, a', b, b' := lost as real, lost' as real, received as real, received' as real;
      CrossProducts(a, a', b, b');
      QuotientOrder(a, b + a, a', b' + a');
    }
  }

  lemma CrossProducts(a: real, a': real, b: real, b': real)
    requires 0.0 <= a <= a' && 0.0 <= b' <= b
    ensures a * (b' + a') <= a' * (b + a)
  {
  }

  // ---------------------------------------------------------------- from rates to the score

  lemma LossImpairmentMonotone(rate: real, rate': real)
    requires 0.0 <= rate <= rate'
    ensures 0.0 <= LossImpairment(rate) <= LossImpairment(rate') < 95.0
    ensures rate < rate' ==> LossImpairment(rate) < LossImpairment(rate')
  {
  }

  lemma DelayImpairmentMonotone(delay: real, delay': real)
    requires delay <= delay'
    ensures 0.0 <= DelayImpairment(delay) <= DelayImpairment(delay')
  {
  }

  /** How far the cubic lies above one. */
  function Excess(r: real): real { r * (160.0 * r - r * r - 1000.0) }

  lemma CubicIsExcess(r: real)
    ensures Cubic(r) == 1.0 + 0.000007 * Excess(r)
  {
  }

  /** The excess grows wherever it is positive. */
  lemma ExcessGrows(r: real, s: real)
    requires 0.0 <= r < s <= 100.0
    requires s * (160.0 - s) > 1000.0
    ensures Excess(s) > 0.0 && Excess(s) > Excess(r)
  {
    var slope := 160.0 * (s + r) - s * s - s * r - r * r - 1000.0;
    assert Excess(s) - Excess(r) == (s - r) * slope by {
      ExcessDifference(r, s);
    }
    assert slope > 0.0 by {
      SlopeIsPositive(r, s);
    }
    ProductPositive(s - r, slope);
    ProductPositive(s, 160.0 * s - s * s - 1000.0);
  }

  lemma ProductPositive(x: real, y: real)
    requires x > 0.0 && y > 0.0
    ensures x * y > 0.0
  {
  }

  lemma ProductNonnegative(x: real, y: real)
    requires x >= 0.0 && y >= 0.0
    ensures x * y >= 0.0
  {
  }

  lemma ExcessDifference(r: real, s: real)
    ensures Excess(s) - Excess(r) == (s - r) * (160.0 * (s + r) - s * s - s * r - r * r - 1000.0)
  {
  }

  lemma SlopeIsPositive(r: real, s: real)
    requires 0.0 <= r < s <= 100.0
    requires s * (160.0 - s) > 1000.0
    ensures 160.0 * (s + r) - s * s - s * r - r * r - 1000.0 > 0.0
  {
    if s + r <= 100.0 {
      ProductNonnegative(r, 160.0 - s - r);
    } else {
      ProductNonnegative(s, 100.0 - s);
      ProductNonnegative(r, 100.0 - r);
      ProductNonnegative(s, 100.0 - r);
      ProductNonnegative(r, 100.0 - s);
      assert 160.0 * (s + r) - s * s - s * r - r * r - 1000.0
          == s * (100.0 - s) + r * (100.0 - r) + 0.5 * (s * (100.0 - r) + r * (100.0 - s)) + 10.0 * (s + r) - 1000.0;
    }
  }

  /** On ratings between the clamps the score is one plus the excess, or one where there is none. */
  lemma ScoreIsExcess(r: real)
    requires 0.0 <= r <= 100.0
    ensures Score(r) == if r * (160.0 - r) > 1000.0 then 1.0 + 0.000007 * Excess(r) else 1.0
    ensures r * (160.0 - r) > 1000.0 ==> Excess(r) > 0.0
  {
    CubicIsExcess(r);
    assert 160.0 * r - r * r == r * (160.0 - r);
    assert 100.0 * (160.0 - 100.0) > 1000.0 && Excess(100.0) == 500000.0;
    if r * (160.0 - r) > 1000.0 {
      ProductPositive(r, 160.0 * r - r * r - 1000.0);
      if r < 100.0 { ExcessGrows(r, 100.0); }
    } else {
      var shortfall := 1000.0 + r * r - 160.0 * r;
      ProductNonnegative(r, shortfall);
      assert Excess(r) + r * shortfall == 0.0 by {
        assert r * -shortfall + r * shortfall == r * (-shortfall + shortfall);
      }
    }
  }

  /** The score never falls as the rating rises, and rises strictly except where it is held at one. */
  lemma ScoreMonotone(r: real, s: real)
    requires 0.0 <= r <= s <= 100.0
    ensures 1.0 <= Score(r) <= Score(s) <= 4.5
    ensures Score(s) > 1.0 <==> s * (160.0 - s) > 1000.0
    ensures r < s && Score(s) > 1.0 ==> Score(r) < Score(s)
  {
    hide Score, Excess;
    ScoreIsExcess(r);
    ScoreIsExcess(s);
    ScoreInRange(s);
    ExcessStays(r, s);
    if r < s && s * (160.0 - s) > 1000.0 { ExcessGrows(r, s); }
  }

  lemma ScoreInRange(r: real)
    ensures 1.0 <= Score(r) <= 4.5
  {
  }

  lemma ExcessStays(r: real, s: real)
    requires 0.0 <= r <= s <= 100.0
    ensures r * (160.0 - r) > 1000.0 ==> s * (160.0 - s) > 1000.0
  {
    if r + s <= 160.0 {
      assert s * (160.0 - s) - r * (160.0 - r) == (s - r) * (160.0 - s - r);
      ProductNonnegative(s - r, 160.0 - s - r);
    } else {
      assert s * (160.0 - s) == 6000.0 + (100.0 - s) * (s - 60.0);
      ProductNonnegative(100.0 - s, s - 60.0);
    }
  }

  // ---------------------------------------------------------------- the estimate in full

  /** The impairment by delay at the ends of its pieces and between them: none, then in proportion to the delay, then
      steeper from where that has come to. */
  lemma DelayPieces(delay: real)
    ensures delay < 100.0 ==> DelayImpairment(delay) == 0.0
    ensures 100.0 <= delay <= 400.0 ==> DelayImpairment(delay) * 1000.0 == 24.0 * delay
    ensures 400.0 <= delay ==> (DelayImpairment(delay) - 9.6) * 100.0 == 11.0 * (delay - 400.0)
  {
  }

  /** The estimate as one formula of what was measured, as long as the counts add up without wrapping: with the rating
      `r`, the score is one unless `r * (160 - r)` is above 1000, and then 1 + 0.035 r + 0.000007 r (r - 60) (100 - r).
      No clamp ever takes part in it from above. */
  lemma EstimateInFull(jitter: real, rtt: real, lost: Counter, received: Counter)
    requires received + lost < 0x1_0000_0000_0000_0000
    ensures var percent := if lost == 0 then 0.0 else 100.0 * (lost as real / (received + lost) as real);
            var delay := jitter + rtt;
            var late := if delay < 100.0 then 0.0 else if delay < 400.0 then 0.024 * delay
                        else 0.11 * delay - 34.4;
            var r := 93.2 - 95.0 * (percent / (percent + 25.1)) - late;
            CalculateMOS(jitter, rtt, lost, received)
            == if r < 0.0 || r * (160.0 - r) <= 1000.0 then 1.0
               else 1.0 + 0.035 * r + 0.000007 * (r * (r - 60.0) * (100.0 - r))
  {
    hide Score, Rating, DelayImpairment, LossImpairment, LossRate;
    DelayPieces(rtt + jitter);
    LossRateIsTrue(lost, received);
    PercentIs(lost, received);
    LossPart(LossRate(lost, received));
    RatingScore(rtt + jitter, LossRate(lost, received));
  }

  lemma LossPart(rate: real)
    requires rate >= 0.0
    ensures LossImpairment(rate) == 95.0 * (rate / (rate + 25.1))
  {
  }

  lemma RatingScore(delay: real, rate: real)
    requires rate >= 0.0
    ensures var r := 93.2 - LossImpairment(rate) - DelayImpairment(delay);
            Score(Rating(delay, rate))
            == if r < 0.0 || r * (160.0 - r) <= 1000.0 then 1.0
               else 1.0 + 0.035 * r + 0.000007 * (r * (r - 60.0) * (100.0 - r))
  {
    hide Score, DelayImpairment, LossImpairment, Excess;
    LossImpairmentMonotone(0.0, rate);
    DelayImpairmentMonotone(delay, delay);
    var r := 93.2 - LossImpairment(rate) - DelayImpairment(delay);
    var rating := if r < 0.0 then 0.0 else r;
    assert Rating(delay, rate) == rating;
    ScoreIsExcess(rating);
    ExcessIsCubic(rating);
  }

  lemma ExcessIsCubic(r: real)
    ensures 1.0 + 0.000007 * Excess(r) == 1.0 + 0.035 * r + 0.000007 * (r * (r - 60.0) * (100.0 - r))
  {
  }

  lemma PercentIs(lost: Counter, received: Counter)
    ensures TrueLossRate(lost, received)
         == if lost == 0 then 0.0 else 100.0 * (lost as real / (received + lost) as real)
  {
  }

  // ---------------------------------------------------------------- main results

  lemma RatingMonotone(delay: real, delay': real, rate: real, rate': real)
    requires delay <= delay' && 0.0 <= rate <= rate'
    ensures 0.0 <= Rating(delay', rate') <= Rating(delay, rate) <= 93.2
    ensures Rating(delay, rate) == 93.2 <==> delay < 100.0 && rate == 0.0
  {
    LossImpairmentMonotone(rate, rate');
    LossImpairmentMonotone(0.0, rate);
    DelayImpairmentMonotone(delay, delay');
  }

  /** Whatever the arguments, a wrap of the counts included. */
  lemma ScoreIsInRange(jitter: real, rtt: real, lost: Counter, received: Counter)
    ensures 1.0 <= CalculateMOS(jitter, rtt, lost, received) <= 4.5
  {
    hide Score, Rating, LossRate;
    ScoreInRange(Rating(rtt + jitter, LossRate(lost, received)));
  }

  /** More delay, more jitter, more packets lost or fewer received never raise the score, whatever the reals and as
      long as the two counts add up without wrapping. */
  lemma WorseIsNeverBetter(jitter: real, jitter': real, rtt: real, rtt': real,
                           lost: Counter, lost': Counter, received: Counter, received': Counter)
    requires jitter <= jitter' && rtt <= rtt' && lost <= lost' && received' <= received
    requires received + lost < COUNTER_LIMIT && received' + lost' < COUNTER_LIMIT
    ensures CalculateMOS(jitter', rtt', lost', received') <= CalculateMOS(jitter, rtt, lost, received)
  {
    hide LossRate, Rating, Score;
    LossRateIsTrue(lost, received);
    LossRateIsTrue(lost', received');
    TrueLossRateMonotone(lost, lost', received, received');
    RatingMonotone(rtt + jitter, rtt' + jitter', LossRate(lost, received), LossRate(lost', received'));
    ScoreMonotone(Rating(rtt' + jitter', LossRate(lost', received')), Rating(rtt + jitter, LossRate(lost, received)));
  }

  /** Delay needs no condition on the counts. */
  lemma SlowerIsNeverBetter(jitter: real, jitter': real, rtt: real, rtt': real, lost: Counter, received: Counter)
    requires jitter + rtt <= jitter' + rtt'
    ensures CalculateMOS(jitter', rtt', lost, received) <= CalculateMOS(jitter, rtt, lost, received)
  {
    hide LossRate, Rating, Score;
    var rate := LossRate(lost, received);
    RatingMonotone(rtt + jitter, rtt' + jitter', rate, rate);
    ScoreMonotone(Rating(rtt' + jitter', rate), Rating(rtt + jitter, rate));
  }

  /** The estimate against the one the true loss rate would give: equal without a wrap, never higher once the sum
      has wrapped past zero, and the loss-free estimate when it wraps to zero exactly. */
  lemma WrapAgainstTruth(jitter: real, rtt: real, lost: Counter, received: Counter)
    ensures var estimate, truth := CalculateMOS(jitter, rtt, lost, received),
                                   Score(Rating(rtt + jitter, TrueLossRate(lost, received)));
            && (received + lost < COUNTER_LIMIT ==> estimate == truth)
            && (received + lost > COUNTER_LIMIT ==> estimate <= truth)
            && (received + lost == COUNTER_LIMIT ==> truth <= estimate == CalculateMOS(jitter, rtt, 0, 0))
  {
    hide LossRate, TrueLossRate, Rating, Score;
    LossRateIsTrue(lost, received);
    LossRateIsTrue(0, 0);
    var rate, full := LossRate(lost, received), TrueLossRate(lost, received);
    assert TrueLossRate(0, 0) == 0.0 by { NoPackets(); }
    var delay := rtt + jitter;
    if rate >= full {
      RatingMonotone(delay, delay, full, rate);
      ScoreMonotone(Rating(delay, rate), Rating(delay, full));
    } else {
      RatingMonotone(delay, delay, rate, full);
      ScoreMonotone(Rating(delay, full), Rating(delay, rate));
    }
  }

  lemma NoPackets()
    ensures TrueLossRate(0, 0) == 0.0
  {
  }

  /** The best score is that of rating 93.2, so never 4.5; a call has it exactly when its delay is below 100 and no
      loss is seen. */
  lemma BestScore(jitter: real, rtt: real, lost: Counter, received: Counter)
    ensures CalculateMOS(jitter, rtt, lost, received) <= Score(93.2) < 4.41
    ensures CalculateMOS(jitter, rtt, lost, received) == Score(93.2)
            <==> rtt + jitter < 100.0 && LossRate(lost, received) == 0.0
  {
    hide LossRate, Rating, Score;
    var rate := LossRate(lost, received);
    var rating := Rating(rtt + jitter, rate);
    RatingMonotone(rtt + jitter, rtt + jitter, rate, rate);
    ScoreMonotone(rating, 93.2);
    BestIsBelow();
  }

  lemma BestIsBelow()
    ensures 1.0 < Score(93.2) < 4.41
  {
  }

  ghost predicate LossNeverHelps(jitter: real, rtt: real, received: Counter, most: Counter)
  {
    forall lost: Counter, lost': Counter :: lost <= lost' <= most ==>
      CalculateMOS(jitter, rtt, lost', received) <= CalculateMOS(jitter, rtt, lost, received)
  }

  /** The call's score is at its floor of one, told from the rating. */
  predicate AtFloor(delay: real, rate: real)
    requires rate >= 0.0
  {
    var r := Rating(delay, rate);
    r * (160.0 - r) <= 1000.0
  }

  /** The condition on the counts is needed: further lost packets up to a given number never raise the score exactly
      when that number can be added without wrapping, or the delay alone takes the score to its floor. At the one
      count of received packets at which a single loss wraps the sum to zero, two losses are still harmless, and
      more are when the last of them still leaves the score at its floor. */
  lemma LossNeverHelpsIff(jitter: real, rtt: real, received: Counter, most: Counter)
    ensures LossNeverHelps(jitter, rtt, received, most)
            <==> || received + most < COUNTER_LIMIT
                 || AtFloor(rtt + jitter, 0.0)
                 || (received == COUNTER_LIMIT - 1 && (most <= 2 || AtFloor(rtt + jitter, LossRate(most, received))))
  {
    hide LossRate, Rating, Score, CalculateMOS, AtFloor;
    var delay := rtt + jitter;
    if received + most < COUNTER_LIMIT {
      forall lost: Counter, lost': Counter | lost <= lost' <= most
        ensures CalculateMOS(jitter, rtt, lost', received) <= CalculateMOS(jitter, rtt, lost, received)
      {
        WorseIsNeverBetter(jitter, jitter, rtt, rtt, lost, lost', received, received);
      }
    } else if AtFloor(delay, 0.0) {
      forall lost: Counter ensures CalculateMOS(jitter, rtt, lost, received) == 1.0 {
        ScoreOfRate(jitter, rtt, lost, received, 0.0);
      }
    } else if received < COUNTER_LIMIT - 1 {
      var unseen := COUNTER_LIMIT - received;
      UnseenLoss(jitter, rtt, received);
      assert CalculateMOS(jitter, rtt, unseen, received) > CalculateMOS(jitter, rtt, unseen - 1, received);
    } else {
      AllReceived(jitter, rtt, most);
    }
  }

  /** A score against that of a rate: no better when its own rate is no lower, and strictly worse when it is higher,
      unless the score of the rate is at the floor. */
  lemma ScoreOfRate(jitter: real, rtt: real, lost: Counter, received: Counter, rate: real)
    requires 0.0 <= rate <= LossRate(lost, received)
    ensures 1.0 <= CalculateMOS(jitter, rtt, lost, received) <= Score(Rating(rtt + jitter, rate))
    ensures Score(Rating(rtt + jitter, rate)) == 1.0 <==> AtFloor(rtt + jitter, rate)
    ensures rate < LossRate(lost, received) && !AtFloor(rtt + jitter, rate) ==>
              CalculateMOS(jitter, rtt, lost, received) < Score(Rating(rtt + jitter, rate))
    ensures rate == LossRate(lost, received) ==>
              CalculateMOS(jitter, rtt, lost, received) == Score(Rating(rtt + jitter, rate))
  {
    hide LossRate, Score, Rating;
    var delay, own := rtt + jitter, LossRate(lost, received);
    RatingMonotone(delay, delay, rate, own);
    ScoreMonotone(Rating(delay, own), Rating(delay, rate));
    if rate < own { RatingFalls(delay, rate, own); }
  }

  lemma RatingFalls(delay: real, rate: real, rate': real)
    requires 0.0 <= rate < rate'
    ensures Rating(delay, rate) > 0.0 ==> Rating(delay, rate') < Rating(delay, rate)
  {
    hide LossImpairment;
    LossImpairmentMonotone(rate, rate');
    DelayImpairmentMonotone(delay, delay);
  }

  /** Where the sum wraps to zero the loss-free score comes back, above the one of a packet less lost. */
  lemma UnseenLoss(jitter: real, rtt: real, received: Counter)
    requires 0 < received < COUNTER_LIMIT - 1 && !AtFloor(rtt + jitter, 0.0)
    ensures CalculateMOS(jitter, rtt, COUNTER_LIMIT - received, received)
          > CalculateMOS(jitter, rtt, COUNTER_LIMIT - received - 1, received)
  {
    hide Rating, Score, CalculateMOS, AtFloor;
    QuotientOrder((COUNTER_LIMIT - received - 1) as real, (COUNTER_LIMIT - 1) as real, 0.0, 1.0);
    ScoreOfRate(jitter, rtt, COUNTER_LIMIT - received, received, 0.0);
    ScoreOfRate(jitter, rtt, COUNTER_LIMIT - received - 1, received, 0.0);
  }

  /** With all but one count received, one lost packet wraps the sum to zero and the n-th to n - 1: the rate falls
      from 200 percent on. */
  lemma WrappedRate(lost: Counter)
    ensures lost <= 1 ==> LossRate(lost, COUNTER_LIMIT - 1) == 0.0
    ensures lost == 2 ==> LossRate(lost, COUNTER_LIMIT - 1) == 200.0
    ensures lost >= 2 ==> LossRate(lost, COUNTER_LIMIT - 1) == lost as real / (lost - 1) as real * 100.0
  {
  }

  lemma WrappedRateFalls(lost: Counter, lost': Counter)
    requires 2 <= lost <= lost'
    ensures LossRate(lost', COUNTER_LIMIT - 1) <= LossRate(lost, COUNTER_LIMIT - 1)
    ensures lost < lost' ==> LossRate(lost', COUNTER_LIMIT - 1) < LossRate(lost, COUNTER_LIMIT - 1)
  {
    hide LossRate;
    WrappedRate(lost);
    WrappedRate(lost');
    var a, b := lost as real, lost' as real;
    assert a * (b - 1.0) - b * (a - 1.0) == b - a;
    QuotientOrder(a, a - 1.0, b, b - 1.0);
    QuotientOrder(b, b - 1.0, a, a - 1.0);
  }

  lemma AllReceived(jitter: real, rtt: real, most: Counter)
    requires most > 0 && !AtFloor(rtt + jitter, 0.0)
    ensures LossNeverHelps(jitter, rtt, COUNTER_LIMIT - 1, most)
       <==> most <= 2 || AtFloor(rtt + jitter, LossRate(most, COUNTER_LIMIT - 1))
  {
    hide LossRate, Rating, Score, CalculateMOS, AtFloor;
    var received, delay := COUNTER_LIMIT - 1, rtt + jitter;
    var last := LossRate(most, received);
    forall lost: Counter ensures CalculateMOS(jitter, rtt, lost, received) <= Score(Rating(delay, 0.0)) {
      ScoreOfRate(jitter, rtt, lost, received, 0.0);
    }
    forall lost: Counter | lost <= 1 ensures CalculateMOS(jitter, rtt, lost, received) == Score(Rating(delay, 0.0)) {
      WrappedRate(lost);
      ScoreOfRate(jitter, rtt, lost, received, 0.0);
    }
    if most > 2 {
      if AtFloor(delay, last) {
        forall lost: Counter | 2 <= lost <= most ensures CalculateMOS(jitter, rtt, lost, received) == 1.0 {
          WrappedRateFalls(lost, most);
          ScoreOfRate(jitter, rtt, lost, received, last);
        }
        AboveFloor(jitter, rtt, received);
      } else {
        WrappedRateFalls(2, most);
        ScoreOfRate(jitter, rtt, 2, received, last);
        ScoreOfRate(jitter, rtt, most, received, last);
        assert CalculateMOS(jitter, rtt, most, received) > CalculateMOS(jitter, rtt, 2, received);
      }
    }
  }

  lemma AboveFloor(jitter: real, rtt: real, received: Counter)
    ensures forall lost: Counter :: CalculateMOS(jitter, rtt, lost, received) >= 1.0
  {
    forall lost: Counter ensures CalculateMOS(jitter, rtt, lost, received) >= 1.0 {
      ScoreInRange(Rating(rtt + jitter, LossRate(lost, received)));
    }
  }

  /** Without loss the floor is reached by delay alone, from between 1100 and 1101 on. */
  lemma FloorByDelay(delay: real)
    ensures delay <= 1100.0 ==> !AtFloor(delay, 0.0)
    ensures delay >= 1101.0 ==> AtFloor(delay, 0.0)
    ensures AtFloor(delay, 0.0) <==>
              var r := 127.6 - 0.11 * delay; delay >= 400.0 && (r <= 0.0 || r * (160.0 - r) <= 1000.0)
  {
    hide LossImpairment;
    assert LossImpairment(0.0) == 0.0 by { NoImpairment(); }
    var r := Rating(delay, 0.0);
    if delay <= 1100.0 {
      DelayImpairmentMonotone(delay, 1100.0);
      assert 6.6 <= r <= 93.2;
      assert 6.6 * (160.0 - 6.6) > 1000.0;
      ExcessStays(6.6, r);
    } else if delay >= 1101.0 {
      DelayImpairmentMonotone(1101.0, delay);
      assert 0.0 <= r <= 6.5;
      assert 6.5 * (160.0 - 6.5) <= 1000.0;
      ExcessStays(r, 6.5);
    }
  }

  lemma NoImpairment()
    ensures LossImpairment(0.0) == 0.0
  {
  }

  /** Loss alone never takes the score to its floor: that needs a delay above 410 as well, unless the counts wrap. */
  lemma FloorNeedsDelay(jitter: real, rtt: real, lost: Counter, received: Counter)
    requires received + lost < COUNTER_LIMIT
    ensures CalculateMOS(jitter, rtt, lost, received) == 1.0 ==> rtt + jitter > 410.0
  {
    hide LossRate, Score;
    LossRateIsTrue(lost, received);
    var rate := LossRate(lost, received);
    if rtt + jitter <= 410.0 {
      LossImpairmentMonotone(rate, 100.0);
      DelayImpairmentMonotone(rtt + jitter, 410.0);
      FullLoss();
      var rating := Rating(rtt + jitter, rate);
      assert 6.55 <= rating <= 100.0;
      ScoreMonotone(6.55, rating);
      assert 6.55 * (160.0 - 6.55) > 1000.0;
      ScoreMonotone(0.0, 6.55);
    }
  }

  lemma FullLoss()
    ensures LossImpairment(100.0) < 75.95
  {
  }
}

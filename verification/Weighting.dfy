/**
  The score behind weighted selection (endpoint.go:226-232, 291-312), over exact reals.
*/
module Weighting {
  const WARMUP_REQUESTS := 10

  function SuccessRate(successes: nat, total: nat): real {
    if total == 0 then 1.0 else successes as real / total as real
  }

  /** The average latency in seconds. */
  function Seconds(ns: int): real {
    ns as real / 1000000000.0
  }

  function Weight(available: bool, successes: nat, total: nat, latencyNs: int): real {
    if !available then 0.0
    else if latencyNs == 0 || total == 0 then 1.0
    else
      var computed := SuccessRate(successes, total) / Seconds(latencyNs);
      if total >= WARMUP_REQUESTS then computed
      else
        var confidence := total as real / WARMUP_REQUESTS as real;
        var neutral := 1.0 / Seconds(latencyNs);
        neutral * (1.0 - confidence) + computed * confidence
  }

  /** How far the measured success rate is trusted: it ramps from 0 to 1 over the warm-up. */
  function Trust(total: nat): real {
    if total >= WARMUP_REQUESTS then 1.0 else total as real / 10.0
  }

  /** What is left of the score when a part c of the failure rate is trusted. */
  function Discount(c: real, rate: real): real {
    1.0 - c * (1.0 - rate)
  }

  /**
    Warm-up and afterwards are one formula: the inverse latency, discounted by the trusted part of the
    failure rate.
  */
  lemma OneFormula(successes: nat, total: nat, latencyNs: int)
    requires 0 < total && successes <= total && 0 < latencyNs
    ensures Weight(true, successes, total, latencyNs)
            == (1.0 / Seconds(latencyNs)) * Discount(Trust(total), SuccessRate(successes, total))
    ensures Seconds(latencyNs) == latencyNs as real / 1000000000.0
    ensures Discount(Trust(total), SuccessRate(successes, total))
            == 1.0 - (if total >= 10 then 1.0 else total as real / 10.0) * (1.0 - successes as real / total as real)
  {
    var inv := 1.0 / Seconds(latencyNs);
    var sr := SuccessRate(successes, total);
    assert sr / Seconds(latencyNs) == sr * inv;
    if total < WARMUP_REQUESTS {
      var c := Trust(total);
      calc {
        inv * (1.0 - c) + (sr * inv) * c;
        inv * (1.0 - c) + inv * (sr * c);
        inv * ((1.0 - c) + sr * c);
        inv * (1.0 - c * (1.0 - sr));
      }
    }
  }

  /** Out of service nothing, without data one: neither latency nor successes count before the first request. */
  lemma WeightWithoutData(successes: nat, total: nat, latencyNs: int)
    ensures Weight(false, successes, total, latencyNs) == 0.0
    ensures latencyNs == 0 || total == 0 ==> Weight(true, successes, total, latencyNs) == 1.0
    ensures SuccessRate(successes, 0) == 1.0
  {
  }

  lemma DiscountBounds(c: real, rate: real)
    requires 0.0 <= c <= 1.0 && 0.0 <= rate <= 1.0
    ensures rate <= Discount(c, rate) <= 1.0
  {
    ScaleLe(1.0 - rate, c, 1.0);
    ScaleLe(1.0 - rate, 0.0, c);
  }

  /** The weight lies between the fully trusted and the neutral score, and warm-up is never a disadvantage. */
  lemma WeightBounds(successes: nat, total: nat, latencyNs: int)
    requires 0 < total && successes <= total && 0 < latencyNs
    ensures 0.0 <= SuccessRate(successes, total) <= 1.0
    ensures SuccessRate(successes, total) / Seconds(latencyNs) <= Weight(true, successes, total, latencyNs)
    ensures Weight(true, successes, total, latencyNs) <= 1.0 / Seconds(latencyNs)
  {
    var inv := 1.0 / Seconds(latencyNs);
    var sr := SuccessRate(successes, total);
    RateBounds(successes, total);
    OneFormula(successes, total, latencyNs);
    assert sr / Seconds(latencyNs) == inv * sr;
    var f := Discount(Trust(total), sr);
    DiscountBounds(Trust(total), sr);
    ScaleLe(inv, sr, f);
    ScaleLe(inv, f, 1.0);
  }

  lemma RateBounds(successes: nat, total: nat)
    requires 0 < total && successes <= total
    ensures 0.0 <= SuccessRate(successes, total) <= 1.0
  {
    var s, t := successes as real, total as real;
    assert s / t * t == s;
    CancelLe(s / t, 1.0, t);
    CancelLe(0.0, s / t, t);
  }

  lemma CancelLe(a: real, b: real, k: real)
    requires 0.0 < k && a * k <= b * k
    ensures a <= b
  {
    var d := b - a;
    assert d * k >= 0.0;
  }

  lemma ScaleLe(k: real, a: real, b: real)
    requires 0.0 <= k && a <= b
    ensures k * a <= k * b && a * k <= b * k
  {
  }

  /** More successes never weigh less, and a lower latency never weighs less. */
  lemma WeightMonotone(s1: nat, s2: nat, total: nat, slow: int, fast: int)
    requires 0 < total && s1 <= s2 <= total && 0 < fast <= slow
    ensures Weight(true, s1, total, slow) <= Weight(true, s2, total, fast)
  {
    OneFormula(s1, total, slow);
    OneFormula(s2, total, fast);
    RateBounds(s1, total);
    RateBounds(s2, total);
    RateMonotone(s1, s2, total);
    InverseMonotone(Seconds(slow), Seconds(fast));
    var r1, r2 := SuccessRate(s1, total), SuccessRate(s2, total);
    ScoreMonotone(1.0 / Seconds(slow), 1.0 / Seconds(fast), Trust(total), r1, r2);
  }

  lemma ScoreMonotone(i1: real, i2: real, c: real, r1: real, r2: real)
    requires 0.0 < i1 <= i2 && 0.0 <= c <= 1.0 && 0.0 <= r1 <= r2 <= 1.0
    ensures i1 * Discount(c, r1) <= i2 * Discount(c, r2)
  {
    DiscountMonotone(c, r1, r2);
    DiscountBounds(c, r1);
    DiscountBounds(c, r2);
    ScaleLe(i1, Discount(c, r1), Discount(c, r2));
    ScaleLe(Discount(c, r2), i1, i2);
  }

  lemma DiscountMonotone(c: real, r1: real, r2: real)
    requires 0.0 <= c && r1 <= r2
    ensures Discount(c, r1) <= Discount(c, r2)
  {
    ScaleLe(c, 1.0 - r2, 1.0 - r1);
  }

  lemma RateMonotone(s1: nat, s2: nat, total: nat)
    requires 0 < total && s1 <= s2
    ensures SuccessRate(s1, total) <= SuccessRate(s2, total)
  {
    var a, b, t := s1 as real, s2 as real, total as real;
    assert a / t * t == a && b / t * t == b;
    CancelLe(a / t, b / t, t);
  }

  lemma InverseMonotone(x: real, y: real)
    requires 0.0 < y <= x
    ensures 0.0 < 1.0 / x <= 1.0 / y
  {
    var i, j := 1.0 / x, 1.0 / y;
    assert i * x == 1.0 && j * y == 1.0;
    ScaleLe(j, y, x);
    CancelLe(i, j, x);
  }

  // ---------------------------------------------------------------------------
  // The floor

  /** A scored endpoint stays selectable even at score zero (pool.go:128-130). */
  function Base(weight: real): real {
    if weight <= 0.0 then 0.001 else weight
  }

  lemma PositiveFactor(a: real, b: real)
    requires a > 0.0 && b >= 0.0
    ensures a * b == 0.0 <==> b == 0.0
  {
  }

  /** An endpoint with data scores zero exactly when it has had no success by the end of the warm-up. */
  lemma WeightZeroIff(successes: nat, total: nat, latencyNs: int)
    requires 0 < total && successes <= total && 0 < latencyNs
    ensures Weight(true, successes, total, latencyNs) == 0.0 <==> successes == 0 && total >= WARMUP_REQUESTS
    ensures Weight(true, successes, total, latencyNs) >= 0.0
  {
    var inv, c, sr := 1.0 / Seconds(latencyNs), Trust(total), SuccessRate(successes, total);
    OneFormula(successes, total, latencyNs);
    RateBounds(successes, total);
    DiscountBounds(c, sr);
    InverseMonotone(Seconds(latencyNs), Seconds(latencyNs));
    PositiveFactor(inv, Discount(c, sr));
    assert sr == 0.0 <==> successes == 0 by {
      assert sr * total as real == successes as real;
    }
    ScaleLe(1.0 - sr, c, 1.0);
    if c < 1.0 && sr < 1.0 {
      StrictScale(1.0 - sr, c);
    }
  }

  lemma StrictScale(k: real, c: real)
    requires 0.0 < k && c < 1.0
    ensures c * k < k
  {
    assert (1.0 - c) * k > 0.0;
  }

  /**
    The floor breaks the order of weights in one case alone: an endpoint without a success by the end of the
    warm-up is lifted over one that has had some, but scores below the floor.
  */
  lemma FloorKeepsOrderIff(s1: nat, s2: nat, total: nat, slow: int, fast: int)
    requires 0 < total && s1 <= s2 <= total && 0 < fast <= slow
    ensures Base(Weight(true, s1, total, slow)) <= Base(Weight(true, s2, total, fast))
            <==> s1 > 0 || total < WARMUP_REQUESTS || s2 == 0 || Weight(true, s2, total, fast) >= 0.001
  {
    WeightMonotone(s1, s2, total, slow, fast);
    WeightZeroIff(s1, total, slow);
    WeightZeroIff(s2, total, fast);
  }

  /** So the floor does lift one over the other: at two seconds, no success in a thousand over one success. */
  lemma FloorReversesOrder()
    ensures Weight(true, 0, 1000, 2000000000) < Weight(true, 1, 1000, 2000000000)
    ensures Base(Weight(true, 0, 1000, 2000000000)) > Base(Weight(true, 1, 1000, 2000000000))
  {
  }
}

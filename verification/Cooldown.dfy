/** How long a cooldown lasts: the int64 arithmetic of `markFailed` (endpoint.go:248-253). */
module Cooldown {
  import opened Basics

  /** The int64 that Go keeps of an integer. */
  function Wrap64(x: int): int {
    (x + TWO_63) % TWO_64 - TWO_63
  }

  /** `1 << min(tier-1, 4)` */
  function Multiplier(tier: nat): nat
    requires tier >= 1
  {
    if tier == 1 then 1
    else if tier == 2 then 2
    else if tier == 3 then 4
    else if tier == 4 then 8
    else 16
  }

  /** The duration `markFailed` hands to its recovery goroutine, given the tier it has just counted. */
  function Delay(base: int, max: int, tier: nat): int
    requires tier >= 1
  {
    var cooldown := Wrap64(base * Multiplier(tier));
    if max > 0 && cooldown > max then max else cooldown
  }

  /**
    The documented duration: the base doubles with every consecutive cooldown, up to 16 times and up to the
    maximum.
  */
  function Documented(base: int, max: int, k: nat): int
    requires k >= 1
    decreases k
  {
    if k > 5 then Documented(base, max, 5) else Min(Uncapped(base, k), max)
  }

  function Uncapped(base: int, k: nat): int
    requires k >= 1
  {
    if k == 1 then base else 2 * Uncapped(base, k - 1)
  }

  function Min(a: int, b: int): int {
    if a <= b then a else b
  }

  lemma MultiplierDoubles(base: int, k: nat)
    requires 1 <= k <= 5
    ensures base * Multiplier(k) == Uncapped(base, k)
  {
    if k > 1 {
      MultiplierDoubles(base, k - 1);
      assert Multiplier(k) == 2 * Multiplier(k - 1);
      assert base * Multiplier(k) == 2 * (base * Multiplier(k - 1));
    }
  }

  lemma WrapExact(x: int)
    ensures Wrap64(x) == x <==> -TWO_63 <= x < TWO_63
    ensures x >= TWO_63 ==> Wrap64(x) < x
    ensures -TWO_63 <= Wrap64(x) < TWO_63
  {
    var y := x + TWO_63;
    assert y == TWO_64 * (y / TWO_64) + y % TWO_64;
  }

  /** The shifted product is exact at every tier if and only if sixteen times the base fits an int64. */
  lemma NoOverflowIff(base: int)
    requires 0 < base < TWO_63
    ensures (forall k: nat :: k >= 1 ==> Wrap64(base * Multiplier(k)) == base * Multiplier(k))
            <==> base <= (TWO_63 - 1) / 16
  {
    WrapExact(base * 16);
    if base <= (TWO_63 - 1) / 16 {
      forall k: nat | k >= 1 ensures Wrap64(base * Multiplier(k)) == base * Multiplier(k) {
        assert base * Multiplier(k) <= base * 16;
        WrapExact(base * Multiplier(k));
      }
    } else {
      assert Multiplier(5) == 16 && base * 16 >= TWO_63;
      assert Wrap64(base * Multiplier(5)) != base * Multiplier(5);
    }
  }

  /**
    The code's duration is the documented one exactly when the product fits, or overflows onto a value the
    maximum cuts.
  */
  lemma DelayIsDocumentedIff(base: int, max: int, k: nat)
    requires 0 < base < TWO_63 && 0 < max < TWO_63 && k >= 1
    ensures Delay(base, max, k) == Documented(base, max, k)
            <==> base * Multiplier(k) < TWO_63 || Wrap64(base * Multiplier(k)) >= max
  {
    var j := if k > 5 then 5 else k;
    MultiplierDoubles(base, j);
    assert Documented(base, max, k) == Min(base * Multiplier(k), max);
    assert base * Multiplier(k) > 0;
    WrapExact(base * Multiplier(k));
  }

  /** Within the bound on the base the int64 computation is exact, and so the code's duration is the documented one. */
  lemma DelayIsExact(base: int, max: int, k: nat)
    requires 0 < base <= (TWO_63 - 1) / 16 && 0 < max < TWO_63 && k >= 1
    ensures Delay(base, max, k) == Documented(base, max, k) == Min(base * Multiplier(k), max)
  {
    NoOverflowIff(base);
    assert Wrap64(base * Multiplier(k)) == base * Multiplier(k);
    WrapExact(base * Multiplier(k));
    DelayIsDocumentedIff(base, max, k);
  }

  /**
    Tier by tier: the base, then twice, four and eight times the base, then sixteen times, each up to the maximum if
    there is one.
  */
  lemma DelayByTier(base: int, max: int, k: nat)
    requires 0 < base <= (TWO_63 - 1) / 16 && k >= 1
    ensures var full := if k == 1 then base else if k == 2 then 2 * base else if k == 3 then 4 * base
                        else if k == 4 then 8 * base else 16 * base;
            Delay(base, max, k) == if max > 0 then Min(full, max) else full
  {
    NoOverflowIff(base);
  }

  /** The durations never decrease in the tier, and no tier exceeds the two documented caps. */
  lemma DelayMonotone(base: int, max: int, j: nat, k: nat)
    requires 0 < base <= (TWO_63 - 1) / 16 && 0 < max && 1 <= j <= k
    ensures 0 < Delay(base, max, j) <= Delay(base, max, k)
  {
    NoOverflowIff(base);
    assert base * Multiplier(j) <= base * Multiplier(k);
  }

  /** Overflow or not, no recovery waits longer than sixteen bases or the maximum. */
  lemma DelayBounded(base: int, max: int, k: nat)
    requires 0 < base && 0 < max && k >= 1
    ensures Delay(base, max, k) <= Min(16 * base, max)
  {
    WrapExact(base * Multiplier(k));
    assert base <= base * Multiplier(k) <= 16 * base;
  }

  /** Without the bound on the base the duration may come out negative, and the endpoint recovers at once. */
  lemma OverflowWitness()
    ensures Delay(TWO_63 / 16, TWO_63 - 1, 5) < 0 < Documented(TWO_63 / 16, TWO_63 - 1, 5)
  {
    var base := TWO_63 / 16;
    assert base * Multiplier(5) == TWO_63;
    assert Wrap64(TWO_63) == -TWO_63;
    DelayIsDocumentedIff(base, TWO_63 - 1, 5);
    MultiplierDoubles(base, 5);
  }
}

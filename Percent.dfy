/** `Math.round((n / d) * 100)` on a non-negative count `n` out of `d > 0`,
    in exact integer arithmetic. `Math.round` rounds halves up, so the
    result is the integer nearest to 100·n/d, a tie going to the larger. */
module Percent {

  function RoundPercent(n: nat, d: nat): (r: nat)
    requires d > 0
    // r - 1/2 <= 100·n/d < r + 1/2, multiplied through by 2·d
    ensures 2 * d * r <= 200 * n + d < 2 * d * r + 2 * d
  {
    (200 * n + d) / (2 * d)
  }

  /** A count out of `d` is a percentage between 0 and 100; all of `d`
      is 100 and none is 0. */
  lemma RoundPercentBounds(n: nat, d: nat)
    requires d > 0
    ensures n <= d ==> RoundPercent(n, d) <= 100
    ensures n == d ==> RoundPercent(n, d) == 100
    ensures n == 0 ==> RoundPercent(n, d) == 0
  {
    var r := RoundPercent(n, d);
    MulMonotone(2 * d, 101, r);
    MulMonotone(2 * d, r + 1, 100);
  }

  /** The percentage is 0 exactly when the count is below half a percent
      of `d`, so a non-zero count can still read as 0%. */
  lemma RoundPercentZero(n: nat, d: nat)
    requires d > 0
    ensures RoundPercent(n, d) == 0 <==> 200 * n < d
  {
    MulMonotone(2 * d, 1, RoundPercent(n, d));
  }

  /** The rounding has one answer: any `k` within half a percent is it. */
  lemma RoundPercentUnique(n: nat, d: nat, k: nat)
    requires d > 0
    requires 2 * d * k <= 200 * n + d < 2 * d * k + 2 * d
    ensures RoundPercent(n, d) == k
  {
    var r := RoundPercent(n, d);
    MulMonotone(2 * d, r + 1, k);
    MulMonotone(2 * d, k + 1, r);
  }

  /** A count of at most `d` reads as 100% exactly when it is at least
      99.5% of `d`; so with 200 or more records one that is not counted can
      still give 100%. */
  lemma RoundPercentHundred(n: nat, d: nat)
    requires d > 0 && n <= d
    ensures RoundPercent(n, d) == 100 <==> 200 * n >= 199 * d
  {
    if 200 * n >= 199 * d {
      RoundPercentUnique(n, d, 100);
    }
  }

  /** More of `d` never gives a smaller percentage. */
  lemma RoundPercentMonotone(n: nat, m: nat, d: nat)
    requires d > 0 && n <= m
    ensures RoundPercent(n, d) <= RoundPercent(m, d)
  {
    MulMonotone(2 * d, RoundPercent(m, d) + 1, RoundPercent(n, d));
  }

  lemma MulMonotone(k: nat, x: nat, y: nat)
    ensures x <= y ==> k * x <= k * y
  {
  }
}

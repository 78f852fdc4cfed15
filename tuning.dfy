/**
 * The proposal-scale adaptation rule of Metropolis1dStep.tune
 * (mcmc/metropolis.py:179-215), taken by the source from pymc3: each
 * variable's proposal scale is multiplied by a factor chosen from its windowed
 * acceptance ratio.
 */
module Tuning {

  /**
   * The multiplier tune applies to one variable whose windowed acceptance
   * ratio is `ratio`: the tests run in the source's order, low thresholds
   * first, then high ones descending, and the first that holds wins; a ratio
   * no test accepts leaves the scale as it is.
   */
  function Multiplier(ratio: real): (m: real)
    ensures m > 0.0
  {
    if ratio < 0.001 then 0.1
    else if ratio < 0.05 then 0.5
    else if ratio < 0.2 then 0.9
    else if ratio > 0.95 then 10.0
    else if ratio > 0.75 then 2.0
    else if ratio > 0.5 then 1.1
    else 1.0
  }

  /**
   * Because the tests run in order, their overlapping conditions carve
   * the ratio line into seven disjoint bands; this states the factor of each
   * band in both directions.
   */
  lemma MultiplierBands(ratio: real)
    ensures Multiplier(ratio) == 0.1 <==> ratio < 0.001
    ensures Multiplier(ratio) == 0.5 <==> 0.001 <= ratio < 0.05
    ensures Multiplier(ratio) == 0.9 <==> 0.05 <= ratio < 0.2
    ensures Multiplier(ratio) == 1.0 <==> 0.2 <= ratio <= 0.5
    ensures Multiplier(ratio) == 1.1 <==> 0.5 < ratio <= 0.75
    ensures Multiplier(ratio) == 2.0 <==> 0.75 < ratio <= 0.95
    ensures Multiplier(ratio) == 10.0 <==> 0.95 < ratio
  {
  }

  /** A higher acceptance ratio never yields a smaller multiplier. */
  lemma MultiplierMonotone(lo: real, hi: real)
    requires lo <= hi
    ensures Multiplier(lo) <= Multiplier(hi)
  {
    MultiplierBands(lo);
    MultiplierBands(hi);
  }

  /** The multipliers at the table's boundaries and just beyond them. */
  lemma MultiplierAtBoundaries()
    ensures Multiplier(0.0009) == 0.1 && Multiplier(0.001) == 0.5
    ensures Multiplier(0.0499) == 0.5 && Multiplier(0.05) == 0.9
    ensures Multiplier(0.1999) == 0.9 && Multiplier(0.2) == 1.0
    ensures Multiplier(0.5) == 1.0 && Multiplier(0.5001) == 1.1
    ensures Multiplier(0.75) == 1.1 && Multiplier(0.7501) == 2.0
    ensures Multiplier(0.95) == 2.0 && Multiplier(0.9501) == 10.0
  {
    MultiplierBands(0.0009);
    MultiplierBands(0.001);
    MultiplierBands(0.0499);
    MultiplierBands(0.05);
    MultiplierBands(0.1999);
    MultiplierBands(0.2);
    MultiplierBands(0.5);
    MultiplierBands(0.5001);
    MultiplierBands(0.75);
    MultiplierBands(0.7501);
    MultiplierBands(0.95);
    MultiplierBands(0.9501);
  }

  /** The proposal scales after one call of tune, given the per-variable ratios it reads. */
  function Tuned(scales: seq<real>, ratios: seq<real>): (r: seq<real>)
    requires |ratios| == |scales|
    ensures |r| == |scales|
  {
    seq(|scales|, i requires 0 <= i < |scales| => scales[i] * Multiplier(ratios[i]))
  }

  /** Tuning only multiplies by positive factors, so positive scales stay positive. */
  lemma TunedKeepsPositive(scales: seq<real>, ratios: seq<real>)
    requires |ratios| == |scales|
    requires forall i :: 0 <= i < |scales| ==> scales[i] > 0.0
    ensures forall i :: 0 <= i < |scales| ==> Tuned(scales, ratios)[i] > 0.0
  {
    forall i | 0 <= i < |scales|
      ensures Tuned(scales, ratios)[i] > 0.0
    {
      PositiveProduct(scales[i], Multiplier(ratios[i]));
    }
  }

  lemma PositiveProduct(a: real, b: real)
    requires a > 0.0 && b > 0.0
    ensures a * b > 0.0
  {
  }

  /** A scale whose ratio lies in [0.2, 0.5] is left exactly as it was. */
  lemma TunedKeepsMiddleBand(scales: seq<real>, ratios: seq<real>, i: nat)
    requires |ratios| == |scales| && i < |scales|
    requires 0.2 <= ratios[i] <= 0.5
    ensures Tuned(scales, ratios)[i] == scales[i]
  {
    MultiplierBands(ratios[i]);
  }
}

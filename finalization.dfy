/** AfterThreadedGenerateData: the statistics derived from the merged totals
    once every region has been merged. */
module Finalization {
  import opened Samples
  import opened Accumulation

  /** A derived statistic: a real value, or the non-finite value that the
      source's floating-point division by a zero count produces. */
  datatype Derived = Value(x: real) | NonFinite

  /** The outputs of the filter (the standard deviation, a square root of the
      variance, is not part of this model). */
  datatype Statistics = Statistics(count: nat, minimum: int, maximum: int,
                                   mean: Derived, variance: Derived,
                                   sum: real, sumOfSquares: real)

  /** The mean of n samples whose sum is sum. */
  function Mean(sum: real, n: real): real
    requires n > 0.0
  {
    sum / n
  }

  /** A sum of squared deviations of n samples divided by n - 1. */
  function BesselCorrected(squaredDeviations: real, n: real): real
    requires n > 1.0
  {
    squaredDeviations / (n - 1.0)
  }

  /** The variance of n samples computed from their two moments:
      (sumOfSquares - sum * sum / n) / (n - 1). */
  function TwoMomentVariance(sumOfSquares: real, sum: real, n: real): real
    requires n > 1.0
  {
    BesselCorrected(sumOfSquares - sum * sum / n, n)
  }

  /** mean = sum / count and the two-moment variance; the other outputs pass
      the totals through. A zero divisor gives a non-finite value. */
  function Finalize(totals: Accumulator): (r: Statistics)
    ensures r.count == totals.count && r.sum == totals.sum && r.sumOfSquares == totals.sumOfSquares
    ensures r.minimum == totals.min && r.maximum == totals.max
    ensures r.mean.Value? <==> totals.count > 0
    ensures r.variance.Value? <==> totals.count > 1
  {
    Statistics(totals.count, totals.min, totals.max,
               if totals.count == 0 then NonFinite else Value(Mean(totals.sum, totals.count as real)),
               if totals.count <= 1 then NonFinite
               else Value(TwoMomentVariance(totals.sumOfSquares, totals.sum, totals.count as real)),
               totals.sum, totals.sumOfSquares)
  }

  /** The mean times the count gives back the sum, and the variance times
      count - 1 gives back the two-moment numerator. */
  lemma FinalizeMoments(totals: Accumulator)
    ensures Finalize(totals).mean.Value? ==>
      Finalize(totals).mean.x * (totals.count as real) == totals.sum
    ensures Finalize(totals).variance.Value? ==>
      Finalize(totals).variance.x * (totals.count as real - 1.0)
        == totals.sumOfSquares - totals.sum * totals.sum / (totals.count as real)
  {
  }

  /** The squared deviation of one sample v from m. */
  function SquaredDeviation(v: real, m: real): (r: real)
    ensures r >= 0.0
  {
    (v - m) * (v - m)
  }

  /** The sum of the squared deviations of the samples from m. */
  function SquaredDeviations(vs: seq<PixelValue>, m: real): real {
    if vs == [] then 0.0
    else SquaredDeviations(vs[..|vs| - 1], m) + SquaredDeviation(vs[|vs| - 1] as real, m)
  }

  /** The sum of the squared deviations from m of n samples, computed from
      their sum of squares q and their sum s. */
  function MomentExpansion(q: real, s: real, n: real, m: real): real {
    q - 2.0 * m * s + n * m * m
  }

  /** One step of DeviationsExpansion on plain reals: the sample v is added
      to d, q, s and k. */
  lemma ExpansionStep(d: real, q: real, s: real, k: real, v: PixelValue, m: real,
                      d': real, q': real, s': real, k': real)
    requires d == MomentExpansion(q, s, k, m)
    requires d' == d + SquaredDeviation(v as real, m) && q' == q + Square(v)
    requires s' == s + v as real && k' == k + 1.0
    ensures d' == MomentExpansion(q', s', k', m)
  {
  }

  /** The squared deviations from any m follow from the totals. */
  lemma {:induction false} DeviationsExpansion(vs: seq<PixelValue>, m: real)
    ensures SquaredDeviations(vs, m)
         == MomentExpansion(Summarize(vs).sumOfSquares, Summarize(vs).sum, Summarize(vs).count as real, m)
    decreases |vs|
  {
    if vs != [] {
      var front := vs[..|vs| - 1];
      DeviationsExpansion(front, m);
      ExpansionStep(SquaredDeviations(front, m), Summarize(front).sumOfSquares, Summarize(front).sum,
                    Summarize(front).count as real, vs[|vs| - 1], m,
                    SquaredDeviations(vs, m), Summarize(vs).sumOfSquares, Summarize(vs).sum,
                    Summarize(vs).count as real);
    }
  }

  lemma {:induction false} SquaredDeviationsNonNegative(vs: seq<PixelValue>, m: real)
    ensures SquaredDeviations(vs, m) >= 0.0
    decreases |vs|
  {
    if vs != [] {
      SquaredDeviationsNonNegative(vs[..|vs| - 1], m);
    }
  }

  /** About the mean, the expansion is the two-moment numerator, so the
      two-moment variance is the Bessel-corrected expansion; a non-negative
      expansion gives a non-negative variance. On plain reals. */
  lemma MomentIdentity(q: real, s: real, n: real)
    requires n > 1.0
    ensures TwoMomentVariance(q, s, n) == BesselCorrected(MomentExpansion(q, s, n, Mean(s, n)), n)
    ensures MomentExpansion(q, s, n, Mean(s, n)) >= 0.0 ==>
      BesselCorrected(MomentExpansion(q, s, n, Mean(s, n)), n) >= 0.0
  {
    var m := s / n;
    assert Mean(s, n) == m;
    assert m * n == s;
    assert 2.0 * m * s == 2.0 * s * s / n;
    assert n * m * m == s * m;
    assert s * m == s * s / n;
    assert MomentExpansion(q, s, n, m) == q - s * s / n;
    if MomentExpansion(q, s, n, m) >= 0.0 {
      NonNegativeQuotient(MomentExpansion(q, s, n, m), n - 1.0);
    }
  }

  lemma NonNegativeQuotient(a: real, b: real)
    requires a >= 0.0 && b > 0.0
    ensures a / b >= 0.0
  {
  }

  /** The sample variance by its definition: the squared deviations of the
      samples from their mean, divided by count - 1. */
  function SampleVariance(vs: seq<PixelValue>): real
    requires |vs| >= 2
  {
    BesselCorrected(SquaredDeviations(vs, Mean(Summarize(vs).sum, Summarize(vs).count as real)),
                    Summarize(vs).count as real)
  }

  /** The two-moment variance of at least two samples is their sample
      variance, and is never negative. */
  lemma MomentsAsDeviations(vs: seq<PixelValue>)
    requires |vs| >= 2
    ensures TwoMomentVariance(Summarize(vs).sumOfSquares, Summarize(vs).sum, Summarize(vs).count as real)
         == SampleVariance(vs)
    ensures SampleVariance(vs) >= 0.0
  {
    DeviationsExpansion(vs, Mean(Summarize(vs).sum, Summarize(vs).count as real));
    SquaredDeviationsNonNegative(vs, Mean(Summarize(vs).sum, Summarize(vs).count as real));
    MomentIdentity(Summarize(vs).sumOfSquares, Summarize(vs).sum, Summarize(vs).count as real);
  }

  /** The variance computed from the two moments is the sample variance of the
      accepted samples; in particular it is never negative. */
  lemma VarianceIsSampleVariance(vs: seq<PixelValue>)
    requires |vs| >= 2
    ensures Finalize(Summarize(vs)).mean == Value(Mean(Summarize(vs).sum, Summarize(vs).count as real))
    ensures Finalize(Summarize(vs)).variance == Value(SampleVariance(vs))
    ensures Finalize(Summarize(vs)).variance.x >= 0.0
  {
    MomentsAsDeviations(vs);
  }

  /** The sum of n samples that all equal v. */
  function ConstantSum(n: real, v: real): real {
    n * v
  }

  /** One step of SumBounds, on plain reals. */
  lemma BoundsStep(s: real, k: real, v: real, lo: real, hi: real, s': real, k': real)
    requires ConstantSum(k, lo) <= s <= ConstantSum(k, hi) && lo <= v <= hi
    requires s' == s + v && k' == k + 1.0
    ensures ConstantSum(k', lo) <= s' <= ConstantSum(k', hi)
  {
  }

  /** The sum of samples that all lie in [lo, hi] lies between the sums of as
      many samples all at lo and all at hi. */
  lemma {:induction false} SumBounds(vs: seq<PixelValue>, lo: int, hi: int)
    requires forall i :: 0 <= i < |vs| ==> lo <= vs[i] <= hi
    ensures ConstantSum(Summarize(vs).count as real, lo as real) <= Summarize(vs).sum
    ensures Summarize(vs).sum <= ConstantSum(Summarize(vs).count as real, hi as real)
    decreases |vs|
  {
    if vs != [] {
      var front := vs[..|vs| - 1];
      SumBounds(front, lo, hi);
      BoundsStep(Summarize(front).sum, Summarize(front).count as real, vs[|vs| - 1] as real,
                 lo as real, hi as real, Summarize(vs).sum, Summarize(vs).count as real);
    }
  }

  /** The mean of n samples lies between bounds that the sums of n samples at
      lo and at hi put on their sum. */
  lemma MeanBounds(s: real, n: real, lo: real, hi: real)
    requires n > 0.0 && ConstantSum(n, lo) <= s <= ConstantSum(n, hi)
    ensures lo <= Mean(s, n) <= hi
  {
    assert (s / n) * n == s;
  }

  /** The mean of samples that all lie in [lo, hi] lies in [lo, hi]. */
  lemma MeanWithinBounds(vs: seq<PixelValue>, lo: int, hi: int)
    requires vs != []
    requires forall i :: 0 <= i < |vs| ==> lo <= vs[i] <= hi
    ensures lo as real <= Mean(Summarize(vs).sum, Summarize(vs).count as real) <= hi as real
  {
    SumBounds(vs, lo, hi);
    MeanBounds(Summarize(vs).sum, Summarize(vs).count as real, lo as real, hi as real);
  }

  /** The mean Finalize reports for at least one accepted sample lies between
      the minimum and maximum it reports. */
  lemma MeanBetweenExtremes(vs: seq<PixelValue>)
    requires vs != []
    ensures Finalize(Summarize(vs)).mean == Value(Mean(Summarize(vs).sum, Summarize(vs).count as real))
    ensures Finalize(Summarize(vs)).minimum as real <= Finalize(Summarize(vs)).mean.x
         <= Finalize(Summarize(vs)).maximum as real
  {
    ExtremesSpec(vs);
    MeanWithinBounds(vs, MinOf(vs), MaxOf(vs));
  }
}

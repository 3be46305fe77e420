/** The filter object: the totals it keeps between the three phases of a
    pass, its two settings (the mask and the NaN removal flag), and the
    statistics it publishes at the end of a pass. */
module Filter {
  import opened Samples
  import opened Accumulation
  import opened Finalization

  datatype Option<T> = None | Some(value: T)

  class MaskedStatisticsImageFilter {
    var count: nat
    var sum: real
    var sumOfSquares: real
    var min: int
    var max: int
    var mask: Mask
    var removeNA: bool
    /** The published outputs: none until a pass has finished. */
    var statistics: Option<Statistics>

    /** The running totals as one value. */
    function Totals(): Accumulator
      reads this
    {
      Accumulator(count, sum, sumOfSquares, min, max)
    }

    /** The sums and extremes start at 1 (the count is left as it comes), no
        mask is set and NaN removal is off. */
    constructor ()
      ensures sum == 1.0 && sumOfSquares == 1.0 && min == 1 && max == 1
      ensures mask == NoMask && !removeNA && statistics == None
    {
      sum, sumOfSquares, min, max := 1.0, 1.0, 1, 1;
      mask, removeNA := NoMask, false;
      statistics := None;
    }

    method SetMask(m: Mask)
      modifies this`mask
      ensures mask == m
    {
      mask := m;
    }

    method SetRemoveNA(flag: bool)
      modifies this`removeNA
      ensures removeNA == flag
    {
      removeNA := flag;
    }

    /** Reset the totals to the identity of the merge: nothing counted, zero
        sums, the minimum at the largest pixel value and the maximum at the
        smallest. */
    method BeforeThreadedGenerateData()
      modifies this`count, this`sum, this`sumOfSquares, this`min, this`max
      ensures Totals() == Identity()
    {
      count := 0;
      sumOfSquares := 0.0;
      sum := 0.0;
      min := TypeMax;
      max := TypeMin;
    }

    /** Accumulate one region into local totals, then merge them into the
        filter's totals: the counts and sums add, the extremes combine by
        min and max. */
    method DynamicThreadedGenerateData(region: Region)
      requires Defined(region, mask, removeNA)
      modifies this`count, this`sum, this`sumOfSquares, this`min, this`max
      ensures Totals() == Combine(old(Totals()), Summarize(RegionSamples(region, mask, removeNA)))
    {
      var local := AccumulateRegion(region, mask, removeNA);
      sum := sum + local.sum;
      sumOfSquares := sumOfSquares + local.sumOfSquares;
      count := count + local.count;
      min := Min(local.min, min);
      max := Max(local.max, max);
    }

    /** Derive and publish the statistics from the merged totals. */
    method AfterThreadedGenerateData()
      modifies this`statistics
      ensures statistics == Some(Finalize(Totals()))
    {
      statistics := Some(Finalize(Totals()));
    }
  }

  /** One pass of the filter over an image split into regions: a reset, every
      region accumulated and merged, then the statistics derived. Whatever the
      split, the result is that of the accepted samples of the whole image. */
  method RunPass(regions: seq<Region>, mask: Mask, removeNA: bool) returns (stats: Statistics)
    requires forall j :: 0 <= j < |regions| ==> Defined(regions[j], mask, removeNA)
    ensures Defined(Flatten(regions), mask, removeNA)
         && stats == Finalize(Summarize(RegionSamples(Flatten(regions), mask, removeNA)))
  {
    var filter := new MaskedStatisticsImageFilter();
    filter.SetMask(mask);
    filter.SetRemoveNA(removeNA);
    filter.BeforeThreadedGenerateData();
    for j := 0 to |regions|
      invariant filter.mask == mask && filter.removeNA == removeNA
      invariant filter.Totals() == MergeAll(Partials(regions[..j], mask, removeNA))
    {
      assert regions[..j + 1][..j] == regions[..j];
      filter.DynamicThreadedGenerateData(regions[j]);
    }
    filter.AfterThreadedGenerateData();
    stats := filter.statistics.value;
    assert regions[..|regions|] == regions;
    PassIsOneAccumulation(regions, mask, removeNA);
  }
}

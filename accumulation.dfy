/** The running totals of the reduction: the per-region accumulation loop, its
    specification as a summary of the accepted samples, and the merge of one
    region's totals into the filter's. */
module Accumulation {
  import opened Samples

  /** count, sum, sum of squares, minimum and maximum of the samples seen so far.
      Sums are exact reals: the compensated summation of the source is modelled
      as exact addition. */
  datatype Accumulator = Accumulator(count: nat, sum: real, sumOfSquares: real, min: int, max: int)

  /** The totals before any sample: the values the reset and the start of each
      region give them. */
  function Identity(): Accumulator {
    Accumulator(0, 0.0, 0.0, TypeMax, TypeMin)
  }

  /** std::min(a, b) and std::max(a, b): on ties they return the first argument. */
  function Min(a: int, b: int): int { if b < a then b else a }
  function Max(a: int, b: int): int { if a < b then b else a }

  function Sum(vs: seq<PixelValue>): real {
    if vs == [] then 0.0 else Sum(vs[..|vs| - 1]) + vs[|vs| - 1] as real
  }

  function Square(v: PixelValue): real { (v as real) * (v as real) }

  function SumOfSquares(vs: seq<PixelValue>): real {
    if vs == [] then 0.0 else SumOfSquares(vs[..|vs| - 1]) + Square(vs[|vs| - 1])
  }

  /** The smallest sample, or the type maximum when there is none. */
  function MinOf(vs: seq<PixelValue>): (m: int)
    ensures TypeMin <= m <= TypeMax
  {
    if vs == [] then TypeMax else Min(MinOf(vs[..|vs| - 1]), vs[|vs| - 1])
  }

  /** The largest sample, or the type's non-positive minimum when there is none. */
  function MaxOf(vs: seq<PixelValue>): (m: int)
    ensures TypeMin <= m <= TypeMax
  {
    if vs == [] then TypeMin else Max(MaxOf(vs[..|vs| - 1]), vs[|vs| - 1])
  }

  /** The totals a list of accepted samples determines. */
  function Summarize(vs: seq<PixelValue>): Accumulator {
    Accumulator(|vs|, Sum(vs), SumOfSquares(vs), MinOf(vs), MaxOf(vs))
  }

  /** The merge of a region's totals into the filter's (the locked block). */
  function Combine(global: Accumulator, partial: Accumulator): Accumulator {
    Accumulator(global.count + partial.count,
                global.sum + partial.sum,
                global.sumOfSquares + partial.sumOfSquares,
                Min(partial.min, global.min),
                Max(partial.max, global.max))
  }

  /** The running minimum and maximum bound every sample and are attained
      when there is a sample. */
  lemma {:induction false} ExtremesSpec(vs: seq<PixelValue>)
    ensures forall i :: 0 <= i < |vs| ==> MinOf(vs) <= vs[i] <= MaxOf(vs)
    ensures vs != [] ==> MinOf(vs) in vs && MaxOf(vs) in vs
    decreases |vs|
  {
    if vs != [] {
      var front := vs[..|vs| - 1];
      ExtremesSpec(front);
      assert forall i :: 0 <= i < |front| ==> vs[i] == front[i];
      if front != [] {
        assert MinOf(front) in vs && MaxOf(front) in vs;
      }
    }
  }

  /** The extremes of a summary bound every sample and are attained when there
      is a sample; with none they keep their reset values. */
  lemma SummaryExtremes(vs: seq<PixelValue>)
    ensures forall i :: 0 <= i < |vs| ==> Summarize(vs).min <= vs[i] <= Summarize(vs).max
    ensures vs == [] ==> Summarize(vs) == Identity()
    ensures vs != [] ==> Summarize(vs).min <= Summarize(vs).max
    ensures vs != [] ==> Summarize(vs).min in vs && Summarize(vs).max in vs
  {
    ExtremesSpec(vs);
    if vs != [] {
      assert Summarize(vs).min <= vs[0] <= Summarize(vs).max;
    }
  }

  /** The extremes of two runs of samples laid end to end are the min and max
      of the two runs' extremes. */
  lemma {:induction false} ExtremesConcat(xs: seq<PixelValue>, ys: seq<PixelValue>)
    ensures MinOf(xs + ys) == Min(MinOf(ys), MinOf(xs))
    ensures MaxOf(xs + ys) == Max(MaxOf(ys), MaxOf(xs))
    decreases |ys|
  {
    if ys == [] {
      assert xs + ys == xs;
    } else {
      var ys' := ys[..|ys| - 1];
      assert (xs + ys)[..|xs + ys| - 1] == xs + ys';
      assert (xs + ys)[|xs + ys| - 1] == ys[|ys| - 1];
      ExtremesConcat(xs, ys');
    }
  }

  /** One accepted sample: 1 more in the count, the value added to the sum and
      its square to the sum of squares, and the value taken into the minimum
      and maximum. */
  function Add(totals: Accumulator, v: PixelValue): Accumulator {
    Accumulator(totals.count + 1, totals.sum + v as real, totals.sumOfSquares + Square(v),
                Min(totals.min, v), Max(totals.max, v))
  }

  /** Adding one sample to the totals of a run gives the totals of the run
      extended by that sample. */
  lemma SummarizeAppend(vs: seq<PixelValue>, v: PixelValue)
    ensures Summarize(vs + [v]) == Add(Summarize(vs), v)
  {
    assert (vs + [v])[..|vs|] == vs;
  }

  lemma {:induction false} SumConcat(xs: seq<PixelValue>, ys: seq<PixelValue>)
    ensures Sum(xs + ys) == Sum(xs) + Sum(ys)
    ensures SumOfSquares(xs + ys) == SumOfSquares(xs) + SumOfSquares(ys)
    decreases |ys|
  {
    if ys == [] {
      assert xs + ys == xs;
    } else {
      var ys' := ys[..|ys| - 1];
      assert (xs + ys)[..|xs + ys| - 1] == xs + ys';
      assert (xs + ys)[|xs + ys| - 1] == ys[|ys| - 1];
      SumConcat(xs, ys');
    }
  }

  /** Summarizing two runs of samples and merging the totals is summarizing
      the concatenated run. */
  lemma SummarizeConcat(xs: seq<PixelValue>, ys: seq<PixelValue>)
    ensures Summarize(xs + ys) == Combine(Summarize(xs), Summarize(ys))
  {
    SumConcat(xs, ys);
    ExtremesConcat(xs, ys);
  }

  /** Merging is commutative and associative, and the reset state is neutral
      for every total whose extremes lie within the type's range. */
  lemma CombineLaws(a: Accumulator, b: Accumulator, c: Accumulator)
    ensures Combine(a, b) == Combine(b, a)
    ensures Combine(Combine(a, b), c) == Combine(a, Combine(b, c))
    ensures a.min <= TypeMax && a.max >= TypeMin ==>
      Combine(a, Identity()) == a && Combine(Identity(), a) == a
  {
  }

  /** The filter's totals after a reset and the merge of each partial in turn. */
  function MergeAll(partials: seq<Accumulator>): (r: Accumulator)
    ensures r.min <= TypeMax && r.max >= TypeMin
  {
    if partials == [] then Identity()
    else Combine(MergeAll(partials[..|partials| - 1]), partials[|partials| - 1])
  }

  /** The merged count is 0 exactly when every merged count is 0. */
  lemma {:induction false} MergeAllCount(partials: seq<Accumulator>)
    ensures MergeAll(partials).count == 0 <==> forall j :: 0 <= j < |partials| ==> partials[j].count == 0
    decreases |partials|
  {
    if partials != [] {
      var front := partials[..|partials| - 1];
      MergeAllCount(front);
      assert forall j :: 0 <= j < |front| ==> front[j] == partials[j];
    }
  }

  lemma {:induction false} MergeAllConcat(ps: seq<Accumulator>, qs: seq<Accumulator>)
    ensures MergeAll(ps + qs) == Combine(MergeAll(ps), MergeAll(qs))
    decreases |qs|
  {
    if qs == [] {
      assert ps + qs == ps;
      CombineLaws(MergeAll(ps), Identity(), Identity());
    } else {
      var qs' := qs[..|qs| - 1];
      var q := qs[|qs| - 1];
      assert (ps + qs)[..|ps + qs| - 1] == ps + qs';
      assert (ps + qs)[|ps + qs| - 1] == q;
      MergeAllConcat(ps, qs');
      CombineLaws(MergeAll(ps), MergeAll(qs'), q);
    }
  }

  /** A partial merged anywhere in the sequence has the same effect as one
      merged last. */
  lemma MergeAllExtract(left: seq<Accumulator>, x: Accumulator, right: seq<Accumulator>)
    ensures MergeAll(left + [x] + right) == Combine(MergeAll(left + right), x)
  {
    MergeAllConcat(left + [x], right);
    MergeAllConcat(left, right);
    assert (left + [x])[..|left + [x]| - 1] == left;
    CombineLaws(MergeAll(left), x, MergeAll(right));
    CombineLaws(MergeAll(left), MergeAll(right), x);
  }

  /** The order in which regions are merged does not change the totals. */
  lemma {:induction false} MergeOrderIrrelevant(ps: seq<Accumulator>, qs: seq<Accumulator>)
    requires multiset(ps) == multiset(qs)
    ensures MergeAll(ps) == MergeAll(qs)
    decreases |ps|
  {
    if ps == [] {
      assert |qs| == |multiset(qs)| == 0;
    } else {
      var x := ps[|ps| - 1];
      var front := ps[..|ps| - 1];
      assert ps == front + [x];
      assert x in multiset(qs);
      var j :| 0 <= j < |qs| && qs[j] == x;
      var left, right := qs[..j], qs[j + 1..];
      assert qs == left + [x] + right;
      assert multiset(front) == multiset(left + right) by {
        assert multiset(front) == multiset(ps) - multiset{x};
        assert multiset(left + right) == multiset(qs) - multiset{x};
      }
      MergeOrderIrrelevant(front, left + right);
      MergeAllExtract(left, x, right);
    }
  }

  /** The loop of DynamicThreadedGenerateData: scan the region in order and
      read the mask once per location; the components of a location the mask
      accepts go through the NaN gate into the local totals. */
  method AccumulateRegion(region: Region, mask: Mask, removeNA: bool) returns (local: Accumulator)
    requires Defined(region, mask, removeNA)
    ensures local == Summarize(RegionSamples(region, mask, removeNA))
  {
    local := Identity();
    for k := 0 to |region|
      invariant Defined(region[..k], mask, removeNA)
      invariant local == Summarize(RegionSamples(region[..k], mask, removeNA))
    {
      RegionSamplesStep(region, mask, removeNA, k);
      ghost var before := RegionSamples(region[..k], mask, removeNA);
      ghost var contribution := PixelSamples(region[k], mask, removeNA);
      var index, pixel := region[k].0, region[k].1;
      if mask.NoMask? || mask.valueAt(index) == 1 {
        assert contribution == ComponentSamples(pixel, removeNA);
        local := AccumulatePixel(local, before, pixel, removeNA);
      } else {
        assert before + contribution == before;
      }
    }
    assert region[..|region|] == region;
  }

  /** Reading component i of a pixel: an accepted component is added to the
      totals of the samples read so far, a skipped NaN leaves them as they are. */
  lemma ComponentStep(seen: seq<PixelValue>, pixel: Pixel, removeNA: bool, i: nat, totals: Accumulator)
    requires (removeNA || NoNaN(pixel)) && i < |pixel|
    requires totals == Summarize(seen + ComponentSamples(pixel[..i], removeNA))
    ensures removeNA || NoNaN(pixel[..i + 1])
    ensures !removeNA || pixel[i].Num? ==>
      Add(totals, pixel[i].v) == Summarize(seen + ComponentSamples(pixel[..i + 1], removeNA))
    ensures removeNA && pixel[i].NaN? ==>
      totals == Summarize(seen + ComponentSamples(pixel[..i + 1], removeNA))
  {
    ComponentSamplesStep(pixel, removeNA, i);
    assert removeNA || NoNaN(pixel[..i + 1]) by {
      if !removeNA {
        assert forall j :: 0 <= j < i + 1 ==> pixel[..i + 1][j] == pixel[j];
      }
    }
    if !removeNA || pixel[i].Num? {
      assert seen + ComponentSamples(pixel[..i + 1], removeNA)
          == seen + ComponentSamples(pixel[..i], removeNA) + [pixel[i].v];
      SummarizeAppend(seen + ComponentSamples(pixel[..i], removeNA), pixel[i].v);
    } else {
      assert seen + ComponentSamples(pixel[..i + 1], removeNA)
          == seen + ComponentSamples(pixel[..i], removeNA);
    }
  }

  /** The inner loop over the components of one accepted pixel: with NaN
      removal on, a NaN component is skipped; every other component adds 1 to
      the count, its value to the sum and its square to the sum of squares,
      and takes part in the minimum and maximum. */
  method AccumulatePixel(local: Accumulator, ghost seen: seq<PixelValue>, pixel: Pixel, removeNA: bool)
      returns (updated: Accumulator)
    requires removeNA || NoNaN(pixel)
    requires local == Summarize(seen)
    ensures updated == Summarize(seen + ComponentSamples(pixel, removeNA))
  {
    var count, sum, sumOfSquares, min, max := local.count, local.sum, local.sumOfSquares, local.min, local.max;
    assert seen + ComponentSamples(pixel[..0], removeNA) == seen;
    for i := 0 to |pixel|
      invariant Accumulator(count, sum, sumOfSquares, min, max)
             == Summarize(seen + ComponentSamples(pixel[..i], removeNA))
    {
      ComponentStep(seen, pixel, removeNA, i, Accumulator(count, sum, sumOfSquares, min, max));
      var component := pixel[i];
      if !removeNA || component.Num? {
        var value := component.v;
        min := Min(min, value);
        max := Max(max, value);
        sum := sum + value as real;
        sumOfSquares := sumOfSquares + Square(value);
        count := count + 1;
      }
    }
    assert pixel[..|pixel|] == pixel;
    updated := Accumulator(count, sum, sumOfSquares, min, max);
  }

  /** The regions of one pass laid end to end. */
  function Flatten(regions: seq<Region>): Region {
    if regions == [] then [] else Flatten(regions[..|regions| - 1]) + regions[|regions| - 1]
  }

  /** The totals each region of a pass yields on its own. */
  function Partials(regions: seq<Region>, mask: Mask, removeNA: bool): (ps: seq<Accumulator>)
    requires forall j :: 0 <= j < |regions| ==> Defined(regions[j], mask, removeNA)
  {
    if regions == [] then []
    else Partials(regions[..|regions| - 1], mask, removeNA)
         + [Summarize(RegionSamples(regions[|regions| - 1], mask, removeNA))]
  }

  /** A reset followed by the merge of every region's totals gives the totals
      of a single accumulation over all the regions together. */
  lemma {:induction false} PassIsOneAccumulation(regions: seq<Region>, mask: Mask, removeNA: bool)
    requires forall j :: 0 <= j < |regions| ==> Defined(regions[j], mask, removeNA)
    ensures Defined(Flatten(regions), mask, removeNA)
    ensures MergeAll(Partials(regions, mask, removeNA))
         == Summarize(RegionSamples(Flatten(regions), mask, removeNA))
    decreases |regions|
  {
    if regions != [] {
      var front := regions[..|regions| - 1];
      var last := regions[|regions| - 1];
      PassIsOneAccumulation(front, mask, removeNA);
      var ps := Partials(regions, mask, removeNA);
      assert ps[..|ps| - 1] == Partials(front, mask, removeNA);
      RegionSamplesConcat(Flatten(front), last, mask, removeNA);
      SummarizeConcat(RegionSamples(Flatten(front), mask, removeNA), RegionSamples(last, mask, removeNA));
    }
  }
}

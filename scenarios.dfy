/** Worked passes over small one-dimensional images. */
module Scenarios {
  import opened Samples
  import opened Accumulation
  import opened Finalization

  /** Four scalar pixels with values 1, 2, 3 and 4 at indices 0 to 3. */
  function Ramp(): Region {
    [([0], [Num(1)]), ([1], [Num(2)]), ([2], [Num(3)]), ([3], [Num(4)])]
  }

  /** A mask image that is 1 at even indices and 0 elsewhere. */
  function EvenIndices(): Mask {
    WithMask(index => if index == [0] || index == [2] then 1 else 0)
  }

  /** The samples of the ramp under a mask are those of its four locations in order. */
  lemma RampByLocation(mask: Mask)
    ensures Defined(Ramp(), mask, false)
    ensures RegionSamples(Ramp(), mask, false)
         == PixelSamples(Ramp()[0], mask, false) + PixelSamples(Ramp()[1], mask, false)
            + PixelSamples(Ramp()[2], mask, false) + PixelSamples(Ramp()[3], mask, false)
  {
    var r := Ramp();
    RegionSamplesAppend([], r[0], mask, false);
    assert [] + [r[0]] == r[..1];
    RegionSamplesAppend(r[..1], r[1], mask, false);
    assert r[..1] + [r[1]] == r[..2];
    RegionSamplesAppend(r[..2], r[2], mask, false);
    assert r[..2] + [r[2]] == r[..3];
    RegionSamplesAppend(r[..3], r[3], mask, false);
    assert r[..3] + [r[3]] == r;
  }

  lemma UnmaskedRampSamples()
    ensures Defined(Ramp(), NoMask, false)
    ensures RegionSamples(Ramp(), NoMask, false) == [1, 2, 3, 4]
  {
    RampByLocation(NoMask);
    assert [Num(1)][..0] == [] && [Num(2)][..0] == [] && [Num(3)][..0] == [] && [Num(4)][..0] == [];
  }

  lemma MaskedRampSamples()
    ensures Defined(Ramp(), EvenIndices(), false)
    ensures RegionSamples(Ramp(), EvenIndices(), false) == [1, 3]
  {
    RampByLocation(EvenIndices());
    assert [Num(1)][..0] == [] && [Num(3)][..0] == [];
  }

  lemma SummaryOfRampValues()
    ensures Summarize([1, 2, 3, 4]) == Accumulator(4, 10.0, 30.0, 1, 4)
  {
    var vs: seq<PixelValue> := [1, 2, 3, 4];
    assert vs[..3] == [1, 2, 3] && [1, 2, 3][..2] == [1, 2] && [1, 2][..1] == [1];
    SummarizeAppend([], 1);
    SummarizeAppend([1], 2);
    SummarizeAppend([1, 2], 3);
    SummarizeAppend([1, 2, 3], 4);
  }

  lemma SummaryOfOneAndThree()
    ensures Summarize([1, 3]) == Accumulator(2, 4.0, 10.0, 1, 3)
  {
    SummarizeAppend([], 1);
    SummarizeAppend([1], 3);
  }

  /** Without a mask every pixel counts: count 4, sum 10, sum of squares 30,
      minimum 1, maximum 4, mean 5/2 and variance 5/3. */
  lemma UnmaskedRamp()
    ensures Defined(Ramp(), NoMask, false)
    ensures Finalize(Summarize(RegionSamples(Ramp(), NoMask, false)))
         == Statistics(4, 1, 4, Value(5.0 / 2.0), Value(5.0 / 3.0), 10.0, 30.0)
  {
    UnmaskedRampSamples();
    SummaryOfRampValues();
  }

  /** The even-index mask keeps the values 1 and 3: count 2, sum 4, mean 2
      and variance 2. */
  lemma MaskedRamp()
    ensures Defined(Ramp(), EvenIndices(), false)
    ensures Finalize(Summarize(RegionSamples(Ramp(), EvenIndices(), false)))
         == Statistics(2, 1, 3, Value(2.0), Value(2.0), 4.0, 10.0)
  {
    MaskedRampSamples();
    SummaryOfOneAndThree();
  }

  /** With NaN removal on, the NaN component of the pixel (1, NaN, 3) is
      skipped: count 2, sum 4, mean 2. */
  lemma NaNComponentRemoved()
    ensures Defined([([0], [Num(1), NaN, Num(3)])], NoMask, true)
    ensures Finalize(Summarize(RegionSamples([([0], [Num(1), NaN, Num(3)])], NoMask, true)))
         == Statistics(2, 1, 3, Value(2.0), Value(2.0), 4.0, 10.0)
  {
    var p: Pixel := [Num(1), NaN, Num(3)];
    var r: Region := [([0], p)];
    assert r[..0] == [] && r[..1] == r;
    RegionSamplesStep(r, NoMask, true, 0);
    assert p[..0] == [] && p[..1] == [Num(1)] && p[..2] == [Num(1), NaN] && p[..3] == p;
    ComponentSamplesStep(p, true, 0);
    ComponentSamplesStep(p, true, 1);
    ComponentSamplesStep(p, true, 2);
    assert RegionSamples(r, NoMask, true) == [1, 3];
    SummaryOfOneAndThree();
  }

  /** A mask that is 0 everywhere leaves the totals at their reset values: no
      count, the minimum at the largest pixel value, the maximum at the
      smallest, and a non-finite mean and variance. */
  lemma EverythingMaskedOut()
    ensures Defined(Ramp(), WithMask(index => 0), false)
    ensures Finalize(Summarize(RegionSamples(Ramp(), WithMask(index => 0), false)))
         == Statistics(0, TypeMax, TypeMin, NonFinite, NonFinite, 0.0, 0.0)
  {
    RejectingMaskYieldsNothing(Ramp(), index => 0, false);
  }
}

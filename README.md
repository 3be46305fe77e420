# Masked statistics reduction

This project models the reduction at the core of ITK's
`MaskedStatisticsImageFilter`. The filter computes statistics of an image:
the count, minimum, maximum, sum, sum of squares, mean and variance. It
counts only the pixels at which an optional mask image holds exactly 1, and
it can skip NaN components. A pass has three phases:

- `BeforeThreadedGenerateData` resets the filter's totals.
- `DynamicThreadedGenerateData` runs once per region of the image. It scans
  the region in order and reads the mask once per location. Every component
  of an accepted pixel then goes through the NaN gate into local totals. At
  the end, the local totals are merged into the filter's totals under a lock.
- `AfterThreadedGenerateData` derives the mean and the Bessel-corrected
  variance from the merged totals.

The modules are:

- `Samples` defines pixels, regions and the mask, and the gate: the
  sequence of sample values a region contributes (`RegionSamples`). It also
  holds the lemmas about the mask and NaN gates.
- `Accumulation` defines the totals record (`Accumulator`) and its
  specification `Summarize`, the totals of a list of samples. It holds the
  merge `Combine`, the two loops of `DynamicThreadedGenerateData` as methods
  proved against `Summarize`, and the laws of the merge.
- `Finalization` defines `Finalize`, the outputs derived from the totals. It
  proves that the two-moment variance is the sample variance and that the
  mean lies between the extremes.
- `Filter` is the filter object as a class with the source's member fields.
  It also holds `RunPass`, a whole pass over an image split into regions.
- `Scenarios` holds worked examples over small images.

## Model

| member | source | states |
|---|---|---|
| Filter.MaskedStatisticsImageFilter.constructor | src/itkMaskedStatisticsImageFilter.hxx:28-36 | the sum, sum of squares, minimum and maximum start at 1; no mask is set and NaN removal is off; the count is left unspecified |
| Filter.MaskedStatisticsImageFilter.BeforeThreadedGenerateData | src/itkMaskedStatisticsImageFilter.hxx:249-258 | the totals become the identity of the merge: count 0, zero sums, minimum at the type maximum, maximum at the type's non-positive minimum |
| Filter.MaskedStatisticsImageFilter.DynamicThreadedGenerateData | src/itkMaskedStatisticsImageFilter.hxx:289-338 | the new totals are the old totals merged with the summary of the region's accepted samples |
| Filter.MaskedStatisticsImageFilter.AfterThreadedGenerateData | src/itkMaskedStatisticsImageFilter.hxx:263-284 | the published statistics are those `Finalize` derives from the current totals |
| Filter.RunPass | src/itkMaskedStatisticsImageFilter.hxx:249-338 | a reset, then every region accumulated and merged, then finalization, gives the statistics of one accumulation over the whole image, whatever the split into regions |
| Accumulation.AccumulateRegion | src/itkMaskedStatisticsImageFilter.hxx:292-330 | the local totals of a region, starting from the identity, are the summary of exactly the samples the mask and NaN gates accept, in scan order |
| Accumulation.AccumulatePixel | src/itkMaskedStatisticsImageFilter.hxx:309-324 | the component loop of one accepted pixel appends that pixel's non-skipped component values to the samples its totals summarise |
| Accumulation.ComponentStep | src/itkMaskedStatisticsImageFilter.hxx:313-323 | reading one component either adds it to the totals of the samples read so far or, for a NaN that NaN removal skips, leaves them as they are |
| Accumulation.ExtremesSpec | src/itkMaskedStatisticsImageFilter.hxx:317-318 | the running minimum bounds every sample from below and the running maximum from above, and both are among the samples when there is one |
| Accumulation.ExtremesConcat | src/itkMaskedStatisticsImageFilter.hxx:333-337 | the extremes of two runs of samples laid end to end are the min of the two minima and the max of the two maxima |
| Accumulation.SummaryExtremes | src/itkMaskedStatisticsImageFilter.hxx:295-296 | the minimum and maximum of a summary bound every sample and are attained when count > 0; with no sample the summary is the identity |
| Accumulation.SummarizeAppend | src/itkMaskedStatisticsImageFilter.hxx:317-322 | one accepted sample adds 1 to the count, itself to the sum and its square to the sum of squares, and takes part in min and max |
| Accumulation.SumConcat | src/itkMaskedStatisticsImageFilter.hxx:320 | the sum over two runs of samples is the sum of their sums |
| Accumulation.SummarizeConcat | src/itkMaskedStatisticsImageFilter.hxx:333-337 | merging the summaries of two runs of samples gives the summary of the runs laid end to end |
| Accumulation.CombineLaws | src/itkMaskedStatisticsImageFilter.hxx:333-337 | the merge is commutative and associative, and the reset state is neutral for totals whose extremes lie within the type's range |
| Accumulation.MergeAllCount | src/itkMaskedStatisticsImageFilter.hxx:249-337 | after a reset and any merges the count is 0 exactly when every merged count was 0 |
| Accumulation.MergeAllConcat | src/itkMaskedStatisticsImageFilter.hxx:333-337 | merging two batches of regions one after the other is the merge of the two batches' totals |
| Accumulation.MergeAllExtract | src/itkMaskedStatisticsImageFilter.hxx:332-337 | a region's totals merged at any position have the same effect as the same totals merged last |
| Accumulation.MergeOrderIrrelevant | src/itkMaskedStatisticsImageFilter.hxx:332-337 | the order in which the threads' totals are merged does not change the result |
| Accumulation.PassIsOneAccumulation | src/itkMaskedStatisticsImageFilter.hxx:249-338 | a reset followed by the merge of every region's totals equals the summary of the samples of all regions concatenated |
| Samples.ComponentSamplesSpec | src/itkMaskedStatisticsImageFilter.hxx:310-315 | without NaN removal every component is a sample, in order; with it, the samples are exactly the values of the non-NaN components |
| Samples.ComponentMembership | src/itkMaskedStatisticsImageFilter.hxx:310-315 | a value is a sample of a pixel exactly when the pixel has a component with that value |
| Samples.RegionSamplesStep | src/itkMaskedStatisticsImageFilter.hxx:303-330 | scanning one more location appends exactly that location's samples |
| Samples.RegionSamplesAppend | src/itkMaskedStatisticsImageFilter.hxx:303-330 | scanning one more location after a run appends that location's samples to the run's samples |
| Samples.ComponentSamplesStep | src/itkMaskedStatisticsImageFilter.hxx:310-323 | reading one more component appends its value unless it is a NaN that NaN removal skips |
| Samples.RegionSamplesConcat | src/itkMaskedStatisticsImageFilter.hxx:303-330 | the samples of two regions scanned one after the other are the two regions' samples concatenated |
| Samples.OneLocationContribution | src/itkMaskedStatisticsImageFilter.hxx:307-325 | the mask is read once per location: a rejected location contributes nothing whatever its pixel holds, and an accepted one contributes all its components' samples |
| Samples.RejectingMaskYieldsNothing | src/itkMaskedStatisticsImageFilter.hxx:307 | a mask that never holds 1 accepts no sample, so the count stays 0 |
| Samples.AcceptingMaskIsNoMask | src/itkMaskedStatisticsImageFilter.hxx:307 | a mask that holds 1 everywhere accepts exactly what no mask accepts |
| Samples.RemoveNAWithoutNaN | src/itkMaskedStatisticsImageFilter.hxx:315 | turning NaN removal on changes nothing when no accepted pixel holds a NaN |
| Samples.ComponentsWithoutNaN | src/itkMaskedStatisticsImageFilter.hxx:315 | for a pixel without NaN the NaN gate lets every component through whatever the setting |
| Samples.ComponentSamplesConcat | src/itkMaskedStatisticsImageFilter.hxx:310-323 | the component samples of two runs of components are the two runs' samples concatenated |
| Samples.NaNComponentSkipped | src/itkMaskedStatisticsImageFilter.hxx:315 | with NaN removal on, a pixel yields the same samples as the pixel with a NaN component taken out |
| Samples.RegionSampleMembership | src/itkMaskedStatisticsImageFilter.hxx:307-323 | a value is a sample exactly when it is a non-NaN component of a pixel at a location the mask accepts |
| Finalization.Finalize | src/itkMaskedStatisticsImageFilter.hxx:263-284 | the count, extremes, sum and sum of squares pass through; the mean is finite exactly when count > 0, the variance exactly when count > 1 |
| Finalization.FinalizeMoments | src/itkMaskedStatisticsImageFilter.hxx:271-273 | the mean times the count is the sum, and the variance times count - 1 is the sum of squares minus the squared sum over the count |
| Finalization.DeviationsExpansion | src/itkMaskedStatisticsImageFilter.hxx:272-273 | the squared deviations from any m expand to the sum of squares - 2 m times the sum + n m^2 |
| Finalization.SquaredDeviationsNonNegative | src/itkMaskedStatisticsImageFilter.hxx:272-273 | a sum of squared deviations is never negative |
| Finalization.MomentIdentity | src/itkMaskedStatisticsImageFilter.hxx:272-273 | with m the mean, the expanded squared deviations equal the two-moment numerator, and the quotient by n - 1 is non-negative |
| Finalization.MomentsAsDeviations | src/itkMaskedStatisticsImageFilter.hxx:272-273 | the two-moment variance of at least two samples is their squared deviations from the mean over count - 1, and is non-negative |
| Finalization.VarianceIsSampleVariance | src/itkMaskedStatisticsImageFilter.hxx:271-273 | for at least two accepted samples, the finalized mean is sum / count and the variance is the non-negative sample variance |
| Finalization.SumBounds | src/itkMaskedStatisticsImageFilter.hxx:320 | a sum of n samples in [lo, hi] lies in [n lo, n hi] |
| Finalization.MeanWithinBounds | src/itkMaskedStatisticsImageFilter.hxx:271 | the mean of samples in [lo, hi] lies in [lo, hi] |
| Finalization.MeanBetweenExtremes | src/itkMaskedStatisticsImageFilter.hxx:267-271 | for at least one accepted sample, the finalized mean lies between the finalized minimum and maximum |
| Scenarios.UnmaskedRamp | src/itkMaskedStatisticsImageFilter.hxx:263-338 | with no mask, the values 1, 2, 3, 4 give count 4, min 1, max 4, sum 10, sum of squares 30, mean 5/2 and variance 5/3 |
| Scenarios.MaskedRamp | src/itkMaskedStatisticsImageFilter.hxx:307 | the mask 1, 0, 1, 0 over the values 1, 2, 3, 4 gives count 2, min 1, max 3, sum 4, mean 2 and variance 2 |
| Scenarios.NaNComponentRemoved | src/itkMaskedStatisticsImageFilter.hxx:315 | with NaN removal on, the pixel (1, NaN, 3) gives count 2, sum 4 and mean 2 |
| Scenarios.EverythingMaskedOut | src/itkMaskedStatisticsImageFilter.hxx:307 | a mask of zeros leaves count 0, the extremes at their reset values, and a non-finite mean and variance |

## Left out

- Output plumbing is not modelled. This covers the output decorator objects, `MakeOutput`, the getters, the requested-region negotiation, `AllocateOutputs`/`GraftOutput` and `PrintSelf` (lines 37-244 and 340-357). The published statistics are held in one field that is empty until a pass finishes.
- The constructor's initial output values are not modelled: minimum at the type maximum, maximum at the non-positive minimum, mean, sigma and variance at the largest double, sum and sum of squares at 0 (lines 57-63).
- The standard deviation `sigma = sqrt(variance)` (line 274) is not modelled, because Dafny's reals have no square root. The variance it is derived from is modelled.
- Threads and the mutex (line 332) are not modelled. Each region is accumulated and merged as one step. Any interleaving of the threads' merges is covered by `MergeOrderIrrelevant`.
- The compensated summation (lines 292-293) and all floating-point rounding are not modelled. Sums are exact reals, so the model states what the compensated sums approximate.
- Finalization.Finalize: a division by a zero count gives a single `NonFinite` value. The model does not tell NaN (0/0, and 0/0 for the variance of one sample) from infinity.
- Samples.Defined: a NaN in a pixel the mask accepts is excluded by a precondition when NaN removal is off. In the source such a NaN turns the sum and the sum of squares into NaN, and std::min/std::max, whose comparisons with NaN are false, leave the extremes as they were. The model has no value for a NaN sum.
- The pixel value type is fixed at a signed 16-bit integer: `TypeMax` and `TypeMin` stand for `NumericTraits<PixelValueType>::max()` and `NonpositiveMin()`. Floating-point pixel types appear only through the `NaN` component.
- The count is an unbounded natural. The source's `SizeValueType` is 64 bits wide and never wraps for an image that fits in memory.
- Scanline iteration is modelled as one scan-order sequence of (index, pixel) pairs per region. The split into lines does not change the order.
- The mask is modelled as a function from index to value. The mask image's own buffer and region are not part of this model.
- The setters `SetMask` and `SetRemoveNA` are modelled as plain field updates. The header that declares them is not part of this model.

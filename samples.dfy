/** The inputs of one reduction pass and the sample predicate: which scalar
    components of which pixels of a region reach the accumulator. */
module Samples {

  /** Stand-ins for NumericTraits<PixelValueType>::max() and ::NonpositiveMin()
      (here: a signed 16-bit pixel value type). */
  const TypeMax: int := 32767
  const TypeMin: int := -32768

  /** A scalar value of the pixel value type. */
  type PixelValue = v: int | TypeMin <= v <= TypeMax

  /** One scalar component of a pixel; NaN is the value that is not equal to itself. */
  datatype Component = Num(v: PixelValue) | NaN

  /** A pixel holds one or more components. */
  type Pixel = seq<Component>

  /** An n-dimensional image index. */
  type Index = seq<int>

  /** A region in scan order: each location with the pixel stored there. */
  type Region = seq<(Index, Pixel)>

  /** The optional mask image, read at an index. */
  datatype Mask = NoMask | WithMask(valueAt: Index -> int)

  /** The per-pixel mask gate: no mask, or the mask value at the index is exactly 1. */
  predicate Passes(mask: Mask, index: Index) {
    mask.NoMask? || mask.valueAt(index) == 1
  }

  predicate NoNaN(pixel: Pixel) {
    forall i :: 0 <= i < |pixel| ==> pixel[i].Num?
  }

  /** A pixel that passes the mask holds no NaN unless NaNs are removed: the
      model gives no value to a NaN that is folded into the sums. */
  predicate PixelDefined(location: (Index, Pixel), mask: Mask, removeNA: bool) {
    removeNA || !Passes(mask, location.0) || NoNaN(location.1)
  }

  predicate Defined(region: Region, mask: Mask, removeNA: bool) {
    forall k :: 0 <= k < |region| ==> PixelDefined(region[k], mask, removeNA)
  }

  /** The values of the components of one pixel that pass the NaN gate, in order. */
  function ComponentSamples(pixel: Pixel, removeNA: bool): (r: seq<PixelValue>)
    requires removeNA || NoNaN(pixel)
  {
    if pixel == [] then []
    else
      var last := pixel[|pixel| - 1];
      var front := ComponentSamples(pixel[..|pixel| - 1], removeNA);
      if last.NaN? then front else front + [last.v]
  }

  /** Without NaN removal every component is a sample, in order; with it, the
      samples are exactly the values of the non-NaN components. */
  lemma {:induction false} ComponentSamplesSpec(pixel: Pixel, removeNA: bool)
    requires removeNA || NoNaN(pixel)
    ensures !removeNA ==> |ComponentSamples(pixel, removeNA)| == |pixel|
    ensures !removeNA ==>
      forall i :: 0 <= i < |pixel| ==> pixel[i] == Num(ComponentSamples(pixel, removeNA)[i])
    ensures removeNA ==> forall v :: v in ComponentSamples(pixel, removeNA) <==> Num(v) in pixel
    decreases |pixel|
  {
    if pixel != [] {
      var front := pixel[..|pixel| - 1];
      ComponentSamplesSpec(front, removeNA);
      assert pixel == front + [pixel[|pixel| - 1]];
    }
  }

  /** The samples one location contributes: the mask is read once, and all
      components of the pixel share its decision. */
  function PixelSamples(location: (Index, Pixel), mask: Mask, removeNA: bool): seq<PixelValue>
    requires PixelDefined(location, mask, removeNA)
  {
    if Passes(mask, location.0) then ComponentSamples(location.1, removeNA) else []
  }

  /** The samples of a whole region, in scan order. */
  function RegionSamples(region: Region, mask: Mask, removeNA: bool): seq<PixelValue>
    requires Defined(region, mask, removeNA)
  {
    if region == [] then []
    else
      RegionSamples(region[..|region| - 1], mask, removeNA)
      + PixelSamples(region[|region| - 1], mask, removeNA)
  }

  /** Scanning one more location of a region appends that location's samples. */
  lemma RegionSamplesStep(region: Region, mask: Mask, removeNA: bool, k: nat)
    requires Defined(region, mask, removeNA) && k < |region|
    ensures Defined(region[..k], mask, removeNA) && Defined(region[..k + 1], mask, removeNA)
    ensures PixelDefined(region[k], mask, removeNA)
    ensures RegionSamples(region[..k + 1], mask, removeNA)
         == RegionSamples(region[..k], mask, removeNA) + PixelSamples(region[k], mask, removeNA)
  {
    assert region[..k + 1][..k] == region[..k];
  }

  /** Scanning one more location after a run appends that location's samples. */
  lemma RegionSamplesAppend(front: Region, location: (Index, Pixel), mask: Mask, removeNA: bool)
    requires Defined(front, mask, removeNA) && PixelDefined(location, mask, removeNA)
    ensures Defined(front + [location], mask, removeNA)
    ensures RegionSamples(front + [location], mask, removeNA)
         == RegionSamples(front, mask, removeNA) + PixelSamples(location, mask, removeNA)
  {
    assert (front + [location])[..|front|] == front;
  }

  /** Reading one more component of a pixel appends its value unless it is a NaN. */
  lemma ComponentSamplesStep(pixel: Pixel, removeNA: bool, i: nat)
    requires (removeNA || NoNaN(pixel)) && i < |pixel|
    ensures removeNA || NoNaN(pixel[..i])
    ensures ComponentSamples(pixel[..i + 1], removeNA)
         == ComponentSamples(pixel[..i], removeNA) + (if pixel[i].NaN? then [] else [pixel[i].v])
  {
    assert pixel[..i + 1][..i] == pixel[..i];
  }

  lemma {:induction false} RegionSamplesConcat(a: Region, b: Region, mask: Mask, removeNA: bool)
    requires Defined(a, mask, removeNA) && Defined(b, mask, removeNA)
    ensures Defined(a + b, mask, removeNA)
    ensures RegionSamples(a + b, mask, removeNA)
         == RegionSamples(a, mask, removeNA) + RegionSamples(b, mask, removeNA)
    decreases |b|
  {
    assert Defined(a + b, mask, removeNA) by {
      forall k | 0 <= k < |a + b| ensures PixelDefined((a + b)[k], mask, removeNA) {
        if k < |a| { assert (a + b)[k] == a[k]; } else { assert (a + b)[k] == b[k - |a|]; }
      }
    }
    if b == [] {
      assert a + b == a;
    } else {
      var b' := b[..|b| - 1];
      assert (a + b)[..|a + b| - 1] == a + b';
      assert (a + b)[|a + b| - 1] == b[|b| - 1];
      assert Defined(b', mask, removeNA) by {
        forall k | 0 <= k < |b'| ensures PixelDefined(b'[k], mask, removeNA) {
          assert b'[k] == b[k];
        }
      }
      RegionSamplesConcat(a, b', mask, removeNA);
    }
  }

  /** A location the mask rejects contributes nothing, whatever its pixel
      holds; a location it accepts contributes its components' samples. */
  lemma OneLocationContribution(before: Region, location: (Index, Pixel), after: Region,
                                mask: Mask, removeNA: bool)
    requires Defined(before, mask, removeNA) && Defined(after, mask, removeNA)
    requires PixelDefined(location, mask, removeNA)
    ensures Defined(before + [location] + after, mask, removeNA)
    ensures !Passes(mask, location.0) ==>
      RegionSamples(before + [location] + after, mask, removeNA)
        == RegionSamples(before + after, mask, removeNA)
    ensures Passes(mask, location.0) ==>
      RegionSamples(before + [location] + after, mask, removeNA)
        == RegionSamples(before, mask, removeNA) + ComponentSamples(location.1, removeNA)
           + RegionSamples(after, mask, removeNA)
  {
    assert RegionSamples([location], mask, removeNA) == PixelSamples(location, mask, removeNA) by {
      assert [location][..0] == [];
    }
    RegionSamplesConcat(before, [location], mask, removeNA);
    RegionSamplesConcat(before + [location], after, mask, removeNA);
    RegionSamplesConcat(before, after, mask, removeNA);
    ghost var b, a := RegionSamples(before, mask, removeNA), RegionSamples(after, mask, removeNA);
    if !Passes(mask, location.0) {
      assert b + [] == b;
    }
  }

  /** With a mask that never reads 1, no sample is accepted. */
  lemma {:induction false} RejectingMaskYieldsNothing(region: Region, valueAt: Index -> int, removeNA: bool)
    requires forall index :: valueAt(index) != 1
    ensures Defined(region, WithMask(valueAt), removeNA)
    ensures RegionSamples(region, WithMask(valueAt), removeNA) == []
    decreases |region|
  {
    if region != [] {
      RejectingMaskYieldsNothing(region[..|region| - 1], valueAt, removeNA);
    }
  }

  /** A mask that reads 1 everywhere accepts exactly what no mask accepts. */
  lemma {:induction false} AcceptingMaskIsNoMask(region: Region, valueAt: Index -> int, removeNA: bool)
    requires forall index :: valueAt(index) == 1
    requires Defined(region, NoMask, removeNA)
    ensures Defined(region, WithMask(valueAt), removeNA)
    ensures RegionSamples(region, WithMask(valueAt), removeNA) == RegionSamples(region, NoMask, removeNA)
    decreases |region|
  {
    if region != [] {
      var front := region[..|region| - 1];
      assert Defined(front, NoMask, removeNA) by {
        forall k | 0 <= k < |front| ensures PixelDefined(front[k], NoMask, removeNA) {
          assert front[k] == region[k];
        }
      }
      AcceptingMaskIsNoMask(front, valueAt, removeNA);
    }
  }

  /** Turning NaN removal on changes nothing when no accepted pixel holds a NaN. */
  lemma {:induction false} RemoveNAWithoutNaN(region: Region, mask: Mask)
    requires Defined(region, mask, false)
    ensures RegionSamples(region, mask, true) == RegionSamples(region, mask, false)
    decreases |region|
  {
    if region != [] {
      var front := region[..|region| - 1];
      assert Defined(front, mask, false) by {
        forall k | 0 <= k < |front| ensures PixelDefined(front[k], mask, false) {
          assert front[k] == region[k];
        }
      }
      RemoveNAWithoutNaN(front, mask);
      var location := region[|region| - 1];
      if Passes(mask, location.0) {
        ComponentsWithoutNaN(location.1);
      }
    }
  }

  lemma {:induction false} ComponentsWithoutNaN(pixel: Pixel)
    requires NoNaN(pixel)
    ensures ComponentSamples(pixel, true) == ComponentSamples(pixel, false)
    decreases |pixel|
  {
    if pixel != [] {
      ComponentsWithoutNaN(pixel[..|pixel| - 1]);
    }
  }

  lemma {:induction false} ComponentSamplesConcat(a: Pixel, b: Pixel, removeNA: bool)
    requires removeNA || (NoNaN(a) && NoNaN(b))
    ensures removeNA || NoNaN(a + b)
    ensures ComponentSamples(a + b, removeNA)
         == ComponentSamples(a, removeNA) + ComponentSamples(b, removeNA)
    decreases |b|
  {
    if b == [] {
      assert a + b == a;
    } else {
      var b' := b[..|b| - 1];
      assert (a + b)[..|a + b| - 1] == a + b';
      assert (a + b)[|a + b| - 1] == b[|b| - 1];
      ComponentSamplesConcat(a, b', removeNA);
    }
  }

  /** With NaN removal on, a NaN component is skipped: the pixel yields the same
      samples as the pixel without that component. */
  lemma NaNComponentSkipped(pixel: Pixel, k: nat)
    requires k < |pixel| && pixel[k].NaN?
    ensures ComponentSamples(pixel, true) == ComponentSamples(pixel[..k] + pixel[k + 1..], true)
  {
    assert pixel == pixel[..k] + [pixel[k]] + pixel[k + 1..];
    assert ComponentSamples([pixel[k]], true) == [] by {
      assert [pixel[k]][..0] == [];
    }
    ComponentSamplesConcat(pixel[..k], [pixel[k]], true);
    ComponentSamplesConcat(pixel[..k] + [pixel[k]], pixel[k + 1..], true);
    ComponentSamplesConcat(pixel[..k], pixel[k + 1..], true);
  }

  /** A value is a sample of a pixel exactly when it is one of its components. */
  lemma {:induction false} ComponentMembership(pixel: Pixel, removeNA: bool, v: PixelValue)
    requires removeNA || NoNaN(pixel)
    ensures v in ComponentSamples(pixel, removeNA) <==> Num(v) in pixel
    decreases |pixel|
  {
    if pixel != [] {
      var front := pixel[..|pixel| - 1];
      ComponentMembership(front, removeNA, v);
      assert pixel == front + [pixel[|pixel| - 1]];
    }
  }

  /** Some location of the region that the mask accepts holds v as a component. */
  predicate AcceptedComponent(region: Region, mask: Mask, v: PixelValue) {
    exists k :: 0 <= k < |region| && Passes(mask, region[k].0) && Num(v) in region[k].1
  }

  lemma AcceptedComponentStep(region: Region, mask: Mask, v: PixelValue)
    requires region != []
    ensures AcceptedComponent(region, mask, v) <==>
      AcceptedComponent(region[..|region| - 1], mask, v)
      || (Passes(mask, region[|region| - 1].0) && Num(v) in region[|region| - 1].1)
  {
    var front := region[..|region| - 1];
    if AcceptedComponent(region, mask, v) {
      var k :| 0 <= k < |region| && Passes(mask, region[k].0) && Num(v) in region[k].1;
      if k < |front| {
        assert front[k] == region[k];
      }
    }
    if AcceptedComponent(front, mask, v) {
      var k :| 0 <= k < |front| && Passes(mask, front[k].0) && Num(v) in front[k].1;
      assert region[k] == front[k];
    }
  }

  /** A value is a sample of the region exactly when it is a component of a
      pixel at a location the mask accepts (a NaN is never a sample). */
  lemma {:induction false} RegionSampleMembership(region: Region, mask: Mask, removeNA: bool, v: PixelValue)
    requires Defined(region, mask, removeNA)
    ensures v in RegionSamples(region, mask, removeNA) <==> AcceptedComponent(region, mask, v)
    decreases |region|
  {
    if region != [] {
      var front := region[..|region| - 1];
      var last := region[|region| - 1];
      RegionSamplesStep(region, mask, removeNA, |region| - 1);
      assert region[..|region|] == region;
      RegionSampleMembership(front, mask, removeNA, v);
      AcceptedComponentStep(region, mask, v);
      if Passes(mask, last.0) {
        ComponentMembership(last.1, removeNA, v);
      }
    }
  }
}

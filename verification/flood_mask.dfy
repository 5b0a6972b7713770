/**
 The flood-mask derivation of fiji-flood-masks/tc-cody.js: the initial
 mask thresholds the ratio of the filtered after and before images (both
 in dB), and three `updateMask` stages then remove permanent water, steep
 terrain and poorly connected pixels.

 A raster is a partial map from pixels to values (a missing pixel is a
 masked one); a mask produced with `selfMask` holds only the value 1, so it
 is modelled as the set of its unmasked pixels. The slope layer and the
 connected-pixel count come from library services (`ee.Algorithms.Terrain`,
 `connectedPixelCount`) and are parameters.
 */
module FloodMask {

  datatype Pixel = Pixel(row: int, col: int)

  type Raster = map<Pixel, real>

  /** A mask: the pixels left unmasked. */
  type Mask = set<Pixel>

  const DiffThreshold: real := 1.25
  const SeasonalityThreshold: real := 5.0
  const SlopeThreshold: real := 5.0
  const ConnectedPixelThreshold: nat := 8
  const ConnectedSearchRadius: nat := 25

  /** Pixels where both images are defined. */
  predicate Both(before: Raster, after: Raster, p: Pixel)
  {
    p in before && p in after
  }

  /** The source divides by the before image with no guard. */
  predicate NonZeroBefore(before: Raster, after: Raster)
  {
    forall p :: p in before && p in after ==> before[p] != 0.0
  }

  /** `difference.gt(diffThreshold).selfMask()`: the pixels whose ratio
      after / before exceeds the threshold; the others are absent. */
  function InitialFlood(before: Raster, after: Raster): (flooded: Mask)
    requires NonZeroBefore(before, after)
    ensures forall p :: p in flooded ==> Both(before, after, p)
  {
    set p | p in before && p in after && after[p] / before[p] > DiffThreshold
  }

  /** In dB, backscatter is negative, and dividing by a negative value flips
      the comparison: a pixel is flagged exactly when its after value is
      below 1.25 times its before value, i.e. when it darkened by more than
      a quarter. For a positive before value the comparison is direct. */
  lemma InitialFloodInDecibels(before: Raster, after: Raster, p: Pixel)
    requires NonZeroBefore(before, after)
    requires Both(before, after, p)
    ensures before[p] < 0.0 ==> (p in InitialFlood(before, after) <==> after[p] < DiffThreshold * before[p])
    ensures 0.0 < before[p] ==> (p in InitialFlood(before, after) <==> after[p] > DiffThreshold * before[p])
  {
    RatioAbove(after[p], before[p], DiffThreshold);
  }

  lemma RatioAbove(a: real, b: real, t: real)
    requires b != 0.0
    ensures b < 0.0 ==> (a / b > t <==> a < t * b)
    ensures 0.0 < b ==> (a / b > t <==> a > t * b)
  {
    assert a / b * b == a;
  }

  /** A pixel that brightens from −20 dB to −10 dB (natural 0.01 to 0.1)
      has ratio 0.5 and is not flagged; one that darkens from −20 dB to
      −30 dB has ratio 1.5 and is. */
  lemma BrighteningNotFlagged()
    ensures var p := Pixel(0, 0);
      && p !in InitialFlood(map[p := -20.0], map[p := -10.0])
      && p in InitialFlood(map[p := -20.0], map[p := -30.0])
  {
    var p := Pixel(0, 0);
    assert -10.0 / -20.0 == 0.5;
    assert -30.0 / -20.0 == 1.5;
  }

  /** `updateMask`: keep the unmasked pixels where `keep` holds. */
  function UpdateMask(mask: Mask, keep: Pixel -> bool): (r: Mask)
    ensures r <= mask
    ensures forall p :: p in r <==> p in mask && keep(p)
  {
    set p | p in mask && keep(p)
  }

  /** `seasonality.gte(5).unmask(0).not()`: pixels without a seasonality
      value count as 0 and are kept. */
  predicate NotPermanentWater(seasonality: Raster, p: Pixel)
  {
    !(p in seasonality && seasonality[p] >= SeasonalityThreshold)
  }

  /** `slope.gt(5).not()`: where the slope layer is masked so is the mask,
      and the pixel is dropped. */
  predicate Gentle(slope: Raster, p: Pixel)
  {
    p in slope && !(slope[p] > SlopeThreshold)
  }

  /** `connectedPixelCount(25).lt(8).not()` on the current mask. */
  predicate WellConnected(count: (Mask, Pixel) -> nat, mask: Mask, p: Pixel)
  {
    !(count(mask, p) < ConnectedPixelThreshold)
  }

  function WithoutPermanentWater(flooded: Mask, seasonality: Raster): Mask
  {
    UpdateMask(flooded, p => NotPermanentWater(seasonality, p))
  }

  function WithoutSteep(flooded: Mask, slope: Raster): Mask
  {
    UpdateMask(flooded, p => Gentle(slope, p))
  }

  function WithoutIsolated(flooded: Mask, count: (Mask, Pixel) -> nat): Mask
  {
    UpdateMask(flooded, p => WellConnected(count, flooded, p))
  }

  /** The refinement chain in source order: permanent water, then slope,
      then connectivity counted on the mask the first two stages left. The
      result lies inside the initial mask, and a pixel survives exactly when
      it passes every test. */
  function Refine(initial: Mask, seasonality: Raster, slope: Raster, count: (Mask, Pixel) -> nat): (final: Mask)
    ensures final <= initial
    ensures forall p :: p in final <==>
      && p in initial
      && NotPermanentWater(seasonality, p)
      && Gentle(slope, p)
      && WellConnected(count, WithoutSteep(WithoutPermanentWater(initial, seasonality), slope), p)
  {
    WithoutIsolated(WithoutSteep(WithoutPermanentWater(initial, seasonality), slope), count)
  }

  /** The whole derivation from the filtered before and after images. */
  function FloodExtent(before: Raster, after: Raster, seasonality: Raster, slope: Raster,
                       count: (Mask, Pixel) -> nat): (final: Mask)
    requires NonZeroBefore(before, after)
    ensures final <= InitialFlood(before, after)
    ensures forall p :: p in final ==> Both(before, after, p) && after[p] / before[p] > DiffThreshold
  {
    Refine(InitialFlood(before, after), seasonality, slope, count)
  }

  /** Applying a mask twice is applying it once. */
  lemma UpdateMaskIdempotent(mask: Mask, keep: Pixel -> bool)
    ensures UpdateMask(UpdateMask(mask, keep), keep) == UpdateMask(mask, keep)
  {
  }

  /** Masking twice is masking once by both tests together. */
  lemma UpdateMaskConjoins(mask: Mask, keep1: Pixel -> bool, keep2: Pixel -> bool)
    ensures UpdateMask(UpdateMask(mask, keep1), keep2) == UpdateMask(mask, p => keep1(p) && keep2(p))
  {
  }

  /** Masks whose tests do not look at the mask can be applied in either order. */
  lemma UpdateMaskCommute(mask: Mask, keep1: Pixel -> bool, keep2: Pixel -> bool)
    ensures UpdateMask(UpdateMask(mask, keep1), keep2) == UpdateMask(UpdateMask(mask, keep2), keep1)
  {
  }

  /** The water and slope stages do not depend on the mask, so they commute. */
  lemma WaterAndSlopeCommute(flooded: Mask, seasonality: Raster, slope: Raster)
    ensures WithoutSteep(WithoutPermanentWater(flooded, seasonality), slope)
         == WithoutPermanentWater(WithoutSteep(flooded, slope), seasonality)
  {
    UpdateMaskCommute(flooded, p => NotPermanentWater(seasonality, p), p => Gentle(slope, p));
  }

  /** A count that sees the whole mask as one connected region. */
  function RegionSize(mask: Mask, p: Pixel): nat
  {
    if p in mask then |mask| else 0
  }

  /** Eight flooded pixels in a row, one of them permanent water. */
  const Row8: Mask := {Pixel(0, 0), Pixel(0, 1), Pixel(0, 2), Pixel(0, 3),
                       Pixel(0, 4), Pixel(0, 5), Pixel(0, 6), Pixel(0, 7)}
  const Row7: Mask := {Pixel(0, 1), Pixel(0, 2), Pixel(0, 3),
                       Pixel(0, 4), Pixel(0, 5), Pixel(0, 6), Pixel(0, 7)}
  const Lake: Raster := map[Pixel(0, 0) := 12.0]
  const Flat: Raster := map p | p in Row8 :: 0.0

  /** The connectivity stage does not commute with the others: on eight
      connected pixels, one of them permanent water, the source order drops
      the water pixel first, leaves a region of seven and then removes it as
      isolated; counting connectivity first keeps the seven. */
  lemma ConnectivityOrderMatters()
    ensures Refine(Row8, Lake, Flat, RegionSize) == {}
    ensures WithoutSteep(WithoutPermanentWater(WithoutIsolated(Row8, RegionSize), Lake), Flat) == Row7
  {
    assert |Row8| == 8 && |Row7| == 7;
    var afterWater := WithoutPermanentWater(Row8, Lake);
    assert afterWater == Row7;
    assert WithoutSteep(afterWater, Flat) == afterWater;
    assert WithoutIsolated(Row8, RegionSize) == Row8;
  }
}

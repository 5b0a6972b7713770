# STARFM fusion and the Refined Lee flood mask, in Dafny

This project models two image-processing cores of the `ccai-data`
repository and proves properties about them.

- **STARFM** (`starfm-python/starfm/starfm.py`) fuses a fine image at t0 with
  coarse images at t0 and t1 to predict a fine image at t1.
  - Each pixel gets a (2h+1)×(2h+1) window cut from the three images, after
    they are padded with `mask_val`.
  - The window's spectral difference |fine − coarse0| and temporal difference
    |coarse1 − coarse0| are computed.
  - Neighbours are kept when they are spectrally similar and of high quality.
  - The kept neighbours are weighted by the inverse of their combined
    distance. The prediction is the weighted sum of their candidates
    `c1 + f0 − c0`. When no neighbour is kept, the centre pixel's own
    candidate is used instead.
- **Tropical Cyclone Cody flood mask** (`fiji-flood-masks/tc-cody.js`) has
  two parts.
  - The Refined Lee speckle filter. For each pixel it:
    - estimates an edge direction from nine sampled 3×3 means;
    - picks one of eight directional 7×7 kernels;
    - estimates the speckle noise from the five lowest variance/mean² ratios;
    - blends the pixel towards the kernel's mean with the MMSE gain.
  - The flood derivation. It thresholds the ratio of the filtered after
    and before images (both in dB). It then masks out permanent water,
    steep slopes and poorly connected pixels, in that order.

Modules:

| file | module | contents |
|---|---|---|
| `reals.dfy` | `Reals` | Sums, boolean-mask selection (numpy `a[mask]`), minimum and maximum, and the convex-combination bound. |
| `grids.dfy` | `Grids` | Row-major flattening (`np.ravel`), constant padding (`np.pad`) and window slicing. |
| `sorting.dfy` | `Sorting` | Ascending sort of a per-pixel array (`arraySort`). |
| `starfm.dfy` | `Starfm` | The per-window steps, the per-pixel prediction and the driver loop. |
| `refined_lee.dfy` | `RefinedLee` | The per-pixel Refined Lee filter. |
| `flood_mask.dfy` | `FloodMask` | The initial flood mask and the `updateMask` chain. |

How things are represented:

- Images are `seq<seq<real>>`, and reals are exact.
- An Earth Engine raster is a partial map from pixels to values; a missing
  pixel is a masked one.
- A self-masked 0/1 image is the set of its unmasked pixels.

Some behaviours of the source are kept as written, and the model proves
what they do:

- **Centre difference read one cell off.** STARFM reads the centre spectral
  and temporal differences at window cell (h+1, h+1), but reads the centre
  pixel at (h, h).
  - `Starfm.CentreReadOffset` proves the differences come from the pixel's
    diagonal neighbour (i+1, j+1).
  - On the last row or column that neighbour is padding, so both
    differences are 0.
  - With h = 0 the read falls outside the 1×1 window. The source raises an
    IndexError there, and the model returns an `Err`.
- **Real values equal to `mask_val` count as padding.** The padding mask
  compares fine values with `mask_val`, so a genuine pixel with that value is
  dropped like padding (`Starfm.MaskValueDropped`).
- **Direction ties are summed.** When several axes tie for the largest
  gradient, their direction ids are added.
  - The sum is not the direction of any tied axis (`RefinedLee.TiedMaximum`).
  - It can be the id of another axis (`RefinedLee.TieGivesOtherAxis`).

Further behaviours of the Refined Lee filter and the flood derivation:

- **`varX` is not clamped.** `fiji-flood-masks/tc-cody.js:227` computes
  `varX` as `dir_var − dir_mean²·sigmaV` over `sigmaV + 1`, with no floor
  at 0. When it is negative the gain is negative too. The result then lands
  on the far side of the directional mean from the pixel
  (`RefinedLee.NegativeGainOvershoots`).
- **The gain divides by `dir_var` unguarded.** `fiji-flood-masks/tc-cody.js:229`
  divides `varX` by `dir_var` with no special case for 0. The model requires
  a non-zero directional variance there.
- **A constant neighbourhood is masked.** On nine equal sampled means all four
  axes tie and none rises. The sum at `fiji-flood-masks/tc-cody.js:187-188`
  then collapses the direction map to 5+6+7+8 = 26, which masks every
  kernel band, so the pixel comes out masked (`RefinedLee.HomogeneousMasked`).
- **The flood ratio is taken of negative dB values.**
  `fiji-flood-masks/tc-cody.js:50-55` flags a pixel when after/before
  exceeds 1.25, with both images in dB. For negative dB values that means
  darkening: a pixel that brightens from −20 dB to −10 dB is not flagged,
  while one that darkens to −30 dB is (`FloodMask.BrighteningNotFlagged`).
- **A pixel without a slope value is dropped.** `updateMask` with a masked
  slope layer masks the pixel too (`FloodMask.Gentle`).
- **The refinement stages are not all independent.**
  - Masks whose tests do not look at the mask commute
    (`FloodMask.UpdateMaskCommute`). So the water and slope stages can be
    swapped (`FloodMask.WaterAndSlopeCommute`).
  - The connectivity stage counts on the mask the earlier stages leave, so
    moving it changes the result (`FloodMask.ConnectivityOrderMatters`).

## Model

| member | source | states |
|---|---|---|
| `Grids.RavelIndex` | starfm-python/starfm/starfm.py:23 | `np.ravel` is row-major: cell (r, c) of a rows×cols grid is entry r·cols + c of the flat sequence, and the flat length is rows·cols. |
| `Grids.CropPad` | starfm-python/starfm/starfm.py:283-297 | Removing the border of a padded image gives back the original image, so padding loses nothing. |
| `Grids.PaddedWindowCell` | starfm-python/starfm/starfm.py:301-312 | Cell (a, b) of pixel (i, j)'s window is image pixel (i+a−h, j+b−h) when that lies in the image, and `mask_val` otherwise. |
| `Reals.CompressAt` | starfm-python/starfm/starfm.py:169-175 | Boolean indexing keeps the flagged entries in input order: entry t of `a[mask]` is the entry at the t-th set flag. |
| `Reals.SelIndexRank` | starfm-python/starfm/starfm.py:169 | The t-th set flag has exactly t set flags before it. |
| `Reals.SelIndexOf` | starfm-python/starfm/starfm.py:169 | Every set flag is the t-th one for t its number of set predecessors, so each flagged entry appears in `a[mask]`, at that position. |
| `Reals.SelIndexIncreasing` | starfm-python/starfm/starfm.py:169 | Later set flags sit at later positions, so `a[mask]` preserves the input order. |
| `Reals.Normalise` | starfm-python/starfm/starfm.py:182-184 | Positive entries divided by their sum each lie in (0, 1] and sum to 1. |
| `Reals.ConvexCombination` | starfm-python/starfm/starfm.py:213-215 | A sum of non-negative weights totalling 1, times values, lies between the smallest and the largest value. |
| `Starfm.WindowDifference` | starfm-python/starfm/starfm.py:20-25 | The spectral difference, and with other inputs the temporal one (lines 41-46). It fails exactly when (r, c) is outside the window. On success the flat difference has n² non-negative entries, and the centre value is both flat entry r·n + c and abs(a[r][c] − b[r][c]). |
| `Starfm.SpatialGridBounds` | starfm-python/starfm/starfm.py:63-66 | With a positive spatial impact factor every relative spatial distance is at least 1, and the centre cell's is exactly 1. |
| `Starfm.SpatialDistance` | starfm-python/starfm/starfm.py:63-70 | The flattened spatial distance has n² entries, each at least 1 when the factor is positive, and is exactly 1 at the centre. |
| `Starfm.SimilarAndFiltered` | starfm-python/starfm/starfm.py:127-149 | Neighbour k is selected if and only if it is not padding, it is spectrally similar to the centre pixel, its spectral difference is below the centre's plus the uncertainty, and (with the flag) so is its temporal difference. |
| `Starfm.TemporalTestNarrows` | starfm-python/starfm/starfm.py:137-141 | Turning on the temporal test can only drop neighbours: selected with the flag implies selected without it. |
| `Starfm.CombinedDistance` | starfm-python/starfm/starfm.py:168-178 | There is one combined distance per selected neighbour, and each is positive. |
| `Starfm.CombinedDistanceAt` | starfm-python/starfm/starfm.py:168-178 | Entry t is (spec_diff[k] + 1)·spat_dist[k] for the t-th selected neighbour k, times (tmp_diff[k] + 1) when the temporal flag is set. |
| `Starfm.Weights` | starfm-python/starfm/starfm.py:168-186 | There is one weight per selected neighbour, each in (0, 1], and the weights sum to 1. |
| `Starfm.WeightsInverseDistance` | starfm-python/starfm/starfm.py:180-184 | Weight i is (1/d_i) / Σ(1/d), so it is inversely proportional to the neighbour's combined distance. |
| `Starfm.SelectedCandidatesAt` | starfm-python/starfm/starfm.py:203-213 | Candidate t is c1[k] + f0[k] − c0[k] for the t-th selected neighbour k of the flattened windows. |
| `Starfm.PredictWeighted` | starfm-python/starfm/starfm.py:204-215 | With convex weights, the weighted prediction lies between the smallest and the largest candidate c1 + f0 − c0 of the selected neighbours. |
| `Starfm.PredictUnweighted` | starfm-python/starfm/starfm.py:229-231 | The fallback carries the coarse change to the fine pixel (r − f0 = c1 − c0). It equals the weighted prediction with the centre as the only neighbour, at weight 1. |
| `Starfm.Differences` | starfm-python/starfm/starfm.py:317-322 | Both differences succeed exactly when h ≥ 1. Then each has n² non-negative entries, and the centre values are abs(f0 − c0) and abs(c1 − c0) at window cell (h+1, h+1). |
| `Starfm.Analyse` | starfm-python/starfm/starfm.py:314-340 | A window's analysis succeeds exactly when h ≥ 1. Then the selection, both differences and the three flattened windows have one entry per cell, and the differences are non-negative. |
| `Starfm.AnalyseCentre` | starfm-python/starfm/starfm.py:317-321 | The centre differences are the absolute differences at window cell (h+1, h+1), not at the centre pixel (h, h). |
| `Starfm.AnalyseSelection` | starfm-python/starfm/starfm.py:324-340 | Neighbour k is selected if and only if its fine value is not `mask_val`, it is within the threshold of the fine pixel at (h, h), and its differences pass the uncertainty tests against the (h+1, h+1) centre. |
| `Starfm.Fused` | starfm-python/starfm/starfm.py:342-352 | The weighted prediction over an analysis's selected neighbours lies between the smallest and the largest of their candidates. |
| `Starfm.PixelPrediction` | starfm-python/starfm/starfm.py:317-357 | A pixel's prediction fails exactly when h = 0, which is the IndexError of the (h+1, h+1) read. |
| `Starfm.PixelPredictionCases` | starfm-python/starfm/starfm.py:342-357 | With no selected neighbour the prediction is the centre-only fallback. Otherwise it lies between the smallest and the largest selected candidate. |
| `Starfm.PixelWindows` | starfm-python/starfm/starfm.py:299-312 | The three windows cut around a pixel of the padded images are each (2h+1)×(2h+1). |
| `Starfm.RowPredictions` | starfm-python/starfm/starfm.py:300-359 | A row of predictions succeeds exactly when every pixel in it does, and then has one value per column. |
| `Starfm.GridPredictions` | starfm-python/starfm/starfm.py:299-359 | The grid of predictions succeeds exactly when every pixel does, and then has the image's shape. |
| `Starfm.RowPredictionsPointwise` | starfm-python/starfm/starfm.py:359 | Column j of a successful row holds the prediction of pixel (i, j)'s windows. |
| `Starfm.GridPredictionsPointwise` | starfm-python/starfm/starfm.py:359 | Cell (i, j) of a successful grid holds the prediction of pixel (i, j)'s windows. |
| `Starfm.PredictRow` | starfm-python/starfm/starfm.py:300-359 | The column loop gives the same result as the row definition. |
| `Starfm.PredictGrid` | starfm-python/starfm/starfm.py:299-359 | The row loop gives the same result as the grid definition. |
| `Starfm.Starfm` | starfm-python/starfm/starfm.py:234-361 | The driver fails exactly when h = 0 on a non-empty image. Otherwise it returns an image of the input's shape whose pixel (i, j) is the prediction from that pixel's padded windows. |
| `Starfm.CentrePixel` | starfm-python/starfm/starfm.py:324 | The (h, h) cell of a pixel's fine window is that pixel's own value. |
| `Starfm.CentreReadOffset` | starfm-python/starfm/starfm.py:317-322 | Window cell (h+1, h+1) holds image pixel (i+1, j+1). On the last row or column it is padding in all three images, so both centre differences are 0. |
| `Starfm.PaddingNeverSelected` | starfm-python/starfm/starfm.py:283-315 | A window cell that falls in the padding holds `mask_val` and is never selected. |
| `Starfm.MaskValueDropped` | starfm-python/starfm/starfm.py:314 | Any neighbour whose fine value equals `mask_val` is not selected, whether it is padding or a genuine pixel. |
| `Sorting.Sort` | fiji-flood-masks/tc-cody.js:196 | `arraySort` returns an ascending permutation of the nine ratios. |
| `Sorting.SortFirst` | fiji-flood-masks/tc-cody.js:196 | The first sorted entry is the minimum. |
| `Sorting.SortSum` | fiji-flood-masks/tc-cody.js:196 | Sorting keeps the sum. |
| `RefinedLee.AxesThroughCentre` | fiji-flood-masks/tc-cody.js:159-162 | The two samples compared on each of the four axes are distinct and lie opposite each other through the centre sample 4. |
| `RefinedLee.Gradients` | fiji-flood-masks/tc-cody.js:159-162 | The four gradients are non-negative, and gradient j is 0 if and only if the axis's two samples are equal. |
| `RefinedLee.GradMask` | fiji-flood-masks/tc-cody.js:165-168 | An axis is flagged if and only if its gradient is the largest, and at least one axis is flagged. |
| `RefinedLee.Directions` | fiji-flood-masks/tc-cody.js:174-182 | Band j (j < 4) is j+1 exactly when axis j rises and 0 otherwise. Band j+4 is j+5 exactly when band j is 0. |
| `RefinedLee.AxisDirections` | fiji-flood-masks/tc-cody.js:174-182 | Each axis contributes one id from its pair of bands: j+1 if it rises, j+5 if not. |
| `RefinedLee.CollapseByAxes` | fiji-flood-masks/tc-cody.js:171-188 | Masking the eight bands with the duplicated gradient mask and summing gives the sum of the flagged axes' ids. |
| `RefinedLee.UniqueMaximum` | fiji-flood-masks/tc-cody.js:165-188 | When one axis alone has the largest gradient, the direction map is that axis's id, a direction in 1..8. |
| `RefinedLee.TiedMaximum` | fiji-flood-masks/tc-cody.js:165-188 | When two axes tie for the largest gradient, the direction map exceeds both of their ids. |
| `RefinedLee.ExclusiveIffUnique` | fiji-flood-masks/tc-cody.js:185-188 | The collapse yields a flagged axis's own id if and only if no other axis is flagged. |
| `RefinedLee.ConstantSample` | fiji-flood-masks/tc-cody.js:159-188 | On a constant sample all four axes tie and none rises, so the direction map is 5+6+7+8 = 26. |
| `RefinedLee.TieGivesOtherAxis` | fiji-flood-masks/tc-cody.js:159-188 | A tie between two rising axes collapses to 3, the id of a third axis that attains no maximum. |
| `RefinedLee.KernelFor` | fiji-flood-masks/tc-cody.js:208-219 | Direction d uses the rectangular kernel when d is odd and the diagonal kernel when d is even, rotated (d−1)/2 quarter turns. |
| `RefinedLee.KernelBijection` | fiji-flood-masks/tc-cody.js:208-219 | Directions 1..8 and the eight rotated kernels correspond one to one. |
| `RefinedLee.BandsFollowDirections` | fiji-flood-masks/tc-cody.js:208-220 | Stacked band b holds the statistic of the kernel that direction b+1 masks it with. |
| `RefinedLee.DirectionMaskCount` | fiji-flood-masks/tc-cody.js:208-219 | `directions.eq(b+1)` over the eight bands leaves exactly one band unmasked when the direction is in 1..8, and none otherwise. |
| `RefinedLee.CollapseStat` | fiji-flood-masks/tc-cody.js:207-224 | The collapsed statistic is masked exactly when the direction is outside 1..8. Otherwise it is the statistic of that direction's kernel. |
| `RefinedLee.NoiseRatios` | fiji-flood-masks/tc-cody.js:193 | Each ratio times its mean squared gives back the sampled variance. |
| `RefinedLee.SigmaV` | fiji-flood-masks/tc-cody.js:196 | The mean of the five smallest ratios lies between the smallest and the fifth-smallest ratio, and does not exceed the mean of all nine. |
| `RefinedLee.MmseBlend` | fiji-flood-masks/tc-cody.js:227-231 | With zero noise the filter returns the pixel. A pixel equal to the directional mean is unchanged. |
| `RefinedLee.GainBounds` | fiji-flood-masks/tc-cody.js:227-229 | With non-negative noise and positive variance the gain is at most 1. It is negative exactly when dirMean²·sigmaV exceeds the variance. |
| `RefinedLee.BlendBetween` | fiji-flood-masks/tc-cody.js:227-231 | With a gain in [0, 1] the result lies between the pixel and the directional mean. |
| `RefinedLee.NegativeGainOvershoots` | fiji-flood-masks/tc-cody.js:227-231 | With a negative gain (`varX` is not clamped) the result lands on the far side of the directional mean from the pixel. |
| `RefinedLee.FilterPixel` | fiji-flood-masks/tc-cody.js:140-233 | A pixel has a value exactly when its direction map is in 1..8. The value is then the MMSE blend over that direction's kernel with the sigmaV noise estimate. |
| `RefinedLee.HomogeneousMasked` | fiji-flood-masks/tc-cody.js:159-224 | A pixel whose nine sampled means are equal comes out masked. |
| `FloodMask.InitialFlood` | fiji-flood-masks/tc-cody.js:50-55 | Every flagged pixel is defined in both images. |
| `FloodMask.InitialFloodInDecibels` | fiji-flood-masks/tc-cody.js:50-55 | For a negative (dB) before value a pixel is flagged exactly when after < 1.25·before; for a positive one, exactly when after > 1.25·before. |
| `FloodMask.BrighteningNotFlagged` | fiji-flood-masks/tc-cody.js:47-55 | In dB, brightening from −20 to −10 is not flagged, while darkening from −20 to −30 is. |
| `FloodMask.UpdateMaskConjoins` | fiji-flood-masks/tc-cody.js:73-82 | Two successive `updateMask` calls keep exactly the pixels that pass both tests. |
| `FloodMask.UpdateMaskCommute` | fiji-flood-masks/tc-cody.js:73-82 | Two `updateMask` calls whose tests do not look at the mask can be applied in either order. |
| `FloodMask.UpdateMaskIdempotent` | fiji-flood-masks/tc-cody.js:73 | Applying the same mask twice is applying it once. |
| `FloodMask.Refine` | fiji-flood-masks/tc-cody.js:66-92 | The refined mask lies inside the initial one. A pixel survives exactly when it is not permanent water, has a slope of at most 5, and has at least 8 connected pixels in the mask the first two stages leave. |
| `FloodMask.FloodExtent` | fiji-flood-masks/tc-cody.js:50-92 | The final mask lies inside the initial flood mask, and every pixel in it has an after/before ratio above 1.25. |
| `FloodMask.WaterAndSlopeCommute` | fiji-flood-masks/tc-cody.js:66-82 | The permanent-water and slope stages can be applied in either order. |
| `FloodMask.ConnectivityOrderMatters` | fiji-flood-masks/tc-cody.js:84-92 | On eight pixels in a row, one of them permanent water, the source order removes all of them, while counting connectivity first keeps seven. |

## Left out

- Earth Engine I/O (collections, mosaics, clipping, `Map.addLayer`, the Drive export) and rasterio/os/time are not modelled. Each model starts from in-memory values.
- `toNatural` and `toDB` (`pow`, `log10`) are not modelled. The flood derivation takes the filtered dB images as inputs.
- Earth Engine neighbourhood statistics are library internals: `reduceNeighborhood` means and variances, `neighborhoodToBands`, `Kernel.rotate`, `Terrain` slope and `connectedPixelCount`. A pixel's sampled statistics, each kernel's directional statistics, the slope layer and the connected-pixel count are parameters.
- The Refined Lee filter is modelled one pixel at a time. Masked input pixels inside a neighbourhood and the final `arrayFlatten` are not modelled.
- Floating point is not modelled: reals are exact, so NaN, infinity and rounding do not arise. Divisions the source leaves unguarded become preconditions: the sampled means, the chosen direction's variance, sigmaV ≠ −1, and the before image.
- `get_spectral_threshold` (`np.std`) is not modelled. The spectral threshold is a parameter.
- The square root in `spatial_distance` is a parameter. The model assumes only that it is non-negative and that the root of 0 is 0.
- The window size is taken as 2h+1 from the half size h. The source accepts the two values separately and assumes they agree.
- `Starfm.SpatialDistance`: states bounds and the centre value, not each cell's distance, because the square root is a parameter.
- `Starfm.Starfm`: requires a positive spatial impact factor. A zero factor divides by zero in the source. A negative factor is also excluded, although the source accepts it.
- `Starfm.Starfm`: images are exact reals. The source's docstrings also allow integer images (starfm.py:18, 112-114, 222-227, 259). For unsigned integer arrays numpy's subtractions at starfm.py:20, 41, 213 and 229 wrap around, and that wrap-around is not modelled.
- `Starfm.Starfm`: `dim_rows` and `dim_cols` are separate arguments in the source (starfm.py:241-242), and the loops at starfm.py:299-300 trust them. The model ties them to the image shape through `IsGrid`, so a mismatched shape is not modelled.
- `Starfm.CombinedDistance`: its own contract states only the count and the sign of the distances. Each entry is stated by `Starfm.CombinedDistanceAt`.
- `FloodMask.FloodExtent`: states only that the result is within the thresholded ratio. The exact survival condition is stated on `FloodMask.Refine`.
- `fiji-lulc-training-data` and `s2-image-stacks` are outside the modelled core.

/**
 The per-pixel logic of the Refined Lee speckle filter of
 fiji-flood-masks/tc-cody.js: the edge-orientation estimate from nine
 sampled 3×3 window means, the choice of a directional 7×7 kernel, the
 local noise estimate and the minimum-mean-square-error blend.

 The neighbourhood statistics themselves (Earth Engine `reduceNeighborhood`
 means and variances, `neighborhoodToBands`, `Kernel.rotate`) are library
 internals: a pixel's nine sampled means and variances arrive as sequences
 indexed row-major over the 3×3 grid of samples (4 is the centre), and the
 statistic of a directional kernel arrives as a function of the kernel.

 Earth Engine's masking is modelled with `Masked`: a band reduced by sum
 skips its masked bands, and is itself masked when every band is.
 */
module RefinedLee {
  import opened Reals
  import opened Sorting

  const Centre: nat := 4

  /** The samples above and below the centre on each of the four axes:
      axis j compares sample Upper[j] with sample Lower[j]. */
  const Upper: seq<nat> := [1, 6, 3, 0]
  const Lower: seq<nat> := [7, 2, 5, 8]

  /** The two samples of an axis lie opposite each other through the centre. */
  lemma AxesThroughCentre(j: nat)
    requires j < 4
    ensures Upper[j] + Lower[j] == 2 * Centre && Upper[j] != Lower[j]
  {
  }

  /** The four gradient bands: |upper − lower| along each axis. */
  function Gradients(m: seq<real>): (g: seq<real>)
    requires |m| == 9
    ensures |g| == 4
    ensures forall j :: 0 <= j < 4 ==> 0.0 <= g[j]
    ensures forall j :: 0 <= j < 4 ==> (g[j] == 0.0 <==> m[Upper[j]] == m[Lower[j]])
  {
    seq(4, j requires 0 <= j < 4 => Abs(m[Upper[j]] - m[Lower[j]]))
  }

  /** `gradients.eq(max_gradient)`: the axes attaining the largest gradient.
      The maximum is attained, so at least one axis is flagged. */
  function GradMask(m: seq<real>): (mask: seq<bool>)
    requires |m| == 9
    ensures |mask| == 4
    ensures forall j :: 0 <= j < 4 ==>
      (mask[j] <==> forall k :: 0 <= k < 4 ==> Gradients(m)[k] <= Gradients(m)[j])
    ensures exists j :: 0 <= j < 4 && mask[j]
  {
    var g := Gradients(m);
    var top := MaxOf(g);
    assert exists j :: 0 <= j < 4 && g[j] == top;
    seq(4, j requires 0 <= j < 4 => g[j] == top)
  }

  /** Whether the step from the centre to the upper sample exceeds the step
      from the lower sample to the centre on axis j. */
  predicate Rising(m: seq<real>, j: nat)
    requires |m| == 9 && j < 4
  {
    m[Upper[j]] - m[Centre] > m[Centre] - m[Lower[j]]
  }

  /** Earth Engine `not()` on a number: 1 for zero, 0 otherwise. */
  function Not(x: int): int
  {
    if x == 0 then 1 else 0
  }

  /** The eight direction bands: band j (j < 4) is j+1 when axis j rises and
      0 otherwise; band j+4 is `not()` of band j times j+5. */
  function Directions(m: seq<real>): (d: seq<int>)
    requires |m| == 9
    ensures |d| == 8
    ensures forall j :: 0 <= j < 4 ==> (d[j] == j + 1 <==> Rising(m, j)) && (d[j] == 0 <==> !Rising(m, j))
    ensures forall j :: 0 <= j < 4 ==> (d[j + 4] == j + 5 <==> d[j] == 0) && (d[j + 4] == 0 <==> d[j] != 0)
  {
    var d := seq(8, k requires 0 <= k < 8 =>
      if k < 4 then (if Rising(m, k) then 1 else 0) * (k + 1)
      else Not((if Rising(m, k - 4) then 1 else 0) * (k - 3)) * (k + 1));
    assert forall j :: 0 <= j < 4 ==> d[j + 4] == Not(d[j]) * (j + 5);
    d
  }

  /** Sum of the entries whose flag is set: Earth Engine's `reduce(sum)`
      over bands, skipping masked ones. */
  function SumKept(xs: seq<int>, keep: seq<bool>): int
    requires |xs| == |keep|
  {
    if |xs| == 0 then 0 else (if keep[0] then xs[0] else 0) + SumKept(xs[1..], keep[1..])
  }

  /** The direction map: the eight bands masked by the duplicated gradient
      mask (band k by axis k mod 4) and collapsed by sum. */
  function CollapseDirection(m: seq<real>): int
    requires |m| == 9
  {
    SumKept(Directions(m), GradMask(m) + GradMask(m))
  }

  /** The one non-zero band of each pair: j+1 when axis j rises, else j+5. */
  function AxisDirections(m: seq<real>): (a: seq<int>)
    requires |m| == 9
    ensures |a| == 4
    ensures forall j :: 0 <= j < 4 ==> a[j] == if Rising(m, j) then j + 1 else j + 5
  {
    var d := Directions(m);
    seq(4, j requires 0 <= j < 4 => d[j] + d[j + 4])
  }

  lemma {:induction false} SumKeptAppend(a: seq<int>, b: seq<int>, ka: seq<bool>, kb: seq<bool>)
    requires |a| == |ka| && |b| == |kb|
    ensures SumKept(a + b, ka + kb) == SumKept(a, ka) + SumKept(b, kb)
  {
    if |a| > 0 {
      SumKeptAppend(a[1..], b, ka[1..], kb);
      assert (a + b)[1..] == a[1..] + b;
      assert (ka + kb)[1..] == ka[1..] + kb;
    } else {
      assert a + b == b && ka + kb == kb;
    }
  }

  lemma {:induction false} SumKeptPointwise(a: seq<int>, b: seq<int>, c: seq<int>, k: seq<bool>)
    requires |a| == |k| && |b| == |k| && |c| == |k|
    requires forall i :: 0 <= i < |k| ==> c[i] == a[i] + b[i]
    ensures SumKept(a, k) + SumKept(b, k) == SumKept(c, k)
  {
    if |k| > 0 {
      SumKeptPointwise(a[1..], b[1..], c[1..], k[1..]);
    }
  }

  /** Collapsing the eight bands is collapsing the four axes. */
  lemma CollapseByAxes(m: seq<real>)
    requires |m| == 9
    ensures CollapseDirection(m) == SumKept(AxisDirections(m), GradMask(m))
  {
    var d := Directions(m);
    var g := GradMask(m);
    assert d == d[..4] + d[4..];
    SumKeptAppend(d[..4], d[4..], g, g);
    SumKeptPointwise(d[..4], d[4..], AxisDirections(m), g);
  }

  /** With a single flag set, the sum is that entry. */
  lemma {:induction false} SumKeptSingle(xs: seq<int>, keep: seq<bool>, j: nat)
    requires |xs| == |keep| && j < |xs|
    requires forall i :: 0 <= i < |keep| ==> (keep[i] <==> i == j)
    ensures SumKept(xs, keep) == xs[j]
  {
    if j == 0 {
      SumKeptNone(xs[1..], keep[1..]);
    } else {
      SumKeptSingle(xs[1..], keep[1..], j - 1);
    }
  }

  lemma {:induction false} SumKeptNone(xs: seq<int>, keep: seq<bool>)
    requires |xs| == |keep|
    requires forall i :: 0 <= i < |keep| ==> !keep[i]
    ensures SumKept(xs, keep) == 0
  {
    if |xs| > 0 {
      SumKeptNone(xs[1..], keep[1..]);
    }
  }

  /** With positive entries, two set flags contribute both entries at least. */
  lemma {:induction false} SumKeptPair(xs: seq<int>, keep: seq<bool>, a: nat, b: nat)
    requires |xs| == |keep| && a < b < |xs|
    requires forall i :: 0 <= i < |xs| ==> 0 < xs[i]
    requires keep[a] && keep[b]
    ensures SumKept(xs, keep) >= xs[a] + xs[b]
  {
    if a == 0 {
      SumKeptAtLeast(xs[1..], keep[1..], b - 1);
    } else {
      SumKeptPair(xs[1..], keep[1..], a - 1, b - 1);
    }
  }

  lemma {:induction false} SumKeptAtLeast(xs: seq<int>, keep: seq<bool>, b: nat)
    requires |xs| == |keep| && b < |xs|
    requires forall i :: 0 <= i < |xs| ==> 0 < xs[i]
    requires keep[b]
    ensures SumKept(xs, keep) >= xs[b]
  {
    if b == 0 {
      SumKeptNonNegative(xs[1..], keep[1..]);
    } else {
      SumKeptAtLeast(xs[1..], keep[1..], b - 1);
    }
  }

  lemma {:induction false} SumKeptNonNegative(xs: seq<int>, keep: seq<bool>)
    requires |xs| == |keep|
    requires forall i :: 0 <= i < |xs| ==> 0 < xs[i]
    ensures 0 <= SumKept(xs, keep)
  {
    if |xs| > 0 {
      SumKeptNonNegative(xs[1..], keep[1..]);
    }
  }

  /** When axis j alone attains the largest gradient, the direction map
      holds exactly that axis's direction: j+1 if it rises, else j+5. */
  lemma UniqueMaximum(m: seq<real>, j: nat)
    requires |m| == 9 && j < 4
    requires forall k :: 0 <= k < 4 && k != j ==> Gradients(m)[k] < Gradients(m)[j]
    ensures CollapseDirection(m) == AxisDirections(m)[j]
    ensures 1 <= CollapseDirection(m) <= 8
    ensures CollapseDirection(m) == if Rising(m, j) then j + 1 else j + 5
  {
    CollapseByAxes(m);
    SumKeptSingle(AxisDirections(m), GradMask(m), j);
  }

  /** When two axes tie for the largest gradient their directions are added,
      so the direction map holds neither tied axis's own direction. */
  lemma TiedMaximum(m: seq<real>, a: nat, b: nat)
    requires |m| == 9 && a < b < 4
    requires GradMask(m)[a] && GradMask(m)[b]
    ensures CollapseDirection(m) > AxisDirections(m)[a]
    ensures CollapseDirection(m) > AxisDirections(m)[b]
  {
    CollapseByAxes(m);
    SumKeptPair(AxisDirections(m), GradMask(m), a, b);
  }

  /** The exclusivity the band collapse relies on holds exactly when the
      largest gradient is attained by one axis only. */
  lemma ExclusiveIffUnique(m: seq<real>, j: nat)
    requires |m| == 9 && j < 4 && GradMask(m)[j]
    ensures CollapseDirection(m) == AxisDirections(m)[j]
        <==> forall k :: 0 <= k < 4 && k != j ==> !GradMask(m)[k]
  {
    if forall k :: 0 <= k < 4 && k != j ==> !GradMask(m)[k] {
      CollapseByAxes(m);
      SumKeptSingle(AxisDirections(m), GradMask(m), j);
    } else {
      var k :| 0 <= k < 4 && k != j && GradMask(m)[k];
      if k < j {
        TiedMaximum(m, k, j);
      } else {
        TiedMaximum(m, j, k);
      }
    }
  }

  /** On a constant sample every gradient is 0, all four axes tie, none
      rises, and the collapse adds 5 + 6 + 7 + 8. */
  lemma ConstantSample(m: seq<real>)
    requires |m| == 9
    requires forall k :: 0 <= k < 9 ==> m[k] == m[Centre]
    ensures CollapseDirection(m) == 26
  {
    var g := GradMask(m);
    assert g == [true, true, true, true];
    assert AxisDirections(m) == [5, 6, 7, 8];
    assert SumKept([5, 6, 7, 8], [true, true, true, true]) == 26;
    CollapseByAxes(m);
  }

  /** A sample on which axes 0 and 1 tie for the largest gradient and both
      rise, while axes 2 and 3 are flat. */
  const TieSample: seq<real> := [0.0, 2.0, 0.0, 0.0, 0.0, 0.0, 2.0, 0.0, 0.0]

  lemma TieSampleMask()
    ensures GradMask(TieSample) == [true, true, false, false]
  {
    assert Gradients(TieSample) == [2.0, 2.0, 0.0, 0.0];
  }

  lemma TieSampleAxes()
    ensures AxisDirections(TieSample) == [1, 2, 7, 8]
  {
  }

  /** The tie collapses to 3, the id of the rising direction of axis 2,
      an axis that attains no maximum. */
  lemma TieGivesOtherAxis()
    ensures CollapseDirection(TieSample) == 3
  {
    TieSampleMask();
    TieSampleAxes();
    assert SumKept([1, 2, 7, 8], [true, true, false, false]) == 3;
    CollapseByAxes(TieSample);
  }

  /** The two directional kernel shapes of the filter. */
  datatype Shape = Rect | Diag

  /** A base kernel rotated `turns` quarter turns (`Kernel.rotate`). */
  datatype Kernel = Kernel(shape: Shape, turns: nat)

  predicate ValidKernel(k: Kernel)
  {
    k.turns < 4
  }

  /** The kernel of direction d: odd directions use the rectangular kernel,
      even ones the diagonal kernel, each rotated (d−1)/2 quarter turns. */
  function KernelFor(d: int): (k: Kernel)
    requires 1 <= d <= 8
    ensures ValidKernel(k)
    ensures k.shape == Rect <==> d % 2 == 1
    ensures k.turns == (d - 1) / 2
  {
    if d % 2 == 1 then Kernel(Rect, (d - 1) / 2) else Kernel(Diag, (d - 2) / 2)
  }

  /** The direction whose mask selects kernel k. */
  function DirectionOf(k: Kernel): (d: int)
    requires ValidKernel(k)
    ensures 1 <= d <= 8
  {
    match k.shape
    case Rect => 2 * k.turns + 1
    case Diag => 2 * k.turns + 2
  }

  /** Directions 1..8 and the eight kernels correspond one to one. */
  lemma KernelBijection(d: int, k: Kernel)
    requires 1 <= d <= 8 && ValidKernel(k)
    ensures DirectionOf(KernelFor(d)) == d
    ensures KernelFor(DirectionOf(k)) == k
    ensures KernelFor(d) == k <==> DirectionOf(k) == d
  {
  }

  /** The kernel of stacked band b: bands alternate rectangle and diagonal,
      rotating one more quarter turn every two bands. */
  function BandKernel(b: nat): (k: Kernel)
    requires b < 8
    ensures ValidKernel(k)
  {
    if b % 2 == 0 then Kernel(Rect, b / 2) else Kernel(Diag, b / 2)
  }

  /** Band b is masked by direction b+1, and holds the statistic of that
      direction's kernel. */
  lemma BandsFollowDirections(b: nat)
    requires b < 8
    ensures BandKernel(b) == KernelFor(b + 1)
  {
  }

  /** A pixel value that may be masked. */
  datatype Masked = Value(v: real) | NoData

  /** The eight-band stack of one statistic, band b over kernel BandKernel(b). */
  function BandStack(stat: Kernel -> real): (s: seq<real>)
    ensures |s| == 8
    ensures forall b :: 0 <= b < 8 ==> s[b] == stat(BandKernel(b))
  {
    seq(8, b requires 0 <= b < 8 => stat(BandKernel(b)))
  }

  /** The stack masked by `directions.eq(b + 1)` and collapsed by sum: the
      statistic of direction d's kernel for d in 1..8, masked otherwise. */
  function CollapseStat(d: int, stat: Kernel -> real): (r: Masked)
    ensures r.NoData? <==> !(1 <= d <= 8)
    ensures 1 <= d <= 8 ==> r == Value(stat(KernelFor(d)))
  {
    var stack := BandStack(stat);
    var keep := DirectionMask(d);
    DirectionMaskCount(d);
    if Count(keep) == 0 then NoData
    else
      CompressSingle(stack, keep, d - 1);
      BandsFollowDirections(d - 1);
      assert Sum([stack[d - 1]]) == stack[d - 1];
      Value(Sum(Compress(stack, keep)))
  }

  /** `directions.eq(b + 1)` for the eight bands. */
  function DirectionMask(d: int): (keep: seq<bool>)
    ensures |keep| == 8
    ensures forall b :: 0 <= b < 8 ==> (keep[b] <==> d == b + 1)
  {
    seq(8, b requires 0 <= b < 8 => d == b + 1)
  }

  /** Exactly one band is unmasked when d is a direction in 1..8, and none
      otherwise. */
  lemma DirectionMaskCount(d: int)
    ensures Count(DirectionMask(d)) == if 1 <= d <= 8 then 1 else 0
  {
    if 1 <= d <= 8 {
      CompressSingle(DirectionMask(d), DirectionMask(d), d - 1);
    }
  }

  /** The nine ratios variance / mean² of the sampled windows. */
  function NoiseRatios(v: seq<real>, m: seq<real>): (r: seq<real>)
    requires |v| == 9 && |m| == 9
    requires forall k :: 0 <= k < 9 ==> m[k] != 0.0
    ensures |r| == 9
    ensures forall k :: 0 <= k < 9 ==> r[k] * (m[k] * m[k]) == v[k]
  {
    seq(9, k requires 0 <= k < 9 => v[k] / (m[k] * m[k]))
  }

  /** The local noise estimate: the mean of the five smallest of the nine
      ratios. It lies between the smallest and the fifth-smallest ratio and
      does not exceed the mean of all nine. */
  function SigmaV(ratios: seq<real>): (s: real)
    requires |ratios| == 9
    ensures MinOf(ratios) <= s <= Sort(ratios)[4]
    ensures s <= Sum(ratios) / 9.0
  {
    var sorted := Sort(ratios);
    SigmaVBounds(ratios, sorted);
    Sum(sorted[..5]) / 5.0
  }

  lemma SigmaVBounds(ratios: seq<real>, sorted: seq<real>)
    requires |ratios| == 9 && sorted == Sort(ratios)
    ensures MinOf(ratios) <= Sum(sorted[..5]) / 5.0 <= sorted[4]
    ensures Sum(sorted[..5]) / 5.0 <= Sum(ratios) / 9.0
  {
    SortFirst(ratios);
    SortSum(ratios);
    SortedSplit(sorted);
    MeanOfLowest(Sum(sorted[..5]), Sum(sorted[5..]), sorted[0], sorted[4]);
  }

  /** The five lowest of nine sorted values sum to between 5·s[0] and
      5·s[4]; the four highest to at least 4·s[4]. */
  lemma SortedSplit(sorted: seq<real>)
    requires |sorted| == 9 && Sorted(sorted)
    ensures 5.0 * sorted[0] <= Sum(sorted[..5]) <= 5.0 * sorted[4]
    ensures 4.0 * sorted[4] <= Sum(sorted[5..])
    ensures Sum(sorted) == Sum(sorted[..5]) + Sum(sorted[5..])
  {
    var low, high := sorted[..5], sorted[5..];
    SumBounds(low, sorted[0], sorted[4]);
    SumBounds(high, sorted[4], sorted[8]);
    assert sorted == low + high;
    SumAppend(low, high);
  }

  lemma MeanOfLowest(s5: real, s4: real, lo: real, mid: real)
    requires 5.0 * lo <= s5 <= 5.0 * mid
    requires 4.0 * mid <= s4
    ensures lo <= s5 / 5.0 <= mid
    ensures s5 / 5.0 <= (s5 + s4) / 9.0
  {
  }

  /** The signal variance estimate, with no clamp at 0. */
  function VarX(dirMean: real, dirVar: real, sigmaV: real): real
    requires sigmaV != -1.0
  {
    (dirVar - dirMean * dirMean * sigmaV) / (sigmaV + 1.0)
  }

  /** The MMSE gain b = varX / dirVar. */
  function Gain(dirMean: real, dirVar: real, sigmaV: real): real
    requires sigmaV != -1.0 && dirVar != 0.0
  {
    VarX(dirMean, dirVar, sigmaV) / dirVar
  }

  /** The filtered value: the directional mean moved towards the pixel by
      the gain. Without noise it is the pixel itself. */
  function MmseBlend(img: real, dirMean: real, dirVar: real, sigmaV: real): (r: real)
    requires sigmaV != -1.0 && dirVar != 0.0
    ensures sigmaV == 0.0 ==> r == img
    ensures img == dirMean ==> r == dirMean
  {
    NoNoiseGain(dirMean, dirVar, sigmaV);
    dirMean + Gain(dirMean, dirVar, sigmaV) * (img - dirMean)
  }

  lemma NoNoiseGain(dirMean: real, dirVar: real, sigmaV: real)
    requires sigmaV != -1.0 && dirVar != 0.0
    ensures sigmaV == 0.0 ==> Gain(dirMean, dirVar, sigmaV) == 1.0
  {
    if sigmaV == 0.0 {
      assert VarX(dirMean, dirVar, sigmaV) == dirVar;
      DivideSelf(dirVar);
    }
  }

  /** With non-negative noise and positive variance the gain is at most 1,
      and it is negative exactly when dirMean²·sigmaV exceeds the variance. */
  lemma GainBounds(dirMean: real, dirVar: real, sigmaV: real)
    requires 0.0 <= sigmaV && 0.0 < dirVar
    ensures Gain(dirMean, dirVar, sigmaV) <= 1.0
    ensures Gain(dirMean, dirVar, sigmaV) < 0.0 <==> dirVar < dirMean * dirMean * sigmaV
  {
    var noise := dirMean * dirMean * sigmaV;
    assert 0.0 <= noise;
    var x := VarX(dirMean, dirVar, sigmaV);
    assert x <= dirVar by {
      assert x * (sigmaV + 1.0) == dirVar - noise;
      assert dirVar - noise <= dirVar * (sigmaV + 1.0);
    }
    assert x < 0.0 <==> dirVar - noise < 0.0 by {
      assert x * (sigmaV + 1.0) == dirVar - noise;
    }
    QuotientBounds(x, dirVar);
  }

  lemma QuotientBounds(x: real, y: real)
    requires 0.0 < y && x <= y
    ensures x / y <= 1.0
    ensures x / y < 0.0 <==> x < 0.0
  {
    assert x / y * y == x;
  }

  /** The blend is the convex combination of pixel and mean when the gain is
      in [0, 1]. */
  lemma BlendBetween(img: real, dirMean: real, dirVar: real, sigmaV: real)
    requires sigmaV != -1.0 && dirVar != 0.0
    requires 0.0 <= Gain(dirMean, dirVar, sigmaV) <= 1.0
    ensures var r := MmseBlend(img, dirMean, dirVar, sigmaV);
      if img <= dirMean then img <= r <= dirMean else dirMean <= r <= img
  {
    var b := Gain(dirMean, dirVar, sigmaV);
    var r := MmseBlend(img, dirMean, dirVar, sigmaV);
    assert r - dirMean == b * (img - dirMean);
    ScaledStep(b, img - dirMean);
  }

  lemma ScaledStep(b: real, t: real)
    requires 0.0 <= b <= 1.0
    ensures if t <= 0.0 then t <= b * t <= 0.0 else 0.0 <= b * t <= t
  {
    if t <= 0.0 {
      assert (1.0 - b) * t <= 0.0;
    } else {
      assert 0.0 <= (1.0 - b) * t;
    }
  }

  /** Without the clamp of varX at 0, a negative gain puts the result on the
      far side of the directional mean from the pixel. */
  lemma NegativeGainOvershoots(img: real, dirMean: real, dirVar: real, sigmaV: real)
    requires sigmaV != -1.0 && dirVar != 0.0
    requires Gain(dirMean, dirVar, sigmaV) < 0.0
    ensures var r := MmseBlend(img, dirMean, dirVar, sigmaV);
      (img > dirMean ==> r < dirMean) && (img < dirMean ==> r > dirMean)
  {
    var b := Gain(dirMean, dirVar, sigmaV);
    var r := MmseBlend(img, dirMean, dirVar, sigmaV);
    assert r - dirMean == b * (img - dirMean);
    if img > dirMean {
      assert b * (img - dirMean) < 0.0;
    } else if img < dirMean {
      assert b * (img - dirMean) > 0.0;
    }
  }

  /** The inputs of one pixel: its value, its nine sampled means and
      variances, and the directional mean and variance of every kernel. */
  datatype PixelInputs = PixelInputs(
    img: real, means: seq<real>, vars: seq<real>,
    dirMean: Kernel -> real, dirVar: Kernel -> real)

  /** What the source needs to compute without dividing by zero: non-zero
      sampled means, a noise estimate other than −1, and a non-zero
      directional variance for the direction chosen. */
  predicate Filterable(x: PixelInputs)
  {
    && |x.means| == 9 && |x.vars| == 9
    && (forall k :: 0 <= k < 9 ==> x.means[k] != 0.0)
    && SigmaV(NoiseRatios(x.vars, x.means)) != -1.0
    && (1 <= CollapseDirection(x.means) <= 8 ==> x.dirVar(KernelFor(CollapseDirection(x.means))) != 0.0)
  }

  /** The filtered value of one pixel: defined exactly when the direction
      map holds a valid direction, and then the MMSE blend over that
      direction's kernel. */
  function FilterPixel(x: PixelInputs): (r: Masked)
    requires Filterable(x)
    ensures var d := CollapseDirection(x.means);
      && (r.Value? <==> 1 <= d <= 8)
      && (r.Value? ==>
            var k := KernelFor(d);
            var sigma := SigmaV(NoiseRatios(x.vars, x.means));
            && r.v == MmseBlend(x.img, x.dirMean(k), x.dirVar(k), sigma))
  {
    var d := CollapseDirection(x.means);
    var mean := CollapseStat(d, x.dirMean);
    var variance := CollapseStat(d, x.dirVar);
    var ratios := NoiseRatios(x.vars, x.means);
    var sigma := SigmaV(ratios);
    if mean.NoData? || variance.NoData? then NoData
    else Value(MmseBlend(x.img, mean.v, variance.v, sigma))
  }

  /** A homogeneous neighbourhood, whose nine sampled means are equal, is
      masked by the filter rather than passed through. */
  lemma HomogeneousMasked(x: PixelInputs)
    requires Filterable(x)
    requires forall k :: 0 <= k < 9 ==> x.means[k] == x.means[Centre]
    ensures FilterPixel(x) == NoData
  {
    ConstantSample(x.means);
  }
}

/**
 STARFM (Spatial and Temporal Adaptive Reflectance Fusion Model), the
 per-window fusion of `starfm-python/starfm/starfm.py`: a fine image at t0
 and coarse images at t0 and t1 give a predicted fine image at t1.

 For every pixel the driver cuts a (2h+1)×(2h+1) window out of the three
 images padded with `maskVal`, measures spectral (fine vs coarse) and
 temporal (coarse t1 vs coarse t0) differences, selects similar,
 high-quality neighbours, weighs them by inverse combined distance and
 predicts the fine value at t1 as the weighted sum of the neighbours'
 candidates `c1 + f0 - c0`; with no neighbour selected it falls back to the
 centre pixel's own candidate.

 Two behaviours of the source are kept as written: the centre spectral and
 temporal differences are read at window cell (h+1, h+1), one cell down
 and right of the centre pixel (h, h); and a genuine pixel equal to
 `maskVal` is treated like padding.
 */
module Starfm {
  import opened Reals
  import opened Grids

  datatype Error = IndexError
  datatype Result<T> = Ok(value: T) | Err(error: Error)

  /** A window's flattened per-cell difference and the value read at one designated cell. */
  datatype Difference = Difference(flat: seq<real>, centre: real)

  /** Cell-wise |a - b| of two n×n windows. */
  function AbsDiffGrid(a: seq<seq<real>>, b: seq<seq<real>>, n: nat): (d: seq<seq<real>>)
    requires IsGrid(a, n, n) && IsGrid(b, n, n)
    ensures IsGrid(d, n, n)
    ensures forall i, j :: 0 <= i < n && 0 <= j < n ==> d[i][j] == Abs(a[i][j] - b[i][j])
  {
    seq(n, i requires 0 <= i < n => seq(n, j requires 0 <= j < n => Abs(a[i][j] - b[i][j])))
  }

  /** A lower bound on every cell is a lower bound on every flattened entry. */
  lemma RavelLowerBound(d: seq<seq<real>>, lo: real)
    requires forall i, j :: 0 <= i < |d| && 0 <= j < |d[i]| ==> lo <= d[i][j]
    ensures forall k :: 0 <= k < |Ravel(d)| ==> lo <= Ravel(d)[k]
  {
    forall k | 0 <= k < |Ravel(d)|
      ensures lo <= Ravel(d)[k]
    {
      var x := Ravel(d)[k];
      RavelMembers(d, x);
      var i :| 0 <= i < |d| && x in d[i];
      var j :| 0 <= j < |d[i]| && d[i][j] == x;
    }
  }

  /** |a - b| cell by cell, flattened, with the value at cell (r, c); reading
      outside the window is numpy's IndexError. The spectral difference is
      this for (fine t0, coarse t0), the temporal difference for (coarse t1,
      coarse t0). */
  function WindowDifference(a: seq<seq<real>>, b: seq<seq<real>>, n: nat, r: nat, c: nat): (res: Result<Difference>)
    requires IsGrid(a, n, n) && IsGrid(b, n, n)
    ensures res.Ok? <==> r < n && c < n
    ensures res.Ok? ==> |res.value.flat| == Area(n, n)
    ensures res.Ok? ==> forall k :: 0 <= k < |res.value.flat| ==> 0.0 <= res.value.flat[k]
    ensures res.Ok? ==> Area(r, n) + c < |res.value.flat| && res.value.centre == res.value.flat[Area(r, n) + c]
    ensures res.Ok? ==> res.value.centre == Abs(a[r][c] - b[r][c])
  {
    var d := AbsDiffGrid(a, b, n);
    RavelLength(d, n, n);
    RavelLowerBound(d, 0.0);
    if r < n && c < n then
      RavelIndex(d, n, n, r, c);
      Ok(Difference(Ravel(d), d[r][c]))
    else
      Err(IndexError)
  }

  /** The square root is left uninterpreted: any function that is
      non-negative on non-negative arguments and maps 0 to 0. */
  ghost predicate IsRoot(sqrt: real -> real)
  {
    sqrt(0.0) == 0.0 && forall x :: 0.0 <= x ==> 0.0 <= sqrt(x)
  }

  function Square(x: real): (r: real)
    ensures 0.0 <= r
  {
    x * x
  }

  /** Distance term of window cell (i, j): the Euclidean distance to the
      centre n/2 scaled by the spatial impact factor, plus one. */
  function SpatialEntry(n: nat, i: nat, j: nat, sif: real, sqrt: real -> real): real
    requires sif != 0.0
  {
    var di := sqrt(Square((i - n / 2) as real));
    var dj := sqrt(Square((j - n / 2) as real));
    sqrt(Square(0.0 - di) + Square(0.0 - dj)) / sif + 1.0
  }

  /** The n×n grid of spatial distance terms. */
  function SpatialGrid(n: nat, sif: real, sqrt: real -> real): (g: seq<seq<real>>)
    requires sif != 0.0
    ensures IsGrid(g, n, n)
  {
    seq(n, i requires 0 <= i < n => seq(n, j requires 0 <= j < n => SpatialEntry(n, i, j, sif, sqrt)))
  }

  /** With a positive impact factor every term is at least 1; the centre term is exactly 1. */
  lemma SpatialGridBounds(n: nat, sif: real, sqrt: real -> real)
    requires sif != 0.0
    requires IsRoot(sqrt)
    ensures 0.0 < sif ==> forall i, j :: 0 <= i < n && 0 <= j < n ==> 1.0 <= SpatialGrid(n, sif, sqrt)[i][j]
    ensures 0 < n ==> SpatialGrid(n, sif, sqrt)[n / 2][n / 2] == 1.0
  {
    var g := SpatialGrid(n, sif, sqrt);
    if 0.0 < sif {
      forall i, j | 0 <= i < n && 0 <= j < n
        ensures 1.0 <= g[i][j]
      {
        var di := sqrt(Square((i - n / 2) as real));
        var dj := sqrt(Square((j - n / 2) as real));
        assert 0.0 <= sqrt(Square(0.0 - di) + Square(0.0 - dj));
      }
    }
  }

  /** Flattened relative spatial distance of every cell of an n×n window. */
  function SpatialDistance(n: nat, sif: real, sqrt: real -> real): (d: seq<real>)
    requires sif != 0.0
    requires IsRoot(sqrt)
    ensures |d| == Area(n, n)
    ensures 0.0 < sif ==> forall k :: 0 <= k < |d| ==> 1.0 <= d[k]
    ensures 0 < n ==> Area(n / 2, n) + n / 2 < |d| && d[Area(n / 2, n) + n / 2] == 1.0
  {
    var g := SpatialGrid(n, sif, sqrt);
    RavelLength(g, n, n);
    SpatialGridBounds(n, sif, sqrt);
    RavelBounds(g, n, sif);
    Ravel(g)
  }

  lemma RavelBounds(g: seq<seq<real>>, n: nat, sif: real)
    requires IsGrid(g, n, n)
    requires 0.0 < sif ==> forall i, j :: 0 <= i < n && 0 <= j < n ==> 1.0 <= g[i][j]
    ensures 0.0 < sif ==> forall k :: 0 <= k < |Ravel(g)| ==> 1.0 <= Ravel(g)[k]
    ensures 0 < n ==> Area(n / 2, n) + n / 2 < |Ravel(g)| && Ravel(g)[Area(n / 2, n) + n / 2] == g[n / 2][n / 2]
  {
    if 0.0 < sif {
      RavelLowerBound(g, 1.0);
    }
    if 0 < n {
      RavelIndex(g, n, n, n / 2, n / 2);
    }
  }

  /** Selection of similar, high-quality neighbours: the numpy 0/1 products
      `window_similar * spectral_filter [* tmp_filter] * mask == 1`. */
  function SimilarAndFiltered(
    threshold: real, fineWin: seq<real>, centrePixel: real,
    centreSpecDiff: real, centreTmpDiff: real,
    specDiff: seq<real>, tmpDiff: seq<real>, tmpDiffFlag: bool,
    mask: seq<bool>, specUnc: real, tmpUnc: real): (sel: seq<bool>)
    requires |specDiff| == |fineWin| && |tmpDiff| == |fineWin| && |mask| == |fineWin|
    ensures |sel| == |fineWin|
    ensures forall k :: 0 <= k < |sel| ==>
      (sel[k] <==>
        && mask[k]
        && Abs(centrePixel - fineWin[k]) < threshold
        && specDiff[k] < centreSpecDiff + specUnc
        && (tmpDiffFlag ==> tmpDiff[k] < centreTmpDiff + tmpUnc))
  {
    seq(|fineWin|, k requires 0 <= k < |fineWin| =>
      Selected(threshold, fineWin[k], centrePixel, centreSpecDiff, centreTmpDiff,
               specDiff[k], tmpDiff[k], tmpDiffFlag, mask[k], specUnc, tmpUnc))
  }

  /** The numpy product of one neighbour's 0/1 tests equals 1. */
  function Selected(
    threshold: real, fine: real, centrePixel: real,
    centreSpecDiff: real, centreTmpDiff: real,
    specDiff: real, tmpDiff: real, tmpDiffFlag: bool,
    valid: bool, specUnc: real, tmpUnc: real): bool
  {
    var similar := Indicator(Abs(centrePixel - fine) < threshold);
    var spectral := Indicator(specDiff < centreSpecDiff + specUnc);
    var filtered :=
      if tmpDiffFlag then similar * spectral * Indicator(tmpDiff < centreTmpDiff + tmpUnc)
      else similar * spectral;
    filtered * Indicator(valid) == 1
  }

  /** Adding the temporal test can only drop neighbours. */
  lemma TemporalTestNarrows(
    threshold: real, fineWin: seq<real>, centrePixel: real,
    centreSpecDiff: real, centreTmpDiff: real,
    specDiff: seq<real>, tmpDiff: seq<real>,
    mask: seq<bool>, specUnc: real, tmpUnc: real, k: nat)
    requires |specDiff| == |fineWin| && |tmpDiff| == |fineWin| && |mask| == |fineWin|
    requires k < |fineWin|
    ensures SimilarAndFiltered(threshold, fineWin, centrePixel, centreSpecDiff, centreTmpDiff,
                               specDiff, tmpDiff, true, mask, specUnc, tmpUnc)[k]
        ==> SimilarAndFiltered(threshold, fineWin, centrePixel, centreSpecDiff, centreTmpDiff,
                               specDiff, tmpDiff, false, mask, specUnc, tmpUnc)[k]
  {
  }

  /** Every entry plus one. */
  function AddOne(xs: seq<real>): (ys: seq<real>)
    ensures |ys| == |xs|
    ensures forall i :: 0 <= i < |ys| ==> ys[i] == xs[i] + 1.0
  {
    seq(|xs|, i requires 0 <= i < |xs| => xs[i] + 1.0)
  }

  /** Every entry of a compression of positive values is positive. */
  lemma CompressPositive(xs: seq<real>, sel: seq<bool>)
    requires |xs| == |sel|
    requires forall i :: 0 <= i < |xs| ==> 0.0 < xs[i]
    ensures forall i :: 0 <= i < Count(sel) ==> 0.0 < Compress(xs, sel)[i]
  {
    var ys := Compress(xs, sel);
    forall i | 0 <= i < |ys|
      ensures 0.0 < ys[i]
    {
      assert ys[i] in ys;
    }
  }

  /** The combined distance (spectral+1)·spatial[·(temporal+1)] of each selected neighbour. */
  function CombinedDistance(specDiff: seq<real>, tmpDiff: seq<real>, tmpDiffFlag: bool, spatDist: seq<real>, sel: seq<bool>): (d: seq<real>)
    requires |specDiff| == |sel| && |tmpDiff| == |sel| && |spatDist| == |sel|
    requires forall k :: 0 <= k < |sel| ==> 0.0 <= specDiff[k] && 0.0 <= tmpDiff[k] && 0.0 < spatDist[k]
    ensures |d| == Count(sel)
    ensures forall i :: 0 <= i < |d| ==> 0.0 < d[i]
  {
    var specDist := Compress(AddOne(specDiff), sel);
    var spat := Compress(spatDist, sel);
    CompressPositive(AddOne(specDiff), sel);
    CompressPositive(spatDist, sel);
    if tmpDiffFlag then
      var tmpDist := Compress(AddOne(tmpDiff), sel);
      CompressPositive(AddOne(tmpDiff), sel);
      Mul(Mul(specDist, spat), tmpDist)
    else
      Mul(specDist, spat)
  }

  /** Entry t of the combined distance belongs to the t-th selected neighbour
      k of the window: (specDiff[k] + 1)·spatDist[k], times (tmpDiff[k] + 1)
      when the temporal difference takes part. */
  lemma CombinedDistanceAt(specDiff: seq<real>, tmpDiff: seq<real>, tmpDiffFlag: bool, spatDist: seq<real>, sel: seq<bool>, t: nat)
    requires |specDiff| == |sel| && |tmpDiff| == |sel| && |spatDist| == |sel|
    requires forall k :: 0 <= k < |sel| ==> 0.0 <= specDiff[k] && 0.0 <= tmpDiff[k] && 0.0 < spatDist[k]
    requires t < Count(sel)
    ensures var k := SelIndex(sel, t);
      CombinedDistance(specDiff, tmpDiff, tmpDiffFlag, spatDist, sel)[t]
        == (specDiff[k] + 1.0) * spatDist[k] * (if tmpDiffFlag then tmpDiff[k] + 1.0 else 1.0)
  {
    var k := SelIndex(sel, t);
    var a, b, c := Compress(AddOne(specDiff), sel), Compress(spatDist, sel), Compress(AddOne(tmpDiff), sel);
    CombinedDistanceIsProduct(specDiff, tmpDiff, tmpDiffFlag, spatDist, sel);
    CompressAt(AddOne(specDiff), sel, t);
    CompressAt(spatDist, sel, t);
    CompressAt(AddOne(tmpDiff), sel, t);
    ProductAt(a, b, c, tmpDiffFlag, CombinedDistance(specDiff, tmpDiff, tmpDiffFlag, spatDist, sel),
              t, specDiff[k] + 1.0, spatDist[k], tmpDiff[k] + 1.0);
  }

  /** The combined distance is the product of the compressed distances. */
  lemma CombinedDistanceIsProduct(specDiff: seq<real>, tmpDiff: seq<real>, tmpDiffFlag: bool, spatDist: seq<real>, sel: seq<bool>)
    requires |specDiff| == |sel| && |tmpDiff| == |sel| && |spatDist| == |sel|
    requires forall k :: 0 <= k < |sel| ==> 0.0 <= specDiff[k] && 0.0 <= tmpDiff[k] && 0.0 < spatDist[k]
    ensures var a, b, c := Compress(AddOne(specDiff), sel), Compress(spatDist, sel), Compress(AddOne(tmpDiff), sel);
      CombinedDistance(specDiff, tmpDiff, tmpDiffFlag, spatDist, sel) == if tmpDiffFlag then Mul(Mul(a, b), c) else Mul(a, b)
  {
  }

  /** Entry t of the (two- or three-way) product of the compressed distances. */
  lemma ProductAt(a: seq<real>, b: seq<real>, c: seq<real>, flag: bool, d: seq<real>, t: nat, x: real, y: real, z: real)
    requires |b| == |a| && |c| == |a| && t < |a|
    requires d == if flag then Mul(Mul(a, b), c) else Mul(a, b)
    requires a[t] == x && b[t] == y && c[t] == z
    ensures d[t] == x * y * (if flag then z else 1.0)
  {
  }

  function Reciprocal(xs: seq<real>): (ys: seq<real>)
    requires forall i :: 0 <= i < |xs| ==> xs[i] != 0.0
    ensures |ys| == |xs|
    ensures forall i :: 0 <= i < |ys| ==> ys[i] == 1.0 / xs[i]
  {
    seq(|xs|, i requires 0 <= i < |xs| => 1.0 / xs[i])
  }

  /** Normalised inverse-distance weights, one per selected neighbour. With
      nothing selected numpy divides an empty array by 0 and gets an empty array. */
  function Weights(specDiff: seq<real>, tmpDiff: seq<real>, tmpDiffFlag: bool, spatDist: seq<real>, sel: seq<bool>): (w: seq<real>)
    requires |specDiff| == |sel| && |tmpDiff| == |sel| && |spatDist| == |sel|
    requires forall k :: 0 <= k < |sel| ==> 0.0 <= specDiff[k] && 0.0 <= tmpDiff[k] && 0.0 < spatDist[k]
    ensures |w| == Count(sel)
    ensures forall i :: 0 <= i < |w| ==> 0.0 < w[i] <= 1.0
    ensures 0 < |w| ==> Sum(w) == 1.0
  {
    var d := CombinedDistance(specDiff, tmpDiff, tmpDiffFlag, spatDist, sel);
    var reversed := Reciprocal(d);
    ReciprocalPositive(d);
    Normalise(reversed)
  }

  lemma ReciprocalPositive(d: seq<real>)
    requires forall i :: 0 <= i < |d| ==> 0.0 < d[i]
    ensures forall i :: 0 <= i < |d| ==> 0.0 < Reciprocal(d)[i]
  {
  }

  /** Each weight is inversely proportional to its neighbour's combined
      distance: w[i] = (1/d[i]) / Σ(1/d) for every selected neighbour i. */
  lemma WeightsInverseDistance(specDiff: seq<real>, tmpDiff: seq<real>, tmpDiffFlag: bool, spatDist: seq<real>, sel: seq<bool>, i: nat)
    requires |specDiff| == |sel| && |tmpDiff| == |sel| && |spatDist| == |sel|
    requires forall k :: 0 <= k < |sel| ==> 0.0 <= specDiff[k] && 0.0 <= tmpDiff[k] && 0.0 < spatDist[k]
    requires i < Count(sel)
    ensures var d := CombinedDistance(specDiff, tmpDiff, tmpDiffFlag, spatDist, sel);
      0.0 < Sum(Reciprocal(d))
      && Weights(specDiff, tmpDiff, tmpDiffFlag, spatDist, sel)[i] == (1.0 / d[i]) / Sum(Reciprocal(d))
  {
    var d := CombinedDistance(specDiff, tmpDiff, tmpDiffFlag, spatDist, sel);
    ReciprocalPositive(d);
    NormaliseEntry(Reciprocal(d), i);
  }

  /** Per-neighbour candidate (c1 + f0) - c0. */
  function Candidates(fine: seq<real>, coarse0: seq<real>, coarse1: seq<real>): (x: seq<real>)
    requires |coarse0| == |fine| && |coarse1| == |fine|
    ensures |x| == |fine|
  {
    seq(|fine|, i requires 0 <= i < |fine| => (coarse1[i] + fine[i]) - coarse0[i])
  }

  /** The candidates of the selected neighbours, in window order. */
  function SelectedCandidates(fineWin: seq<real>, coarse0Win: seq<real>, coarse1Win: seq<real>, sel: seq<bool>): (x: seq<real>)
    requires |fineWin| == |sel| && |coarse0Win| == |sel| && |coarse1Win| == |sel|
    ensures |x| == Count(sel)
  {
    Candidates(Compress(fineWin, sel), Compress(coarse0Win, sel), Compress(coarse1Win, sel))
  }

  /** Entry t of the candidates is the one of the t-th selected neighbour k:
      coarse1[k] + fine[k] - coarse0[k]. */
  lemma SelectedCandidatesAt(fineWin: seq<real>, coarse0Win: seq<real>, coarse1Win: seq<real>, sel: seq<bool>, t: nat)
    requires |fineWin| == |sel| && |coarse0Win| == |sel| && |coarse1Win| == |sel|
    requires t < Count(sel)
    ensures var k := SelIndex(sel, t);
      SelectedCandidates(fineWin, coarse0Win, coarse1Win, sel)[t] == (coarse1Win[k] + fineWin[k]) - coarse0Win[k]
  {
    CompressAt(fineWin, sel, t);
    CompressAt(coarse0Win, sel, t);
    CompressAt(coarse1Win, sel, t);
  }

  lemma ConvexBound(w: seq<real>, x: seq<real>)
    requires |w| == |x|
    ensures 0 < |w| && (forall i :: 0 <= i < |w| ==> 0.0 <= w[i]) && Sum(w) == 1.0 ==>
      MinOf(x) <= Dot(w, x) <= MaxOf(x)
  {
    if 0 < |w| && (forall i :: 0 <= i < |w| ==> 0.0 <= w[i]) && Sum(w) == 1.0 {
      ConvexCombination(w, x);
    }
  }

  /** Weighted prediction Σ w·(c1 + f0 - c0) over the selected neighbours;
      with convex weights it lies between the smallest and largest candidate. */
  function PredictWeighted(w: seq<real>, fineWin: seq<real>, coarse0Win: seq<real>, coarse1Win: seq<real>, sel: seq<bool>): (r: real)
    requires |fineWin| == |sel| && |coarse0Win| == |sel| && |coarse1Win| == |sel|
    requires |w| == Count(sel)
    ensures 0 < |w| && (forall i :: 0 <= i < |w| ==> 0.0 <= w[i]) && Sum(w) == 1.0 ==>
      var x := SelectedCandidates(fineWin, coarse0Win, coarse1Win, sel);
      MinOf(x) <= r <= MaxOf(x)
  {
    var x := SelectedCandidates(fineWin, coarse0Win, coarse1Win, sel);
    ConvexBound(w, x);
    Dot(w, x)
  }

  /** Local prediction from the centre pixel alone: it carries the coarse
      temporal change over to the fine pixel, and is the weighted prediction
      with the centre as sole neighbour of weight 1. */
  function PredictUnweighted(fineCentre: real, coarse0Centre: real, coarse1Centre: real): (r: real)
    ensures r - fineCentre == coarse1Centre - coarse0Centre
    ensures r == PredictWeighted([1.0], [fineCentre], [coarse0Centre], [coarse1Centre], [true])
  {
    assert Compress([fineCentre], [true]) == [fineCentre];
    assert Compress([coarse0Centre], [true]) == [coarse0Centre];
    assert Compress([coarse1Centre], [true]) == [coarse1Centre];
    (coarse1Centre + fineCentre) - coarse0Centre
  }

  /** Parameters of one run; `threshold` is the scene's spectral similarity
      threshold (twice the standard deviation of the fine image over the number of classes). */
  datatype Params = Params(h: nat, maskVal: real, tmpDiffFlag: bool, specUnc: real, tmpUnc: real, threshold: real)

  /** The fine t0, coarse t0 and coarse t1 windows of one pixel. */
  datatype Windows = Windows(fine: seq<seq<real>>, coarse0: seq<seq<real>>, coarse1: seq<seq<real>>)

  predicate WellSized(win: Windows, h: nat)
  {
    IsGrid(win.fine, 2 * h + 1, 2 * h + 1)
    && IsGrid(win.coarse0, 2 * h + 1, 2 * h + 1)
    && IsGrid(win.coarse1, 2 * h + 1, 2 * h + 1)
  }

  /** The differences and the neighbour selection of one window. */
  datatype Analysis = Analysis(spec: Difference, tmp: Difference, sel: seq<bool>)

  /** The padding mask `fine != maskVal`, flattened. */
  function ValidMask(fine: seq<real>, maskVal: real): (mask: seq<bool>)
    ensures |mask| == |fine|
    ensures forall k :: 0 <= k < |mask| ==> (mask[k] <==> fine[k] != maskVal)
  {
    seq(|fine|, k requires 0 <= k < |fine| => fine[k] != maskVal)
  }

  /** Sizes and signs an analysis of a (2h+1)×(2h+1) window has: one flag,
      one spectral and one temporal difference per cell, all differences
      non-negative. */
  predicate AnalysisFits(win: Windows, p: Params, a: Analysis)
    requires WellSized(win, p.h)
  {
    var n := 2 * p.h + 1;
    && |a.sel| == Area(n, n)
    && |a.spec.flat| == |a.sel|
    && |a.tmp.flat| == |a.sel|
    && |Ravel(win.fine)| == |a.sel|
    && |Ravel(win.coarse0)| == |a.sel|
    && |Ravel(win.coarse1)| == |a.sel|
    && (forall k :: 0 <= k < |a.sel| ==> 0.0 <= a.spec.flat[k] && 0.0 <= a.tmp.flat[k])
  }

  /** The spectral (fine − coarse t0) and temporal (coarse t1 − coarse t0)
      differences of one window, centred on cell (h+1, h+1). */
  function Differences(win: Windows, p: Params): (res: Result<(Difference, Difference)>)
    requires WellSized(win, p.h)
    ensures res.Ok? <==> 1 <= p.h
    ensures res.Ok? ==>
      var (spec, tmp) := res.value;
      && |spec.flat| == Area(2 * p.h + 1, 2 * p.h + 1) && |tmp.flat| == |spec.flat|
      && (forall k :: 0 <= k < |spec.flat| ==> 0.0 <= spec.flat[k] && 0.0 <= tmp.flat[k])
  ensures res.Ok? ==>
    && res.value.0.centre == Abs(win.fine[p.h + 1][p.h + 1] - win.coarse0[p.h + 1][p.h + 1])
    && res.value.1.centre == Abs(win.coarse1[p.h + 1][p.h + 1] - win.coarse0[p.h + 1][p.h + 1])
  {
    var n := 2 * p.h + 1;
    var spec := WindowDifference(win.fine, win.coarse0, n, p.h + 1, p.h + 1);
    var tmp := WindowDifference(win.coarse1, win.coarse0, n, p.h + 1, p.h + 1);
    if spec.Err? || tmp.Err? then Err(IndexError) else Ok((spec.value, tmp.value))
  }

  /** Differences and selection of one window. The centre read fails
      exactly when h = 0. */
  function Analyse(win: Windows, p: Params): (res: Result<Analysis>)
    requires WellSized(win, p.h)
    ensures res.Ok? <==> 1 <= p.h
    ensures res.Ok? ==> AnalysisFits(win, p, res.value)
  {
    var n := 2 * p.h + 1;
    RavelLength(win.fine, n, n);
    RavelLength(win.coarse0, n, n);
    RavelLength(win.coarse1, n, n);
    var diffs := Differences(win, p);
    if diffs.Err? then Err(diffs.error)
    else
      var (spec, tmp) := diffs.value;
      var fine := Ravel(win.fine);
      var sel := SimilarAndFiltered(
        p.threshold, fine, win.fine[p.h][p.h], spec.centre, tmp.centre,
        spec.flat, tmp.flat, p.tmpDiffFlag, ValidMask(fine, p.maskVal), p.specUnc, p.tmpUnc);
      Ok(Analysis(spec, tmp, sel))
  }

  /** The centre differences are those of window cell (h+1, h+1), one
      down and one right of the centre pixel (h, h). */
  lemma AnalyseCentre(win: Windows, p: Params)
    requires WellSized(win, p.h) && 1 <= p.h
    ensures var a := Analyse(win, p).value;
      && a.spec.centre == Abs(win.fine[p.h + 1][p.h + 1] - win.coarse0[p.h + 1][p.h + 1])
      && a.tmp.centre == Abs(win.coarse1[p.h + 1][p.h + 1] - win.coarse0[p.h + 1][p.h + 1])
  {
  }

  /** Neighbour k is selected exactly when its fine value is not `maskVal`,
      it is spectrally similar to the centre pixel (h, h), and its spectral
      (and, with the flag, temporal) difference is below the centre
      difference plus the uncertainty. */
  lemma AnalyseSelection(win: Windows, p: Params, k: nat)
    requires WellSized(win, p.h) && 1 <= p.h
    requires k < Area(2 * p.h + 1, 2 * p.h + 1)
    ensures var a := Analyse(win, p).value;
      var fine := Ravel(win.fine);
      && k < |a.sel| && k < |fine| && k < |a.spec.flat| && k < |a.tmp.flat|
      && (a.sel[k] <==>
            && fine[k] != p.maskVal
            && Abs(win.fine[p.h][p.h] - fine[k]) < p.threshold
            && a.spec.flat[k] < a.spec.centre + p.specUnc
            && (p.tmpDiffFlag ==> a.tmp.flat[k] < a.tmp.centre + p.tmpUnc))
  {
  }

  /** The weighted prediction over the neighbours an analysis selected; it
      lies between the smallest and largest of their candidates. */
  function Fused(win: Windows, p: Params, a: Analysis, spatDist: seq<real>): (v: real)
    requires WellSized(win, p.h) && AnalysisFits(win, p, a)
    requires |spatDist| == |a.sel|
    requires forall k :: 0 <= k < |spatDist| ==> 0.0 < spatDist[k]
    requires 0 < Count(a.sel)
    ensures var x := SelectedCandidates(Ravel(win.fine), Ravel(win.coarse0), Ravel(win.coarse1), a.sel);
      MinOf(x) <= v <= MaxOf(x)
  {
    var w := Weights(a.spec.flat, a.tmp.flat, p.tmpDiffFlag, spatDist, a.sel);
    PredictWeighted(w, Ravel(win.fine), Ravel(win.coarse0), Ravel(win.coarse1), a.sel)
  }

  /** Prediction of one pixel: the weighted prediction when some neighbour
      is selected, otherwise the centre-only fallback. */
  function PixelPrediction(win: Windows, p: Params, spatDist: seq<real>): (res: Result<real>)
    requires WellSized(win, p.h)
    requires |spatDist| == Area(2 * p.h + 1, 2 * p.h + 1)
    requires forall k :: 0 <= k < |spatDist| ==> 0.0 < spatDist[k]
    ensures res.Ok? <==> 1 <= p.h
  {
    var h := p.h;
    var analysis := Analyse(win, p);
    if analysis.Err? then Err(analysis.error)
    else
      var a := analysis.value;
      if 0 < Count(a.sel) then Ok(Fused(win, p, a, spatDist))
      else
        Ok(PredictUnweighted(win.fine[h][h], win.coarse0[h][h], win.coarse1[h][h]))
  }

  /** The fallback is used exactly when no neighbour is selected; otherwise
      the prediction lies between the smallest and largest candidate of the
      selected neighbours. */
  lemma PixelPredictionCases(win: Windows, p: Params, spatDist: seq<real>)
    requires WellSized(win, p.h)
    requires |spatDist| == Area(2 * p.h + 1, 2 * p.h + 1)
    requires forall k :: 0 <= k < |spatDist| ==> 0.0 < spatDist[k]
    requires 1 <= p.h
    ensures
      var a := Analyse(win, p).value;
      var v := PixelPrediction(win, p, spatDist).value;
      var h := p.h;
      && (Count(a.sel) == 0 ==> v == PredictUnweighted(win.fine[h][h], win.coarse0[h][h], win.coarse1[h][h]))
      && (0 < Count(a.sel) ==>
            var x := SelectedCandidates(Ravel(win.fine), Ravel(win.coarse0), Ravel(win.coarse1), a.sel);
            MinOf(x) <= v <= MaxOf(x))
  {
  }

  /** The windows of original pixel (i, j), cut from the three images padded by h cells of `maskVal`. */
  function PixelWindows(fine: seq<seq<real>>, coarse0: seq<seq<real>>, coarse1: seq<seq<real>>,
                        rows: nat, cols: nat, p: Params, i: nat, j: nat): (win: Windows)
    requires IsGrid(fine, rows, cols) && IsGrid(coarse0, rows, cols) && IsGrid(coarse1, rows, cols)
    requires i < rows && j < cols
    ensures WellSized(win, p.h)
  {
    var h := p.h;
    Windows(
      Window(Pad(fine, rows, cols, h, p.maskVal), rows + 2 * h, cols + 2 * h, i + h, j + h, h),
      Window(Pad(coarse0, rows, cols, h, p.maskVal), rows + 2 * h, cols + 2 * h, i + h, j + h, h),
      Window(Pad(coarse1, rows, cols, h, p.maskVal), rows + 2 * h, cols + 2 * h, i + h, j + h, h))
  }

  /*
   The driver scans the padded images row by row and column by column and
   applies one per-pixel prediction to each window. The scan is stated for
   any per-pixel function `pixel` on well-sized windows; `Starfm` below
   instantiates it with `PixelPrediction`.
   */

  /** The results of `pixel` on the first n windows of row i, left to right,
      or the error of the first window that fails. */
  function RowPredictions(fine: seq<seq<real>>, coarse0: seq<seq<real>>, coarse1: seq<seq<real>>,
    rows: nat, cols: nat, p: Params, pixel: Windows --> Result<real>, i: nat, n: nat): (res: Result<seq<real>>)
    requires IsGrid(fine, rows, cols) && IsGrid(coarse0, rows, cols) && IsGrid(coarse1, rows, cols)
    requires forall win :: WellSized(win, p.h) ==> pixel.requires(win)
    requires i < rows && n <= cols
    ensures res.Ok? <==> forall j :: 0 <= j < n ==> pixel(PixelWindows(fine, coarse0, coarse1, rows, cols, p, i, j)).Ok?
    ensures res.Ok? ==> |res.value| == n
  {
    if n == 0 then Ok([])
    else
      var prefix := RowPredictions(fine, coarse0, coarse1, rows, cols, p, pixel, i, n - 1);
      var last := pixel(PixelWindows(fine, coarse0, coarse1, rows, cols, p, i, n - 1));
      if prefix.Err? then Err(prefix.error)
      else if last.Err? then Err(last.error)
      else Ok(prefix.value + [last.value])
  }

  /** The rows of the first n rows, top to bottom, or the error of the first row that fails. */
  function GridPredictions(fine: seq<seq<real>>, coarse0: seq<seq<real>>, coarse1: seq<seq<real>>,
    rows: nat, cols: nat, p: Params, pixel: Windows --> Result<real>, n: nat): (res: Result<seq<seq<real>>>)
    requires IsGrid(fine, rows, cols) && IsGrid(coarse0, rows, cols) && IsGrid(coarse1, rows, cols)
    requires forall win :: WellSized(win, p.h) ==> pixel.requires(win)
    requires n <= rows
    ensures res.Ok? <==> forall i, j :: 0 <= i < n && 0 <= j < cols ==>
      pixel(PixelWindows(fine, coarse0, coarse1, rows, cols, p, i, j)).Ok?
    ensures res.Ok? ==> IsGrid(res.value, n, cols)
  {
    if n == 0 then Ok([])
    else
      var prefix := GridPredictions(fine, coarse0, coarse1, rows, cols, p, pixel, n - 1);
      var row := RowPredictions(fine, coarse0, coarse1, rows, cols, p, pixel, n - 1, cols);
      if prefix.Err? then Err(prefix.error)
      else if row.Err? then Err(row.error)
      else Ok(prefix.value + [row.value])
  }

  /** A successful row holds, at every column, the result of `pixel` on that column's window. */
  lemma {:induction false} RowPredictionsPointwise(fine: seq<seq<real>>, coarse0: seq<seq<real>>, coarse1: seq<seq<real>>,
    rows: nat, cols: nat, p: Params, pixel: Windows --> Result<real>, i: nat, n: nat)
    requires IsGrid(fine, rows, cols) && IsGrid(coarse0, rows, cols) && IsGrid(coarse1, rows, cols)
    requires forall win :: WellSized(win, p.h) ==> pixel.requires(win)
    requires i < rows && n <= cols
    ensures var res := RowPredictions(fine, coarse0, coarse1, rows, cols, p, pixel, i, n);
      res.Ok? ==> forall j :: 0 <= j < n ==>
        pixel(PixelWindows(fine, coarse0, coarse1, rows, cols, p, i, j)) == Ok(res.value[j])
  {
    if n > 0 {
      RowPredictionsPointwise(fine, coarse0, coarse1, rows, cols, p, pixel, i, n - 1);
    }
  }

  /** A successful grid holds, at every pixel, the result of `pixel` on that pixel's window. */
  lemma {:induction false} GridPredictionsPointwise(fine: seq<seq<real>>, coarse0: seq<seq<real>>, coarse1: seq<seq<real>>,
    rows: nat, cols: nat, p: Params, pixel: Windows --> Result<real>, n: nat)
    requires IsGrid(fine, rows, cols) && IsGrid(coarse0, rows, cols) && IsGrid(coarse1, rows, cols)
    requires forall win :: WellSized(win, p.h) ==> pixel.requires(win)
    requires n <= rows
    ensures var res := GridPredictions(fine, coarse0, coarse1, rows, cols, p, pixel, n);
      res.Ok? ==> forall i, j :: 0 <= i < n && 0 <= j < cols ==>
        pixel(PixelWindows(fine, coarse0, coarse1, rows, cols, p, i, j)) == Ok(res.value[i][j])
  {
    if n > 0 {
      GridPredictionsPointwise(fine, coarse0, coarse1, rows, cols, p, pixel, n - 1);
      RowPredictionsPointwise(fine, coarse0, coarse1, rows, cols, p, pixel, n - 1, cols);
    }
  }

  /** The inner loop of the driver: row i, columns left to right, stopping at the first failure. */
  method PredictRow(fine: seq<seq<real>>, coarse0: seq<seq<real>>, coarse1: seq<seq<real>>,
    rows: nat, cols: nat, p: Params, pixel: Windows --> Result<real>, i: nat)
    returns (res: Result<seq<real>>)
    requires IsGrid(fine, rows, cols) && IsGrid(coarse0, rows, cols) && IsGrid(coarse1, rows, cols)
    requires forall win :: WellSized(win, p.h) ==> pixel.requires(win)
    requires i < rows
    ensures res == RowPredictions(fine, coarse0, coarse1, rows, cols, p, pixel, i, cols)
  {
    var h := p.h;
    var row: seq<real> := [];
    var c := h;
    while c < cols + h
      invariant h <= c <= cols + h
      invariant RowPredictions(fine, coarse0, coarse1, rows, cols, p, pixel, i, c - h) == Ok(row)
    {
      var pred := pixel(PixelWindows(fine, coarse0, coarse1, rows, cols, p, i, c - h));
      if pred.Err? {
        return Err(pred.error);
      }
      row := row + [pred.value];
      c := c + 1;
    }
    return Ok(row);
  }

  /** The outer loop of the driver: rows top to bottom, stopping at the first failure. */
  method PredictGrid(fine: seq<seq<real>>, coarse0: seq<seq<real>>, coarse1: seq<seq<real>>,
    rows: nat, cols: nat, p: Params, pixel: Windows --> Result<real>)
    returns (res: Result<seq<seq<real>>>)
    requires IsGrid(fine, rows, cols) && IsGrid(coarse0, rows, cols) && IsGrid(coarse1, rows, cols)
    requires forall win :: WellSized(win, p.h) ==> pixel.requires(win)
    ensures res == GridPredictions(fine, coarse0, coarse1, rows, cols, p, pixel, rows)
  {
    var preds: seq<seq<real>> := [];
    var r := p.h;
    while r < rows + p.h
      invariant p.h <= r <= rows + p.h
      invariant GridPredictions(fine, coarse0, coarse1, rows, cols, p, pixel, r - p.h) == Ok(preds)
    {
      var row := PredictRow(fine, coarse0, coarse1, rows, cols, p, pixel, r - p.h);
      if row.Err? {
        return Err(row.error);
      }
      preds := preds + [row.value];
      r := r + 1;
    }
    return Ok(preds);
  }

  /** The driver: one prediction per pixel of `fine`, same shape, each the
      prediction of that pixel's padded windows; the only failure is the
      centre read outside a 1×1 window. */
  method Starfm(fine: seq<seq<real>>, coarse0: seq<seq<real>>, coarse1: seq<seq<real>>,
                rows: nat, cols: nat, p: Params, sif: real, sqrt: real -> real)
    returns (res: Result<seq<seq<real>>>)
    requires IsGrid(fine, rows, cols) && IsGrid(coarse0, rows, cols) && IsGrid(coarse1, rows, cols)
    requires 0.0 < sif
    requires IsRoot(sqrt)
    ensures res.Err? <==> p.h == 0 && 0 < rows && 0 < cols
    ensures res.Ok? ==> IsGrid(res.value, rows, cols)
    ensures res.Ok? ==> forall i, j :: 0 <= i < rows && 0 <= j < cols ==>
      PixelPrediction(PixelWindows(fine, coarse0, coarse1, rows, cols, p, i, j), p,
                      SpatialDistance(2 * p.h + 1, sif, sqrt)) == Ok(res.value[i][j])
  {
    var spat := SpatialDistance(2 * p.h + 1, sif, sqrt);
    var pixel := (win: Windows) requires WellSized(win, p.h) => PixelPrediction(win, p, spat);
    res := PredictGrid(fine, coarse0, coarse1, rows, cols, p, pixel);
    GridPredictionsPointwise(fine, coarse0, coarse1, rows, cols, p, pixel, rows);
    if p.h == 0 && 0 < rows && 0 < cols {
      assert pixel(PixelWindows(fine, coarse0, coarse1, rows, cols, p, 0, 0)).Err?;
    }
  }

  /** The centre cell of a pixel's fine window is the pixel itself. */
  lemma CentrePixel(fine: seq<seq<real>>, coarse0: seq<seq<real>>, coarse1: seq<seq<real>>,
                    rows: nat, cols: nat, p: Params, i: nat, j: nat)
    requires IsGrid(fine, rows, cols) && IsGrid(coarse0, rows, cols) && IsGrid(coarse1, rows, cols)
    requires i < rows && j < cols
    ensures PixelWindows(fine, coarse0, coarse1, rows, cols, p, i, j).fine[p.h][p.h] == fine[i][j]
  {
    PaddedWindowCell(fine, rows, cols, p.h, p.maskVal, i, j, p.h, p.h);
  }

  /** The centre differences are read not at the pixel (i, j) but at its
      diagonal neighbour (i+1, j+1): window cell (h+1, h+1) holds that
      neighbour's values, and on the last row or column it is padding in
      all three images, so both centre differences are 0 there. */
  lemma CentreReadOffset(fine: seq<seq<real>>, coarse0: seq<seq<real>>, coarse1: seq<seq<real>>,
                         rows: nat, cols: nat, p: Params, i: nat, j: nat)
    requires IsGrid(fine, rows, cols) && IsGrid(coarse0, rows, cols) && IsGrid(coarse1, rows, cols)
    requires i < rows && j < cols
    requires 1 <= p.h
    ensures var win := PixelWindows(fine, coarse0, coarse1, rows, cols, p, i, j);
            var h := p.h;
            && (i + 1 < rows && j + 1 < cols ==>
                  && win.fine[h + 1][h + 1] == fine[i + 1][j + 1]
                  && win.coarse0[h + 1][h + 1] == coarse0[i + 1][j + 1]
                  && win.coarse1[h + 1][h + 1] == coarse1[i + 1][j + 1])
            && (i + 1 == rows || j + 1 == cols ==>
                  && win.fine[h + 1][h + 1] == p.maskVal
                  && win.coarse0[h + 1][h + 1] == p.maskVal
                  && win.coarse1[h + 1][h + 1] == p.maskVal
                  && Abs(win.fine[h + 1][h + 1] - win.coarse0[h + 1][h + 1]) == 0.0
                  && Abs(win.coarse1[h + 1][h + 1] - win.coarse0[h + 1][h + 1]) == 0.0)
  {
    var h := p.h;
    PaddedWindowCell(fine, rows, cols, h, p.maskVal, i, j, h + 1, h + 1);
    PaddedWindowCell(coarse0, rows, cols, h, p.maskVal, i, j, h + 1, h + 1);
    PaddedWindowCell(coarse1, rows, cols, h, p.maskVal, i, j, h + 1, h + 1);
  }

  /** Neighbour k of a window is not selected. */
  predicate Dropped(win: Windows, p: Params, k: nat)
    requires WellSized(win, p.h) && 1 <= p.h
    requires k < |Ravel(win.fine)|
  {
    RavelLength(win.fine, 2 * p.h + 1, 2 * p.h + 1);
    !Analyse(win, p).value.sel[k]
  }

  /** A neighbour read from the padding of a pixel's window is never
      selected: the padded window's cell (a, b) outside the image holds
      `maskVal`, and `AnalyseSelection` drops every such neighbour. */
  lemma PaddingNeverSelected(fine: seq<seq<real>>, coarse0: seq<seq<real>>, coarse1: seq<seq<real>>,
                             rows: nat, cols: nat, p: Params, i: nat, j: nat, a: nat, b: nat)
    requires IsGrid(fine, rows, cols) && IsGrid(coarse0, rows, cols) && IsGrid(coarse1, rows, cols)
    requires i < rows && j < cols
    requires 1 <= p.h
    requires a < 2 * p.h + 1 && b < 2 * p.h + 1
    requires !(p.h <= i + a < rows + p.h && p.h <= j + b < cols + p.h)
    ensures var win := PixelWindows(fine, coarse0, coarse1, rows, cols, p, i, j);
            var n := 2 * p.h + 1;
            && Area(a, n) + b < |Ravel(win.fine)|
            && Ravel(win.fine)[Area(a, n) + b] == p.maskVal
            && Dropped(win, p, Area(a, n) + b)
  {
    var win := PixelWindows(fine, coarse0, coarse1, rows, cols, p, i, j);
    PaddingCell(fine, coarse0, coarse1, rows, cols, p, i, j, a, b);
    MaskValueDropped(win, p, Area(a, 2 * p.h + 1) + b);
  }

  /** The flattened fine window holds `maskVal` at a padding cell (a, b). */
  lemma PaddingCell(fine: seq<seq<real>>, coarse0: seq<seq<real>>, coarse1: seq<seq<real>>,
                    rows: nat, cols: nat, p: Params, i: nat, j: nat, a: nat, b: nat)
    requires IsGrid(fine, rows, cols) && IsGrid(coarse0, rows, cols) && IsGrid(coarse1, rows, cols)
    requires i < rows && j < cols
    requires a < 2 * p.h + 1 && b < 2 * p.h + 1
    requires !(p.h <= i + a < rows + p.h && p.h <= j + b < cols + p.h)
    ensures var win := PixelWindows(fine, coarse0, coarse1, rows, cols, p, i, j);
            var n := 2 * p.h + 1;
            && Area(a, n) + b < |Ravel(win.fine)|
            && Ravel(win.fine)[Area(a, n) + b] == p.maskVal
  {
    var n := 2 * p.h + 1;
    var win := PixelWindows(fine, coarse0, coarse1, rows, cols, p, i, j);
    PaddingWindowCell(fine, coarse0, coarse1, rows, cols, p, i, j, a, b);
    RavelIndex(win.fine, n, n, a, b);
  }

  /** Cell (a, b) of the fine window, when it lies in the padding. */
  lemma PaddingWindowCell(fine: seq<seq<real>>, coarse0: seq<seq<real>>, coarse1: seq<seq<real>>,
                          rows: nat, cols: nat, p: Params, i: nat, j: nat, a: nat, b: nat)
    requires IsGrid(fine, rows, cols) && IsGrid(coarse0, rows, cols) && IsGrid(coarse1, rows, cols)
    requires i < rows && j < cols
    requires a < 2 * p.h + 1 && b < 2 * p.h + 1
    requires !(p.h <= i + a < rows + p.h && p.h <= j + b < cols + p.h)
    ensures PixelWindows(fine, coarse0, coarse1, rows, cols, p, i, j).fine[a][b] == p.maskVal
  {
    PaddedWindowCell(fine, rows, cols, p.h, p.maskVal, i, j, a, b);
  }

  /** Any neighbour whose fine value equals `maskVal` is dropped, whether it
      is padding or a genuine pixel that happens to carry that value. */
  lemma MaskValueDropped(win: Windows, p: Params, k: nat)
    requires WellSized(win, p.h) && 1 <= p.h
    requires k < |Ravel(win.fine)| && Ravel(win.fine)[k] == p.maskVal
    ensures Dropped(win, p, k)
  {
    RavelLength(win.fine, 2 * p.h + 1, 2 * p.h + 1);
    AnalyseSelection(win, p, k);
  }
}

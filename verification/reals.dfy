/**
 Real-valued sequences as the per-window arrays of the models use them:
 sums, boolean-mask selection (numpy's `a[mask]`), extremes and the
 convex-combination bound.
 */
module Reals {

  function Abs(x: real): (r: real)
    ensures 0.0 <= r
    ensures r == x || r == -x
  {
    if x < 0.0 then -x else x
  }

  function Max(x: real, y: real): (r: real)
    ensures x <= r && y <= r
    ensures r == x || r == y
  {
    if x < y then y else x
  }

  /** 1 for true, 0 for false: a boolean array used in arithmetic. */
  function Indicator(b: bool): int
  {
    if b then 1 else 0
  }

  function Sum(xs: seq<real>): real
  {
    if |xs| == 0 then 0.0 else xs[0] + Sum(xs[1..])
  }

  /** Number of set flags (`np.sum` of a boolean array). */
  function Count(sel: seq<bool>): (n: nat)
    ensures n <= |sel|
    ensures n == 0 <==> forall k :: 0 <= k < |sel| ==> !sel[k]
  {
    if |sel| == 0 then 0 else Indicator(sel[0]) + Count(sel[1..])
  }

  /** The entries of `xs` whose flag in `sel` is set, in order. */
  function Compress<T>(xs: seq<T>, sel: seq<bool>): (ys: seq<T>)
    requires |xs| == |sel|
    ensures |ys| == Count(sel)
    ensures forall y :: y in ys ==> y in xs
  {
    if |xs| == 0 then [] else (if sel[0] then [xs[0]] else []) + Compress(xs[1..], sel[1..])
  }

  /** Every flagged entry survives the compression. */
  lemma {:induction false} CompressKeeps<T>(xs: seq<T>, sel: seq<bool>, k: nat)
    requires |xs| == |sel| && k < |xs| && sel[k]
    ensures xs[k] in Compress(xs, sel)
  {
    if k > 0 {
      CompressKeeps(xs[1..], sel[1..], k - 1);
    }
  }

  /** Compressing with a single flag set yields exactly that entry. */
  lemma {:induction false} CompressSingle<T>(xs: seq<T>, sel: seq<bool>, k: nat)
    requires |xs| == |sel| && k < |xs|
    requires forall i :: 0 <= i < |sel| ==> (sel[i] <==> i == k)
    ensures Compress(xs, sel) == [xs[k]]
  {
    if k == 0 {
      assert Count(sel[1..]) == 0;
    } else {
      CompressSingle(xs[1..], sel[1..], k - 1);
    }
  }

  /** The position of the t-th set flag, counting from 0. */
  function SelIndex(sel: seq<bool>, t: nat): (k: nat)
    requires t < Count(sel)
    ensures k < |sel| && sel[k]
  {
    if sel[0] && t == 0 then 0
    else SelIndex(sel[1..], if sel[0] then t - 1 else t) + 1
  }

  /** Exactly t flags are set before position SelIndex(sel, t). */
  lemma {:induction false} SelIndexRank(sel: seq<bool>, t: nat)
    requires t < Count(sel)
    ensures Count(sel[..SelIndex(sel, t)]) == t
  {
    var k := SelIndex(sel, t);
    if k == 0 {
      assert sel[..k] == [];
    } else {
      var u := if sel[0] then t - 1 else t;
      SelIndexRank(sel[1..], u);
      assert sel[..k][1..] == sel[1..][..k - 1];
    }
  }

  /** Every set flag is reached: the flag at k is the one of rank
      Count(sel[..k]). With SelIndexRank, SelIndex is a one-to-one
      correspondence between 0..Count(sel)-1 and the set positions. */
  lemma {:induction false} SelIndexOf(sel: seq<bool>, k: nat)
    requires k < |sel| && sel[k]
    ensures Count(sel[..k]) < Count(sel) && SelIndex(sel, Count(sel[..k])) == k
  {
    if k == 0 {
      assert sel[..k] == [];
    } else {
      SelIndexOf(sel[1..], k - 1);
      assert sel[..k][1..] == sel[1..][..k - 1];
    }
  }

  /** Later set flags have later positions: SelIndex is strictly increasing. */
  lemma {:induction false} SelIndexIncreasing(sel: seq<bool>, t1: nat, t2: nat)
    requires t1 < t2 < Count(sel)
    ensures SelIndex(sel, t1) < SelIndex(sel, t2)
  {
    if !(sel[0] && t1 == 0) {
      var d := if sel[0] then 1 else 0;
      SelIndexIncreasing(sel[1..], t1 - d, t2 - d);
    }
  }

  /** Boolean indexing keeps the flagged entries in input order: entry t of
      the compression is the entry at the t-th set flag. */
  lemma {:induction false} CompressAt<T>(xs: seq<T>, sel: seq<bool>, t: nat)
    requires |xs| == |sel| && t < Count(sel)
    ensures Compress(xs, sel)[t] == xs[SelIndex(sel, t)]
  {
    var head: seq<T> := if sel[0] then [xs[0]] else [];
    assert Compress(xs, sel) == head + Compress(xs[1..], sel[1..]);
    if !(sel[0] && t == 0) {
      var u := t - |head|;
      CompressAt(xs[1..], sel[1..], u);
      assert SelIndex(sel, t) == SelIndex(sel[1..], u) + 1;
      assert (head + Compress(xs[1..], sel[1..]))[t] == Compress(xs[1..], sel[1..])[u];
    }
  }

  /** Element-wise product of two equally long sequences. */
  function Mul(xs: seq<real>, ys: seq<real>): (zs: seq<real>)
    requires |xs| == |ys|
    ensures |zs| == |xs|
    ensures forall i :: 0 <= i < |zs| ==> zs[i] == xs[i] * ys[i]
  {
    seq(|xs|, i requires 0 <= i < |xs| => xs[i] * ys[i])
  }

  /** Every entry divided by `t`. */
  function Scale(xs: seq<real>, t: real): (ys: seq<real>)
    requires t != 0.0
    ensures |ys| == |xs|
    ensures forall i :: 0 <= i < |ys| ==> ys[i] == xs[i] / t
  {
    if |xs| == 0 then [] else [xs[0] / t] + Scale(xs[1..], t)
  }

  lemma {:induction false} SumScale(xs: seq<real>, t: real)
    requires t != 0.0
    ensures Sum(Scale(xs, t)) == Sum(xs) / t
  {
    if |xs| > 0 {
      SumScale(xs[1..], t);
      assert Scale(xs, t)[1..] == Scale(xs[1..], t);
    }
  }

  lemma DivideBounds(a: real, s: real)
    requires 0.0 < a <= s
    ensures 0.0 < a / s <= 1.0
  {
    assert a / s * s == a;
  }

  /** Positive entries divided by their sum: each in (0, 1], summing to 1. */
  function Normalise(xs: seq<real>): (ys: seq<real>)
    requires forall i :: 0 <= i < |xs| ==> 0.0 < xs[i]
    ensures |ys| == |xs|
    ensures forall i :: 0 <= i < |ys| ==> 0.0 < ys[i] <= 1.0
    ensures 0 < |ys| ==> Sum(ys) == 1.0
  {
    if |xs| == 0 then []
    else
      NormaliseFacts(xs);
      Scale(xs, Sum(xs))
  }

  lemma NormaliseFacts(xs: seq<real>)
    requires 0 < |xs|
    requires forall i :: 0 <= i < |xs| ==> 0.0 < xs[i]
    ensures 0.0 < Sum(xs)
    ensures forall i :: 0 <= i < |xs| ==> 0.0 < Scale(xs, Sum(xs))[i] <= 1.0
    ensures Sum(Scale(xs, Sum(xs))) == 1.0
  {
    SumPositive(xs);
    var s := Sum(xs);
    forall i | 0 <= i < |xs|
      ensures 0.0 < Scale(xs, s)[i] <= 1.0
    {
      DivideBounds(xs[i], s);
    }
    SumScale(xs, s);
    DivideSelf(s);
  }

  /** Each normalised entry is the original entry over the sum. */
  lemma NormaliseEntry(xs: seq<real>, i: nat)
    requires forall k :: 0 <= k < |xs| ==> 0.0 < xs[k]
    requires i < |xs|
    ensures 0.0 < Sum(xs) && Normalise(xs)[i] == xs[i] / Sum(xs)
  {
    SumPositive(xs);
  }

  lemma DivideSelf(s: real)
    requires s != 0.0
    ensures s / s == 1.0
  {
  }

  /** A sum of positive entries is positive and bounds every entry. */
  lemma {:induction false} SumPositive(xs: seq<real>)
    requires |xs| > 0
    requires forall i :: 0 <= i < |xs| ==> 0.0 < xs[i]
    ensures 0.0 < Sum(xs)
    ensures forall i :: 0 <= i < |xs| ==> xs[i] <= Sum(xs)
  {
    if |xs| > 1 {
      SumPositive(xs[1..]);
      forall i | 1 <= i < |xs|
        ensures xs[i] <= Sum(xs)
      {
        assert xs[i] == xs[1..][i - 1];
      }
    }
  }

  lemma {:induction false} SumAppend(xs: seq<real>, ys: seq<real>)
    ensures Sum(xs + ys) == Sum(xs) + Sum(ys)
  {
    if |xs| == 0 {
      assert xs + ys == ys;
    } else {
      SumAppend(xs[1..], ys);
      assert (xs + ys)[1..] == xs[1..] + ys;
    }
  }

  /** If every entry is at most `b` the sum is at most |xs|·b, and dually. */
  lemma {:induction false} SumBounds(xs: seq<real>, lo: real, hi: real)
    requires forall i :: 0 <= i < |xs| ==> lo <= xs[i] <= hi
    ensures |xs| as real * lo <= Sum(xs) <= |xs| as real * hi
  {
    if |xs| > 0 {
      SumBounds(xs[1..], lo, hi);
    }
  }

  /** Σ w[i]·xs[i]. */
  function Dot(w: seq<real>, xs: seq<real>): real
    requires |w| == |xs|
  {
    if |w| == 0 then 0.0 else w[0] * xs[0] + Dot(w[1..], xs[1..])
  }

  function MinOf(xs: seq<real>): (m: real)
    requires |xs| > 0
    ensures m in xs
    ensures forall i :: 0 <= i < |xs| ==> m <= xs[i]
  {
    if |xs| == 1 then xs[0]
    else
      var rest := MinOf(xs[1..]);
      assert forall i :: 1 <= i < |xs| ==> xs[i] == xs[1..][i - 1];
      if xs[0] <= rest then xs[0] else rest
  }

  function MaxOf(xs: seq<real>): (m: real)
    requires |xs| > 0
    ensures m in xs
    ensures forall i :: 0 <= i < |xs| ==> xs[i] <= m
  {
    if |xs| == 1 then xs[0]
    else
      var rest := MaxOf(xs[1..]);
      assert forall i :: 1 <= i < |xs| ==> xs[i] == xs[1..][i - 1];
      if rest <= xs[0] then xs[0] else rest
  }

  /** With non-negative weights, Σ w·x is at least lo·Σw when every x is at least lo. */
  lemma {:induction false} DotLower(w: seq<real>, xs: seq<real>, lo: real)
    requires |w| == |xs|
    requires forall i :: 0 <= i < |w| ==> 0.0 <= w[i]
    requires forall i :: 0 <= i < |xs| ==> lo <= xs[i]
    ensures lo * Sum(w) <= Dot(w, xs)
  {
    if |w| > 0 {
      DotLower(w[1..], xs[1..], lo);
      LowerStep(w[0], xs[0], Dot(w[1..], xs[1..]), Sum(w[1..]), lo);
    }
  }

  /** With non-negative weights, Σ w·x is at most hi·Σw when every x is at most hi. */
  lemma {:induction false} DotUpper(w: seq<real>, xs: seq<real>, hi: real)
    requires |w| == |xs|
    requires forall i :: 0 <= i < |w| ==> 0.0 <= w[i]
    requires forall i :: 0 <= i < |xs| ==> xs[i] <= hi
    ensures Dot(w, xs) <= hi * Sum(w)
  {
    if |w| > 0 {
      DotUpper(w[1..], xs[1..], hi);
      UpperStep(w[0], xs[0], Dot(w[1..], xs[1..]), Sum(w[1..]), hi);
    }
  }

  /** One step of `DotLower`: adding w0·x0 to the rest keeps the bound. */
  lemma LowerStep(w0: real, x0: real, d: real, s: real, lo: real)
    requires 0.0 <= w0 && lo <= x0
    requires lo * s <= d
    ensures lo * (w0 + s) <= w0 * x0 + d
  {
    assert 0.0 <= w0 * (x0 - lo);
    assert lo * (w0 + s) == lo * w0 + lo * s;
  }

  /** One step of `DotUpper`. */
  lemma UpperStep(w0: real, x0: real, d: real, s: real, hi: real)
    requires 0.0 <= w0 && x0 <= hi
    requires d <= hi * s
    ensures w0 * x0 + d <= hi * (w0 + s)
  {
    assert 0.0 <= w0 * (hi - x0);
    assert hi * (w0 + s) == hi * w0 + hi * s;
  }

  /** A convex combination lies between the smallest and largest combined value. */
  lemma ConvexCombination(w: seq<real>, xs: seq<real>)
    requires |w| == |xs| && |xs| > 0
    requires forall i :: 0 <= i < |w| ==> 0.0 <= w[i]
    requires Sum(w) == 1.0
    ensures MinOf(xs) <= Dot(w, xs) <= MaxOf(xs)
  {
    var lo, hi := MinOf(xs), MaxOf(xs);
    DotLower(w, xs, lo);
    DotUpper(w, xs, hi);
    assert lo * Sum(w) == lo;
    assert hi * Sum(w) == hi;
  }
}

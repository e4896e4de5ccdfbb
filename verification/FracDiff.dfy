/** Fixed-width fractional differencing (gauntlet/ml_xsect/mlx_fracdiff.py). */
module FracDiff {
  import opened Arith

  const MAX_LAG: nat := 10000

  /** w_0 = 1, w_k = -w_{k-1} (d - k + 1) / k. */
  function Weight(d: real, k: nat): real {
    if k == 0 then 1.0 else -Weight(d, k - 1) * (d - k as real + 1.0) / k as real
  }

  function WeightsTo(d: real, n: nat): (w: seq<real>)
    ensures |w| == n && forall k :: 0 <= k < n ==> w[k] == Weight(d, k)
  {
    seq(n, k requires 0 <= k < n => Weight(d, k))
  }

  /** Where the loop stops: the first lag from 1 whose weight is below tau, or one past the last lag tried. */
  ghost predicate IsCutoff(d: real, tau: real, maxK: nat, n: nat) {
    && 1 <= n <= maxK + 1
    && (forall k :: 1 <= k < n ==> Abs(Weight(d, k)) >= tau)
    && (n <= maxK ==> Abs(Weight(d, n)) < tau)
  }

  /** `ffd_weights`: append until a weight falls below tau. */
  method FfdWeights(d: real, tau: real, maxK: nat) returns (w: seq<real>)
    ensures w == WeightsTo(d, |w|) && IsCutoff(d, tau, maxK, |w|)
  {
    w := [1.0];
    for k := 1 to maxK + 1
      invariant w == WeightsTo(d, k)
      invariant forall j :: 1 <= j < k ==> Abs(Weight(d, j)) >= tau
    {
      var wk := -w[k - 1] * (d - k as real + 1.0) / k as real;
      assert wk == Weight(d, k);
      if Abs(wk) < tau {
        return;
      }
      w := w + [wk];
    }
  }

  // ----- orders strictly between 0 and 1 -----

  /** w_k = w_{k-1} (k - 1 - d) / k. */
  lemma WeightRatio(d: real, k: nat)
    requires k > 0
    ensures Weight(d, k) * k as real == Weight(d, k - 1) * (k as real - 1.0 - d)
  {
    var v, f := Weight(d, k - 1), d - k as real + 1.0;
    assert -v * f == v * (k as real - 1.0 - d);
    assert -v * f / k as real * k as real == -v * f;
  }

  lemma ShrinkingNegative(v: real, w: real, k: real, d: real)
    requires v < 0.0 && k >= 2.0 && 0.0 < d < 1.0 && w * k == v * (k - 1.0 - d)
    ensures v < w < 0.0
  {
    SignByFactor(v, k - 1.0 - d);
    SignByFactor(v, 1.0 + d);
    assert v * k == w * k + v * (1.0 + d);
    SignByFactor(w, k);
    SignByFactor(v - w, k);
    assert (v - w) * k == v * (1.0 + d);
  }

  lemma SignByFactor(x: real, k: real)
    requires k > 0.0
    ensures x * k < 0.0 <==> x < 0.0
  {
  }

  /** After the first, all weights are negative and strictly closer to zero. */
  lemma {:induction false} WeightsShrink(d: real, k: nat)
    requires 0.0 < d < 1.0 && k > 0
    ensures Weight(d, k) < 0.0
    ensures Abs(Weight(d, k)) < Abs(Weight(d, k - 1))
  {
    if k == 1 {
      FirstWeights(d);
    } else {
      WeightsShrink(d, k - 1);
      NextShrinks(d, k, Weight(d, k - 1), Weight(d, k));
    }
  }

  lemma NextShrinks(d: real, k: nat, v: real, w: real)
    requires 0.0 < d < 1.0 && k >= 2 && v == Weight(d, k - 1) && w == Weight(d, k) && v < 0.0
    ensures v < w < 0.0
  {
    WeightRatio(d, k);
    ShrinkingNegative(v, w, k as real, d);
  }

  lemma FirstWeights(d: real)
    ensures Weight(d, 0) == 1.0 && Weight(d, 1) == -d
  {
  }

  lemma {:induction false} LaterWeightsSmaller(d: real, j: nat, k: nat)
    requires 0.0 < d < 1.0 && j <= k
    ensures Abs(Weight(d, k)) <= Abs(Weight(d, j))
    decreases k
  {
    if j < k {
      LaterWeightsSmaller(d, j, k - 1);
      WeightsShrink(d, k);
    }
  }

  /** Stopping at the first small weight omits no weight of size tau or more. */
  lemma TruncationIsSafe(d: real, tau: real, maxK: nat, n: nat, k: nat)
    requires 0.0 < d < 1.0 && IsCutoff(d, tau, maxK, n) && n <= maxK && n <= k
    ensures Abs(Weight(d, k)) < tau
  {
    LaterWeightsSmaller(d, n, k);
  }

  /** The product over j = 1..k of (1 - d/j). */
  function Retained(d: real, k: nat): real {
    if k == 0 then 1.0 else Retained(d, k - 1) * (1.0 - d / k as real)
  }

  function PartialSum(d: real, k: nat): real {
    if k == 0 then Weight(d, 0) else PartialSum(d, k - 1) + Weight(d, k)
  }

  lemma {:induction false} WeightIsRetained(d: real, k: nat)
    requires k > 0
    ensures Weight(d, k) * k as real == -d * Retained(d, k - 1)
  {
    WeightRatio(d, k);
    if k == 1 {
      assert Weight(d, 0) == 1.0 && Retained(d, 0) == 1.0;
    } else {
      var w, v, r, next := Weight(d, k), Weight(d, k - 1), Retained(d, k - 2), Retained(d, k - 1);
      WeightIsRetained(d, k - 1);
      assert next == r * (1.0 - d / (k - 1) as real);
      PeelFactor(w, v, r, d, k as real, (k - 1) as real, next);
    }
  }

  lemma PeelFactor(w: real, v: real, r: real, d: real, k: real, j: real, next: real)
    requires j > 0.0 && k == j + 1.0
    requires w * k == v * (k - 1.0 - d) && v * j == -d * r && next == r * (1.0 - d / j)
    ensures w * k == -d * next
  {
    assert next * j == r * (j - d) by { assert d / j * j == d; }
    assert w * k * j == v * j * (j - d);
    assert v * j * (j - d) == -d * (r * (j - d));
    assert (w * k + d * next) * j == 0.0;
  }

  /** The first k + 1 weights of any order sum to the product of (1 - d/j). */
  lemma {:induction false} WeightsSumToProduct(d: real, k: nat)
    ensures PartialSum(d, k) == Retained(d, k)
  {
    if k > 0 {
      WeightsSumToProduct(d, k - 1);
      WeightIsRetained(d, k);
      AddWeight(Retained(d, k - 1), Weight(d, k), d, k as real, d / k as real);
    }
  }

  /** For 0 < d < 1 the kept weights never cancel to zero: what remains is positive and shrinking. */
  lemma {:induction false} RetainedStaysPositive(d: real, k: nat)
    requires 0.0 < d < 1.0
    ensures 0.0 < Retained(d, k) <= 1.0
  {
    if k > 0 {
      RetainedStaysPositive(d, k - 1);
      ShareOf(d, k as real);
      KeepPositive(Retained(d, k - 1), d / k as real, Retained(d, k));
    }
  }

  lemma ShareOf(d: real, k: real)
    requires 0.0 < d < 1.0 && k >= 1.0
    ensures 0.0 < d / k < 1.0
  {
    var q := d / k;
    assert q * k == d;
    assert q > 0.0;
  }

  lemma AddWeight(r: real, w: real, d: real, k: real, q: real)
    requires k > 0.0 && w * k == -d * r && q == d / k
    ensures r + w == r * (1.0 - q)
  {
    assert q * k == d;
    assert (w + r * q) * k == 0.0;
  }

  lemma KeepPositive(r: real, q: real, next: real)
    requires 0.0 < r <= 1.0 && 0.0 < q < 1.0 && next == r * (1.0 - q)
    ensures 0.0 < next <= 1.0
  {
    Grow(r, 1.0, 1.0 - q);
  }

  lemma Grow(r: real, s: real, p: real)
    requires 0.0 < r <= s && p > 0.0
    ensures 0.0 < r * p <= s * p
  {
  }

  // ----- the filter -----

  /** Series values and results; None is a missing value. */
  type Series = seq<Option<real>>

  predicate WindowPresent(y: Series, t: nat, n: nat)
    requires 0 < n <= t + 1 <= |y|
  {
    forall k :: t + 1 - n <= k <= t ==> y[k].Some?
  }

  /** The sum over k < m of w_k y_{t-k}. */
  function Filtered(w: seq<real>, y: Series, t: nat, m: nat): real
    requires m <= |w| && m <= t + 1 <= |y|
    requires forall k :: t + 1 - m <= k <= t ==> y[k].Some?
  {
    if m == 0 then 0.0 else Filtered(w, y, t, m - 1) + w[m - 1] * y[t - (m - 1)].value
  }

  /** What the filter reports at t: nothing before the window fits or while it has a hole. */
  ghost predicate IsFiltered(w: seq<real>, y: Series, t: nat, r: Option<real>)
    requires w != [] && t < |y|
  {
    if t + 1 < |w| || !WindowPresent(y, t, |w|) then r.None?
    else r == Some(Filtered(w, y, t, |w|))
  }

  /** `frac_diff_ffd`, given the weights. */
  method ApplyFfd(w: seq<real>, y: Series) returns (out: Series)
    requires w != []
    ensures |out| == |y| && forall t :: 0 <= t < |y| ==> IsFiltered(w, y, t, out[t])
  {
    var n := |w|;
    var a := new Option<real>[|y|](_ => None);
    var t := n - 1;
    while t < |y|
      invariant n - 1 <= t
      invariant forall s :: 0 <= s < |y| && s < t ==> IsFiltered(w, y, s, a[s])
      invariant forall s :: t <= s < |y| ==> a[s] == None
    {
      if WindowPresent(y, t, n) {
        a[t] := Some(Filtered(w, y, t, n));
      }
      t := t + 1;
    }
    out := a[..];
  }

  /** The series filtered with the weights kept at n, for a cutoff n. */
  ghost predicate IsFractionalDifference(y: Series, d: real, n: nat, out: Series) {
    n > 0 && |out| == |y| && forall t :: 0 <= t < |y| ==> IsFiltered(WeightsTo(d, n), y, t, out[t])
  }

  /** `frac_diff_ffd`. */
  method FracDiffFfd(y: Series, d: real, tau: real) returns (out: Series)
    ensures exists n :: IsCutoff(d, tau, 10000, n) && IsFractionalDifference(y, d, n, out)
  {
    var weights := FfdWeights(d, tau, MAX_LAG);
    out := ApplyFfd(weights, y);
    assert IsFractionalDifference(y, d, |weights|, out);
  }

  // ----- the filter is the convolution with its weights -----

  ghost predicate IsImpulse(y: Series, s: nat) {
    forall k :: 0 <= k < |y| ==> y[k] == Some(if k == s then 1.0 else 0.0)
  }

  lemma {:induction false} FilteredImpulse(w: seq<real>, y: Series, s: nat, t: nat, m: nat)
    requires m <= |w| && m <= t + 1 <= |y| && IsImpulse(y, s)
    ensures Filtered(w, y, t, m) == if s <= t && t - s < m then w[t - s] else 0.0
  {
    if m > 0 {
      FilteredImpulse(w, y, s, t, m - 1);
    }
  }

  /** A lone 1 at s comes out at t weighted by the lag t - s, and not at all beyond the window. */
  lemma ImpulseResponse(w: seq<real>, y: Series, s: nat, t: nat, r: Option<real>)
    requires w != [] && t < |y| && IsImpulse(y, s) && IsFiltered(w, y, t, r)
    ensures t + 1 < |w| ==> r == None
    ensures t + 1 >= |w| ==> r == Some(if s <= t && t - s < |w| then w[t - s] else 0.0)
  {
    if t + 1 >= |w| {
      assert WindowPresent(y, t, |w|);
      FilteredImpulse(w, y, s, t, |w|);
    }
  }

  ghost predicate IsCombination(x: Series, y: Series, z: Series, a: real, b: real) {
    |x| == |y| == |z|
    && forall k :: 0 <= k < |z| ==> x[k].Some? && y[k].Some? && z[k].Some?
                                    && z[k].value == a * x[k].value + b * y[k].value
  }

  lemma {:induction false} FilteredCombination(w: seq<real>, x: Series, y: Series, z: Series, a: real, b: real,
                                               t: nat, m: nat, p: real, q: real)
    requires m <= |w| && m <= t + 1 <= |z| && IsCombination(x, y, z, a, b)
    requires IsProduct(p, a, Filtered(w, x, t, m)) && IsProduct(q, b, Filtered(w, y, t, m))
    ensures Filtered(w, z, t, m) == p + q
  {
    if m > 0 {
      var f, g, k := Filtered(w, x, t, m - 1), Filtered(w, y, t, m - 1), t - (m - 1);
      FilteredCombination(w, x, y, z, a, b, t, m - 1, a * f, b * g);
      TermCombination(w[m - 1], x[k].value, y[k].value, z[k].value, a, b);
      Distribute(a, f, w[m - 1] * x[k].value);
      Distribute(b, g, w[m - 1] * y[k].value);
    }
  }

  lemma TermCombination(w: real, x: real, y: real, z: real, a: real, b: real)
    requires z == a * x + b * y
    ensures w * z == a * (w * x) + b * (w * y)
  {
  }

  lemma Distribute(a: real, f: real, g: real)
    ensures a * (f + g) == a * f + a * g
  {
  }

  /** Filtering respects sums and multiples, so the impulse responses determine it. */
  lemma FilterIsLinear(w: seq<real>, x: Series, y: Series, z: Series, a: real, b: real, t: nat,
                       rx: Option<real>, ry: Option<real>, rz: Option<real>)
    requires w != [] && |w| <= t + 1 <= |z| && IsCombination(x, y, z, a, b)
    requires IsFiltered(w, x, t, rx) && IsFiltered(w, y, t, ry) && IsFiltered(w, z, t, rz)
    ensures rx.Some? && ry.Some? && rz == Some(a * rx.value + b * ry.value)
  {
    assert WindowPresent(x, t, |w|) && WindowPresent(y, t, |w|) && WindowPresent(z, t, |w|);
    FilteredCombination(w, x, y, z, a, b, t, |w|, a * rx.value, b * ry.value);
  }

  // ----- the two documented special orders -----

  /** Order 0 leaves the series unchanged, holes included. */
  lemma OrderZeroIsIdentity(tau: real, n: nat, y: Series, t: nat, r: Option<real>)
    requires tau > 0.0 && IsCutoff(0.0, tau, MAX_LAG, n) && t < |y|
    requires IsFiltered(WeightsTo(0.0, n), y, t, r)
    ensures r == y[t]
  {
    assert Weight(0.0, 1) == 0.0;
    assert n == 1;
    var w := WeightsTo(0.0, n);
    if y[t].Some? {
      assert Filtered(w, y, t, 0) == 0.0;
    }
  }

  /** Order 1 is the first difference, undefined at the first point and next to holes. */
  lemma OrderOneIsFirstDifference(tau: real, n: nat, y: Series, t: nat, r: Option<real>)
    requires 0.0 < tau <= 1.0 && IsCutoff(1.0, tau, MAX_LAG, n) && t < |y|
    requires IsFiltered(WeightsTo(1.0, n), y, t, r)
    ensures r == if t > 0 && y[t].Some? && y[t - 1].Some? then Some(y[t].value - y[t - 1].value) else None
  {
    FirstDifferenceWeights();
    assert n == 2;
    var w := WeightsTo(1.0, n);
    if t > 0 && y[t].Some? && y[t - 1].Some? {
      assert Filtered(w, y, t, 1) == w[0] * y[t].value;
      assert Filtered(w, y, t, 2) == Filtered(w, y, t, 1) + w[1] * y[t - 1].value;
    }
  }

  /** With tau above 1 the loop stops at once and order 1 degenerates to the identity filter. */
  lemma LargeTauKeepsOneWeight(tau: real, n: nat, y: Series, t: nat, r: Option<real>)
    requires tau > 1.0 && IsCutoff(1.0, tau, MAX_LAG, n) && t < |y|
    requires IsFiltered(WeightsTo(1.0, n), y, t, r)
    ensures WeightsTo(1.0, n) == [1.0]
    ensures r == y[t]
  {
    FirstDifferenceWeights();
    assert n == 1;
    var w := WeightsTo(1.0, n);
    if y[t].Some? {
      assert Filtered(w, y, t, 0) == 0.0;
    }
  }

  lemma FirstDifferenceWeights()
    ensures Weight(1.0, 0) == 1.0 && Weight(1.0, 1) == -1.0 && Weight(1.0, 2) == 0.0
  {
    assert Weight(1.0, 1) == -1.0;
  }
}

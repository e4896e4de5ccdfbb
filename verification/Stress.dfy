/**
 * The per-book crash-survival battery and its short-squeeze injector (gauntlet/forkb/p3.py).
 * Metrics that need a root are stated by the equation the root solves.
 */
module Stress {
  import opened Arith
  import opened Recovery

  const TINY := 0.000000000001

  // ----- equity curve -----

  function Factor(d: seq<real>, k: nat): real
    requires k < |d|
  {
    1.0 + d[k]
  }

  /** Equity after `k` days; day 0 is the prepended starting capital. */
  function Equity(d: seq<real>, k: nat): real
    requires k <= |d|
  {
    if k == 0 then 1.0 else Equity(d, k - 1) * Factor(d, k - 1)
  }

  function Peak(d: seq<real>, k: nat): (r: real)
    requires k <= |d|
    ensures r >= 1.0
  {
    if k == 0 then 1.0 else Max(Peak(d, k - 1), Equity(d, k))
  }

  function Ratio(d: seq<real>, k: nat): real
    requires k <= |d|
  {
    Equity(d, k) / Peak(d, k)
  }

  /** The smallest equity/peak - 1 over days 0..k. */
  function MaxDrawdownTo(d: seq<real>, k: nat): (r: real)
    requires k <= |d|
    ensures r <= 0.0
  {
    if k == 0 then 0.0 else Min(MaxDrawdownTo(d, k - 1), Ratio(d, k) - 1.0)
  }

  function MaxDrawdown(d: seq<real>): real {
    MaxDrawdownTo(d, |d|)
  }

  function Underwater(d: seq<real>): seq<bool> {
    seq(|d| + 1, k requires 0 <= k <= |d| => Equity(d, k) < Peak(d, k) * (1.0 - TINY))
  }

  lemma DivideMonotone(a: real, b: real, c: real)
    requires c > 0.0 && a <= b
    ensures a / c <= b / c
  {
  }

  lemma ProductPositive(a: real, b: real)
    requires a > 0.0
    ensures a * b > 0.0 <==> b > 0.0
  {
  }

  /** The ratio moves by the day's factor and is clipped at one. */
  lemma RatioStep(d: seq<real>, k: nat)
    requires k < |d|
    ensures Ratio(d, k + 1) == Min(Ratio(d, k) * Factor(d, k), 1.0)
  {
    ClippedRatio(Equity(d, k), Peak(d, k), Factor(d, k));
  }

  lemma ClippedRatio(e: real, p: real, f: real)
    requires p > 0.0
    ensures e * f / Max(p, e * f) == Min(e / p * f, 1.0)
  {
    assert (e / p) * f == (e * f) / p;
    if e * f <= p {
      DivideMonotone(e * f, p, p);
    } else {
      DivideMonotone(p, e * f, p);
    }
  }

  ghost predicate Lowered(low: seq<real>, high: seq<real>) {
    |low| == |high| && forall k :: 0 <= k < |low| ==> low[k] <= high[k]
  }

  /** No day loses more than everything. */
  ghost predicate LossLimited(d: seq<real>) {
    forall k :: 0 <= k < |d| ==> Factor(d, k) >= 0.0
  }

  lemma QuotientNonNegative(a: real, b: real)
    requires a >= 0.0 && b > 0.0
    ensures a / b >= 0.0
  {
  }

  /** Lowering returns lowers equity and equity/peak on every day. */
  lemma {:induction false} LoweredCurve(low: seq<real>, high: seq<real>, k: nat)
    requires Lowered(low, high) && LossLimited(low) && k <= |low|
    ensures 0.0 <= Equity(low, k) <= Equity(high, k)
    ensures 0.0 <= Ratio(low, k) <= Ratio(high, k)
  {
    if k > 0 {
      LoweredCurve(low, high, k - 1);
      LoweredEquity(low, high, k - 1);
      LoweredRatio(low, high, k - 1);
    }
    QuotientNonNegative(Equity(low, k), Peak(low, k));
  }

  lemma LoweredEquity(low: seq<real>, high: seq<real>, k: nat)
    requires Lowered(low, high) && LossLimited(low) && k < |low|
    requires 0.0 <= Equity(low, k) <= Equity(high, k)
    ensures 0.0 <= Equity(low, k + 1) <= Equity(high, k + 1)
  {
    ProductMonotone(Equity(low, k), Equity(high, k), Factor(low, k), Factor(high, k));
  }

  lemma LoweredRatio(low: seq<real>, high: seq<real>, k: nat)
    requires Lowered(low, high) && LossLimited(low) && k < |low|
    requires 0.0 <= Ratio(low, k) <= Ratio(high, k)
    ensures Ratio(low, k + 1) <= Ratio(high, k + 1)
  {
    var x, y := LoweredProduct(Ratio(low, k), Ratio(high, k), Factor(low, k), Factor(high, k));
    NextRatio(low, k, x);
    NextRatio(high, k, y);
  }

  lemma LoweredProduct(r: real, t: real, f: real, g: real) returns (x: real, y: real)
    requires 0.0 <= r <= t && 0.0 <= f <= g
    ensures IsProduct(x, r, f) && IsProduct(y, t, g) && x <= y
  {
    x, y := r * f, t * g;
    ProductMonotone(r, t, f, g);
  }

  lemma NextRatio(d: seq<real>, k: nat, x: real)
    requires k < |d| && IsProduct(x, Ratio(d, k), Factor(d, k))
    ensures Ratio(d, k + 1) == Min(x, 1.0)
  {
    RatioStep(d, k);
  }

  lemma {:induction false} LoweredDrawdown(low: seq<real>, high: seq<real>, k: nat)
    requires Lowered(low, high) && LossLimited(low) && k <= |low|
    ensures MaxDrawdownTo(low, k) <= MaxDrawdownTo(high, k)
  {
    if k > 0 {
      LoweredDrawdown(low, high, k - 1);
      LoweredCurve(low, high, k);
    }
  }

  lemma UnderwaterByRatio(d: seq<real>, k: nat)
    requires k <= |d|
    ensures Underwater(d)[k] <==> Ratio(d, k) < 1.0 - TINY
  {
    var e, p, c := Equity(d, k), Peak(d, k), 1.0 - TINY;
    assert p * c / p == c;
    if e < p * c {
      assert e / p < (p * c) / p;
    } else {
      DivideMonotone(p * c, e, p);
    }
  }

  lemma LoweredSpell(low: seq<real>, high: seq<real>)
    requires Lowered(low, high) && LossLimited(low)
    ensures LongestSpell(Underwater(high)) <= LongestSpell(Underwater(low))
  {
    forall k: nat | k <= |low| && Underwater(high)[k] ensures Underwater(low)[k] {
      LoweredCurve(low, high, k);
      UnderwaterByRatio(low, k);
      UnderwaterByRatio(high, k);
    }
    LargerMaskLongerSpell(Underwater(high), Underwater(low));
  }

  /** A drawdown above -100% forces every day's growth factor to be positive. */
  lemma ShallowIsSolvent(d: seq<real>)
    requires MaxDrawdown(d) > -1.0
    ensures forall k :: 0 <= k < |d| ==> Factor(d, k) > 0.0
  {
    forall k | 0 <= k < |d| ensures Factor(d, k) > 0.0 {
      DrawdownBound(d, k, |d|);
      DrawdownBound(d, k + 1, |d|);
      var r, f := Ratio(d, k), Factor(d, k);
      RatioStep(d, k);
      ProductPositive(r, f);
    }
  }

  lemma {:induction false} DrawdownBound(d: seq<real>, k: nat, n: nat)
    requires k <= n <= |d|
    ensures MaxDrawdownTo(d, n) <= Ratio(d, k) - 1.0
    decreases n
  {
    if k < n {
      DrawdownBound(d, k, n - 1);
    }
  }

  // ----- what the curve and the drawdown are -----

  /** Equity starts at one and compounds: k days at one return c multiply it to (1 + c)^k. */
  lemma {:induction false} ConstantGrowth(d: seq<real>, c: real, k: nat)
    requires k <= |d| && forall j :: 0 <= j < k ==> d[j] == c
    ensures Equity(d, k) == Pow(1.0 + c, k)
    decreases k
  {
    if k > 0 {
      ConstantGrowth(d, c, k - 1);
    }
  }

  /** The peak is the largest equity so far. */
  lemma {:induction false} PeakIsMax(d: seq<real>, k: nat) returns (j: nat)
    requires k <= |d|
    ensures j <= k && Peak(d, k) == Equity(d, j)
    ensures forall i: nat :: i <= k ==> Equity(d, i) <= Peak(d, k)
    decreases k
  {
    if k == 0 {
      j := 0;
    } else {
      j := PeakIsMax(d, k - 1);
      if Equity(d, k) > Peak(d, k - 1) {
        j := k;
      }
    }
  }

  /** The maximum drawdown is the worst loss from any earlier day to any later one: some pair of days has it... */
  lemma {:induction false} DrawdownAttained(d: seq<real>, n: nat) returns (j: nat, k: nat)
    requires n <= |d|
    ensures j <= k <= n && Equity(d, j) > 0.0 && MaxDrawdownTo(d, n) == Equity(d, k) / Equity(d, j) - 1.0
    decreases n
  {
    if n > 0 && Ratio(d, n) - 1.0 <= MaxDrawdownTo(d, n - 1) {
      k := n;
      j := PeakIsMax(d, n);
    } else if n > 0 {
      j, k := DrawdownAttained(d, n - 1);
    } else {
      j, k := 0, 0;
    }
  }

  /** ...and no pair has a worse one. */
  lemma DrawdownIsWorst(d: seq<real>, j: nat, k: nat)
    requires j <= k <= |d| && Equity(d, j) > 0.0 && Equity(d, k) >= 0.0
    ensures MaxDrawdown(d) <= Equity(d, k) / Equity(d, j) - 1.0
  {
    DrawdownBound(d, k, |d|);
    var top := PeakIsMax(d, k);
    LargerDenominator(Equity(d, k), Equity(d, j), Peak(d, k));
  }

  lemma LargerDenominator(x: real, a: real, b: real)
    requires x >= 0.0 && 0.0 < a <= b
    ensures x / b <= x / a
  {
    var q := x / b;
    assert q * b == x;
    assert q >= 0.0;
    ProductMonotone(q, q, a, b);
    CancelFactor(q, x / a, a, q * a, x);
  }

  /** A day is under water when equity stands more than one part in a million million below some earlier day's. */
  lemma UnderwaterMeaning(d: seq<real>, k: nat)
    requires k <= |d|
    ensures Underwater(d)[k] <==> exists j: nat :: j <= k && Equity(d, k) < Equity(d, j) * (1.0 - 0.000000000001)
  {
    var c := 1.0 - 0.000000000001;
    var top := PeakIsMax(d, k);
    forall j: nat | j <= k ensures Equity(d, j) * c <= Peak(d, k) * c {
      ScaledDown(Equity(d, j), Peak(d, k), c);
    }
  }

  lemma ScaledDown(a: real, b: real, c: real)
    requires a <= b && c >= 0.0
    ensures a * c <= b * c
  {
  }

  // ----- the battery's metrics -----

  lemma {:induction false} PowMonotone(x: real, y: real, n: nat)
    requires 0.0 < x <= y
    ensures 0.0 < Pow(x, n) <= Pow(y, n)
    ensures x < y && n > 0 ==> Pow(x, n) < Pow(y, n)
  {
    if n > 0 {
      PowMonotone(x, y, n - 1);
      ProductStrict(x, y, Pow(x, n - 1), Pow(y, n - 1));
    }
  }

  lemma ProductStrict(x: real, y: real, a: real, b: real)
    requires 0.0 < x <= y && 0.0 < a <= b
    ensures 0.0 < x * a <= y * b
    ensures x < y ==> x * a < y * b
  {
    assert x * a <= x * b;
    assert (y - x) * b >= 0.0;
    if x < y {
      assert (y - x) * b > 0.0;
    }
  }

  /** The (n/ann)-th root of final equity, less one; -1 for a wiped-out book. */
  ghost predicate IsCagr(d: seq<real>, ann: nat, c: real)
    requires d != [] && ann > 0
  {
    var last := Equity(d, |d|);
    if last > 0.0 then c > -1.0 && Pow(1.0 + c, |d|) == Pow(last, ann) else c == -1.0
  }

  datatype Extended = Finite(value: real) | Infinite

  predicate AtLeast(v: Extended, floor: real) {
    v.Infinite? || v.value >= floor
  }

  predicate Above(v: Extended, floor: real) {
    v.Infinite? || v.value > floor
  }

  function PerDrawdown(c: real, mdd: real): Extended {
    if mdd > 0.0 then Finite(c / mdd) else Infinite
  }

  ghost predicate IsCalmar(d: seq<real>, ann: nat, v: Extended)
    requires d != [] && ann > 0
  {
    exists c :: IsCagr(d, ann, c) && v == PerDrawdown(c, Abs(MaxDrawdown(d)))
  }

  function Downside(x: real): real {
    Min(0.0, x) * Min(0.0, x)
  }

  function SquaredDownside(d: seq<real>): seq<real> {
    seq(|d|, k requires 0 <= k < |d| => Downside(d[k]))
  }

  /** mean / downside deviation * sqrt(ann), stated by its square and its sign; target 0. */
  ghost predicate IsSortino(d: seq<real>, ann: nat, v: Extended)
    requires d != [] && ann > 0
  {
    IsRiskRatio(v, Mean(d), Mean(SquaredDownside(d)), ann as real)
  }

  datatype Metrics = Metrics(calmar: Extended, maxdd: real, worstEpisode: real, recoveryMonths: real, sortino: Extended)

  ghost predicate IsBattery(d: seq<real>, ann: nat, m: Metrics)
    requires d != [] && ann > 0
  {
    && IsCalmar(d, ann, m.calmar)
    && m.maxdd == MaxDrawdown(d)
    && m.worstEpisode == Abs(MaxDrawdown(d))
    && m.recoveryMonths == Months(LongestSpell(Underwater(d)), ann)
    && IsSortino(d, ann, m.sortino)
  }

  datatype Floors = Floors(calmar: real, maxdd: real, worstEpisode: real, sortino: real, recoveryMax: real)

  predicate Passes(m: Metrics, f: Floors) {
    && AtLeast(m.calmar, f.calmar)
    && m.maxdd > f.maxdd
    && m.worstEpisode < f.worstEpisode
    && Above(m.sortino, f.sortino)
    && m.recoveryMonths <= f.recoveryMax
  }

  // ----- what the metrics and the floors say of the series -----

  lemma {:induction false} PowOfProduct(x: real, y: real, z: real, n: nat)
    requires IsProduct(z, x, y)
    ensures IsProduct(Pow(z, n), Pow(x, n), Pow(y, n))
  {
    if n > 0 {
      PowOfProduct(x, y, z, n - 1);
      Regroup(x, y, Pow(x, n - 1), Pow(y, n - 1));
    }
  }

  lemma Regroup(x: real, y: real, a: real, b: real)
    ensures x * y * (a * b) == x * a * (y * b)
  {
  }

  lemma {:induction false} PowersCommute(x: real, m: nat, n: nat)
    ensures Pow(Pow(x, n), m) == Pow(Pow(x, m), n)
  {
    if n == 0 {
      PowOfOne(m);
    } else {
      PowersCommute(x, m, n - 1);
      NextPower(x, n - 1);
      NextPower(Pow(x, m), n - 1);
      PowOfProduct(x, Pow(x, n - 1), Pow(x, n), m);
    }
  }

  lemma NextPower(x: real, n: nat)
    ensures IsProduct(Pow(x, n + 1), x, Pow(x, n))
  {
  }

  lemma {:induction false} PowOfOne(n: nat)
    ensures Pow(1.0, n) == 1.0
  {
    if n > 0 {
      PowOfOne(n - 1);
    }
  }

  /** A book that earns c every day grows by (1 + c)^ann a year, however long the series. */
  lemma CagrOfConstant(d: seq<real>, c: real, ann: nat, cagr: real)
    requires d != [] && ann > 0 && c > -1.0 && IsCagr(d, ann, cagr)
    requires forall k :: 0 <= k < |d| ==> d[k] == c
    ensures 1.0 + cagr == Pow(1.0 + c, ann)
  {
    var n, x := |d|, 1.0 + c;
    ConstantGrowth(d, c, n);
    PowMonotone(x, x, n);
    PowMonotone(x, x, ann);
    PowersCommute(x, ann, n);
    SameRoot(1.0 + cagr, Pow(x, ann), n);
  }

  lemma SameRoot(a: real, b: real, n: nat)
    requires a > 0.0 && b > 0.0 && n > 0 && Pow(a, n) == Pow(b, n)
    ensures a == b
  {
    if a < b {
      PowMonotone(a, b, n);
    } else if b < a {
      PowMonotone(b, a, n);
    }
  }

  /** Calmar is the CAGR over the depth of the maximum drawdown, unbounded for a book that never falls. */
  lemma CalmarOutright(d: seq<real>, ann: nat, v: Extended) returns (cagr: real)
    requires d != [] && ann > 0 && IsCalmar(d, ann, v)
    ensures IsCagr(d, ann, cagr)
    ensures if MaxDrawdown(d) == 0.0 then v == Infinite else v.Finite? && v.value * -MaxDrawdown(d) == cagr
  {
    cagr :| IsCagr(d, ann, cagr) && v == PerDrawdown(cagr, Abs(MaxDrawdown(d)));
  }

  /** A book that never loses has no Sortino ratio to bound. */
  lemma {:induction false} NoLossNoDownside(d: seq<real>)
    requires forall k :: 0 <= k < |d| ==> d[k] >= 0.0
    ensures Sum(SquaredDownside(d)) == 0.0
  {
    if d != [] {
      NoLossNoDownside(d[..|d| - 1]);
      SquaredDownsideLast(d, Downside(d[|d| - 1]));
    }
  }

  lemma SortinoWithoutLoss(d: seq<real>, ann: nat, v: Extended)
    requires d != [] && ann > 0 && IsSortino(d, ann, v) && forall k :: 0 <= k < |d| ==> d[k] >= 0.0
    ensures v == Infinite
  {
    NoLossNoDownside(d);
  }

  /** One gain and one smaller loss: the ratio is the mean over the root mean square of the loss, annualised. */
  lemma SortinoOfTwoDays(gain: real, loss: real, ann: nat, v: Extended)
    requires 0.0 < loss < gain && ann > 0 && IsSortino([gain, -loss], ann, v)
    ensures v.Finite? && v.value >= 0.0
    ensures 2.0 * (v.value * v.value) * (loss * loss) == (gain - loss) * (gain - loss) * ann as real
  {
    var d := [gain, -loss];
    assert d[..1] == [gain] && [gain][..0] == [];
    assert Downside(-loss) == loss * loss;
    SquaredDownsideLast(d, loss * loss);
    SquaredDownsideLast([gain], 0.0);
    assert Sum([gain]) == gain;
    assert Sum(d) == gain - loss;
    assert SquaredDownside([]) == [];
    assert Sum(SquaredDownside(d)) == loss * loss;
    TwoDayRatio(gain, loss, loss * loss, Mean(d), Mean(SquaredDownside(d)), ann as real, v);
  }

  lemma TwoDayRatio(gain: real, loss: real, sq: real, mean: real, q: real, ann: real, v: Extended)
    requires 0.0 < loss < gain && IsProduct(sq, loss, loss)
    requires mean == (gain - loss) / 2.0 && q == sq / 2.0 && IsRiskRatio(v, mean, q, ann)
    ensures v.Finite? && v.value >= 0.0
    ensures 2.0 * (v.value * v.value) * sq == (gain - loss) * (gain - loss) * ann
  {
    SignOfProduct(loss, loss, sq);
    NonNegative(v.value, mean);
    var vv := v.value * v.value;
    assert vv * q == mean * mean * ann;
    assert 4.0 * (mean * mean) == (gain - loss) * (gain - loss);
    assert 4.0 * (vv * q) == 4.0 * (mean * mean) * ann;
    assert 4.0 * (vv * q) == 2.0 * vv * sq;
  }

  ghost predicate EveryLossAbove(d: seq<real>, floor: real) {
    forall j: nat, k: nat :: j <= k <= |d| && Equity(d, j) > 0.0 ==> Equity(d, k) / Equity(d, j) - 1.0 > floor
  }

  ghost predicate EverySpellWithin(d: seq<real>, ann: nat, months: real) {
    forall i, j :: IsRun(Underwater(d), i, j) ==> (j - i) as real * 12.0 <= months * ann as real
  }

  lemma DrawdownFloor(d: seq<real>, floor: real)
    requires LossLimited(d)
    ensures MaxDrawdown(d) > floor <==> EveryLossAbove(d, floor)
  {
    if MaxDrawdown(d) > floor {
      forall j: nat, k: nat | j <= k <= |d| && Equity(d, j) > 0.0
        ensures Equity(d, k) / Equity(d, j) - 1.0 > floor {
        LoweredCurve(d, d, k);
        DrawdownIsWorst(d, j, k);
      }
    } else {
      var j, k := DrawdownAttained(d, |d|);
    }
  }

  lemma SpellCeiling(d: seq<real>, ann: nat, months: real)
    requires ann > 0
    ensures Months(LongestSpell(Underwater(d)), ann) <= months <==> EverySpellWithin(d, ann, months)
  {
    var mask := Underwater(d);
    var n := LongestSpell(mask);
    MonthsWithin(n, ann, months);
    var i, j :| IsRun(mask, i, j) && j - i == n;
  }

  lemma MonthsWithin(n: nat, ann: nat, months: real)
    requires ann > 0
    ensures Months(n, ann) <= months <==> n as real * 12.0 <= months * ann as real
  {
    MonthsOutright(n, ann);
    var a := ann as real;
    if Months(n, ann) <= months {
      Scale(Months(n, ann), months, a);
    } else {
      ScaleStrict(months, Months(n, ann), a);
    }
  }

  /**
   * What the battery asks of a book: a Calmar at its floor or above, no loss from any day to any later one as deep as
   * either drawdown bound, a Sortino above its floor, and no stretch under water longer than the ceiling.
   */
  lemma PassingMeans(d: seq<real>, ann: nat, m: Metrics, f: Floors)
    requires d != [] && ann > 0 && LossLimited(d) && IsBattery(d, ann, m)
    ensures Passes(m, f)
       <==> && (m.calmar.Finite? ==> m.calmar.value >= f.calmar)
            && EveryLossAbove(d, f.maxdd) && EveryLossAbove(d, -f.worstEpisode)
            && (m.sortino.Finite? ==> m.sortino.value > f.sortino)
            && EverySpellWithin(d, ann, f.recoveryMax)
  {
    DrawdownFloor(d, f.maxdd);
    DrawdownFloor(d, -f.worstEpisode);
    SpellCeiling(d, ann, f.recoveryMax);
  }

  // ----- monotonicity of the metrics -----

  lemma LoweredCagr(low: seq<real>, high: seq<real>, ann: nat, a: real, b: real)
    requires low != [] && ann > 0 && Lowered(low, high) && LossLimited(low)
    requires IsCagr(low, ann, a) && IsCagr(high, ann, b)
    ensures -1.0 <= a <= b
  {
    LoweredCurve(low, high, |low|);
    if Equity(low, |low|) > 0.0 {
      PowMonotone(Equity(low, |low|), Equity(high, |low|), ann);
      if b < a {
        PowMonotone(1.0 + b, 1.0 + a, |low|);
      }
    }
  }

  lemma LoweredCalmar(low: seq<real>, high: seq<real>, ann: nat, a: Extended, b: Extended, floor: real)
    requires low != [] && ann > 0 && Lowered(low, high) && LossLimited(low)
    requires IsCalmar(low, ann, a) && IsCalmar(high, ann, b)
    requires floor > 0.0 && AtLeast(a, floor)
    ensures AtLeast(b, floor)
  {
    var c :| IsCagr(low, ann, c) && a == PerDrawdown(c, Abs(MaxDrawdown(low)));
    var e :| IsCagr(high, ann, e) && b == PerDrawdown(e, Abs(MaxDrawdown(high)));
    LoweredCagr(low, high, ann, c, e);
    LoweredDrawdown(low, high, |low|);
    if b.Finite? {
      QuotientMonotone(c, e, Abs(MaxDrawdown(low)), Abs(MaxDrawdown(high)), floor);
    }
  }

  lemma QuotientMonotone(c: real, e: real, m: real, n: real, floor: real)
    requires c <= e && 0.0 < n <= m && floor > 0.0 && c / m >= floor
    ensures e / n >= floor
  {
    assert c == (c / m) * m;
    assert (c / m) * m >= floor * m >= floor * n;
    assert e / n >= (floor * n) / n == floor;
  }

  lemma SquaredDownsideLast(d: seq<real>, q: real)
    requires d != [] && q == Downside(d[|d| - 1])
    ensures Sum(SquaredDownside(d)) == Sum(SquaredDownside(d[..|d| - 1])) + q
  {
    var n := |d| - 1;
    var a, b := SquaredDownside(d)[..n], SquaredDownside(d[..n]);
    assert forall k :: 0 <= k < n ==> a[k] == b[k];
    assert a == b;
  }

  lemma DownsideFalls(x: real, y: real)
    requires x <= y
    ensures 0.0 <= Downside(y) <= Downside(x)
  {
    ProductMonotone(-Min(0.0, y), -Min(0.0, x), -Min(0.0, y), -Min(0.0, x));
  }

  lemma {:induction false} LoweredSums(low: seq<real>, high: seq<real>)
    requires Lowered(low, high)
    ensures Sum(low) <= Sum(high)
    ensures 0.0 <= Sum(SquaredDownside(high)) <= Sum(SquaredDownside(low))
  {
    if low != [] {
      var n := |low| - 1;
      LoweredSums(low[..n], high[..n]);
      DownsideFalls(low[n], high[n]);
      SquaredDownsideLast(low, Downside(low[n]));
      SquaredDownsideLast(high, Downside(high[n]));
    }
  }

  lemma LoweredSortino(low: seq<real>, high: seq<real>, ann: nat, a: Extended, b: Extended, floor: real)
    requires low != [] && ann > 0 && Lowered(low, high)
    requires IsSortino(low, ann, a) && IsSortino(high, ann, b)
    requires floor >= 0.0 && Above(a, floor)
    ensures Above(b, floor)
  {
    LoweredSums(low, high);
    var n := |low| as real;
    var p, q := Mean(SquaredDownside(low)), Mean(SquaredDownside(high));
    DivideMonotone(Sum(low), Sum(high), n);
    DivideMonotone(Sum(SquaredDownside(high)), Sum(SquaredDownside(low)), n);
    RiskRatioMonotone(Mean(low), Mean(high), p, q, ann as real, a, b, floor);
  }

  /** v is the signed ratio whose square times the mean squared downside is the squared mean, annualised. */
  predicate IsRiskRatio(v: Extended, mean: real, q: real, ann: real) {
    if q > 0.0 then v.Finite? && v.value * v.value * q == mean * mean * ann && v.value * mean >= 0.0
    else v == Infinite
  }

  lemma RiskRatioMonotone(m: real, n: real, p: real, q: real, ann: real, a: Extended, b: Extended, floor: real)
    requires m <= n && q <= p && ann > 0.0
    requires IsRiskRatio(a, m, p, ann) && IsRiskRatio(b, n, q, ann)
    requires floor >= 0.0 && Above(a, floor)
    ensures Above(b, floor)
  {
    if q > 0.0 {
      SquareRootMonotone(m, n, p, q, ann, a.value, b.value);
    }
  }

  lemma SquareRootMonotone(m: real, n: real, p: real, q: real, ann: real, v: real, w: real)
    requires m <= n && 0.0 < q <= p && ann > 0.0 && v > 0.0
    requires v * v * p == m * m * ann && v * m >= 0.0
    requires w * w * q == n * n * ann && w * n >= 0.0
    ensures w >= v
  {
    PositiveBySquare(m, p, ann, v);
    if w < v {
      NonNegative(w, n);
      SquaresStrict(w, v);
      ProductMonotone(m, n, m, n);
      ChainedScales(w * w, v * v, m * m, n * n, p, q, ann);
    }
  }

  lemma ChainedScales(ww: real, vv: real, mm: real, nn: real, p: real, q: real, ann: real)
    requires ww < vv && 0.0 <= vv && mm <= nn && 0.0 < q <= p && ann > 0.0
    requires vv * p == mm * ann
    ensures ww * q < nn * ann
  {
    ScaleStrict(ww, vv, q);
    Scale(q, p, vv);
    Scale(mm, nn, ann);
  }

  lemma Scale(a: real, b: real, c: real)
    requires a <= b && c >= 0.0
    ensures a * c <= b * c
  {
  }

  lemma ScaleStrict(a: real, b: real, c: real)
    requires a < b && c > 0.0
    ensures a * c < b * c
  {
  }

  lemma SquaresStrict(w: real, v: real)
    requires 0.0 <= w < v
    ensures w * w < v * v
  {
    assert v * v - w * w == (v - w) * (v + w);
    ScaleStrict(0.0, v - w, v + w);
  }

  lemma NonNegative(w: real, n: real)
    requires n > 0.0 && w * n >= 0.0
    ensures w >= 0.0
  {
  }

  lemma PositiveBySquare(m: real, p: real, ann: real, v: real)
    requires p > 0.0 && ann > 0.0 && v > 0.0
    requires v * v * p == m * m * ann && v * m >= 0.0
    ensures m > 0.0
  {
    NonNegative(m, v);
    if m == 0.0 {
      ProductPositive(v, p);
      ProductPositive(v, v * p);
    }
  }

  /** What keeps equity from turning negative: a drawdown floor no lower than -100%, or no day losing more than all. */
  ghost predicate BoundedLoss(d: seq<real>, f: Floors) {
    f.maxdd >= -1.0 || LossLimited(d)
  }

  lemma PassingLimitsLoss(d: seq<real>, ann: nat, f: Floors, m: Metrics)
    requires d != [] && ann > 0 && IsBattery(d, ann, m) && Passes(m, f) && BoundedLoss(d, f)
    ensures LossLimited(d)
  {
    if m.maxdd > -1.0 {
      ShallowIsSolvent(d);
    }
  }

  /**
   * The stress-grading law: if a lowered series passes all five floors then the series itself does.
   * With a drawdown floor of at least -100% only the configuration is constrained; the returns are not.
   */
  lemma PassingIsMonotone(low: seq<real>, high: seq<real>, ann: nat, f: Floors, a: Metrics, b: Metrics)
    requires low != [] && ann > 0 && Lowered(low, high)
    requires IsBattery(low, ann, a) && IsBattery(high, ann, b)
    requires f.calmar > 0.0 && f.sortino >= 0.0 && BoundedLoss(low, f)
    requires Passes(a, f)
    ensures Passes(b, f)
  {
    PassingLimitsLoss(low, ann, f, a);
    LoweredDrawdown(low, high, |low|);
    LoweredSpell(low, high);
    DivideMonotone(LongestSpell(Underwater(high)) as real, LongestSpell(Underwater(low)) as real, ann as real);
    LoweredCalmar(low, high, ann, a.calmar, b.calmar, f.calmar);
    LoweredSortino(low, high, ann, a.sortino, b.sortino, f.sortino);
  }

  // ----- the injector -----

  datatype Window = Window(lo: int, hi: int)

  predicate InWindow(dates: seq<int>, w: Window, i: nat)
    requires i < |dates|
  {
    w.lo <= dates[i] <= w.hi
  }

  /** The first of the days 0..n inside the window on which the short leg is worst, if there is any. */
  ghost predicate IsSqueezeDay(short: seq<real>, dates: seq<int>, w: Window, n: nat, day: Option<nat>)
    requires n <= |short| == |dates|
  {
    match day
    case None => forall j: nat :: j < n ==> !InWindow(dates, w, j)
    case Some(i) =>
      && i < n && InWindow(dates, w, i)
      && (forall j: nat :: j < n && InWindow(dates, w, j) ==> short[i] <= short[j])
      && (forall j: nat :: j < i && InWindow(dates, w, j) ==> short[i] < short[j])
  }

  /** `wpos[argmin(s_short[wpos])]`. */
  function SqueezeDay(short: seq<real>, dates: seq<int>, w: Window, n: nat): (day: Option<nat>)
    requires n <= |short| == |dates|
    ensures IsSqueezeDay(short, dates, w, n, day)
  {
    if n == 0 then None
    else
      var day := SqueezeDay(short, dates, w, n - 1);
      if InWindow(dates, w, n - 1) && (day.None? || short[n - 1] < short[day.value]) then Some(n - 1) else day
  }

  function Lower(s: seq<real>, day: Option<nat>, shock: real): seq<real>
    requires day.Some? ==> day.value < |s|
  {
    if day.None? then s else s[day.value := s[day.value] - shock]
  }

  /** Net and short leg after the windows' shocks, the short leg deciding every squeeze day. */
  function Stressed(net: seq<real>, short: seq<real>, dates: seq<int>, windows: seq<Window>, shock: real)
    : (r: (seq<real>, seq<real>))
    requires |net| == |short| == |dates|
    ensures |r.0| == |r.1| == |dates|
  {
    if windows == [] then (net, short)
    else
      var (n, s) := Stressed(net, short, dates, windows[..|windows| - 1], shock);
      var day := SqueezeDay(s, dates, windows[|windows| - 1], |dates|);
      (Lower(n, day, shock), Lower(s, day, shock))
  }

  /** How many windows have squeezed day k. */
  ghost function HitsOn(days: seq<Option<nat>>, k: nat): nat {
    if days == [] then 0 else HitsOn(days[..|days| - 1], k) + if days[|days| - 1] == Some(k) then 1 else 0
  }

  /** n shocks. */
  function Shocks(n: nat, shock: real): real {
    if n == 0 then 0.0 else Shocks(n - 1, shock) + shock
  }

  lemma {:induction false} ShocksAdd(n: nat, shock: real)
    ensures Shocks(n, shock) == n as real * shock
  {
    if n > 0 {
      ShocksAdd(n - 1, shock);
    }
  }

  /** A leg less one shock for every time a day was squeezed. */
  ghost function LessHits(s: seq<real>, days: seq<Option<nat>>, shock: real): seq<real> {
    seq(|s|, k requires 0 <= k < |s| => s[k] - Shocks(HitsOn(days, k), shock))
  }

  lemma LessAt(s: seq<real>, days: seq<Option<nat>>, shock: real, k: nat)
    requires k < |s|
    ensures LessHits(s, days, shock)[k] == s[k] - HitsOn(days, k) as real * shock
  {
    ShocksAdd(HitsOn(days, k), shock);
  }

  /** Each window squeezes the first of its worst days on the short leg as the earlier windows left it. */
  ghost predicate AreSqueezeDays(short: seq<real>, dates: seq<int>, windows: seq<Window>, shock: real,
                                 days: seq<Option<nat>>)
    requires |short| == |dates|
  {
    |days| == |windows|
    && forall w :: 0 <= w < |windows| ==>
                     IsSqueezeDay(LessHits(short, days[..w], shock), dates, windows[w], |dates|, days[w])
  }

  lemma OneMoreHit(s: seq<real>, days: seq<Option<nat>>, day: Option<nat>, shock: real)
    requires day.Some? ==> day.value < |s|
    ensures Lower(LessHits(s, days, shock), day, shock) == LessHits(s, days + [day], shock)
  {
    var before, after := LessHits(s, days, shock), LessHits(s, days + [day], shock);
    forall k: nat | k < |s| ensures Lower(before, day, shock)[k] == after[k] {
      HitsGrow(days, day, k);
    }
  }

  lemma HitsGrow(days: seq<Option<nat>>, day: Option<nat>, k: nat)
    ensures HitsOn(days + [day], k) == HitsOn(days, k) + if day == Some(k) then 1 else 0
  {
    var more := days + [day];
    assert more[..|more| - 1] == days;
  }

  /** The hits on a day are the windows that squeezed it. */
  lemma {:induction false} HitsAreCounted(days: seq<Option<nat>>, k: nat)
    ensures HitsOn(days, k) == |set w | 0 <= w < |days| && days[w] == Some(k)|
  {
    if days != [] {
      var last := |days| - 1;
      HitsAreCounted(days[..last], k);
      OneMoreCounted(days, k, last);
    }
  }

  lemma OneMoreCounted(days: seq<Option<nat>>, k: nat, last: nat)
    requires |days| == last + 1
    ensures |set w | 0 <= w < |days| && days[w] == Some(k)|
         == |set w | 0 <= w < last && days[..last][w] == Some(k)| + if days[last] == Some(k) then 1 else 0
  {
    var before := set w | 0 <= w < last && days[..last][w] == Some(k);
    var after := set w | 0 <= w < |days| && days[w] == Some(k);
    assert after == if days[last] == Some(k) then before + {last} else before;
  }

  lemma NoHits(s: seq<real>, shock: real)
    ensures LessHits(s, [], shock) == s
  {
  }

  lemma {:induction false} StressedByDays(net: seq<real>, short: seq<real>, dates: seq<int>, windows: seq<Window>,
                                          shock: real) returns (days: seq<Option<nat>>)
    requires |net| == |short| == |dates|
    ensures AreSqueezeDays(short, dates, windows, shock, days)
    ensures Stressed(net, short, dates, windows, shock)
         == (LessHits(net, days, shock), LessHits(short, days, shock))
    decreases |windows|
  {
    if windows == [] {
      days := [];
      NoHits(net, shock);
      NoHits(short, shock);
    } else {
      var last := |windows| - 1;
      var before := StressedByDays(net, short, dates, windows[..last], shock);
      var day := SqueezeDay(LessHits(short, before, shock), dates, windows[last], |dates|);
      OneMoreHit(net, before, day, shock);
      OneMoreHit(short, before, day, shock);
      days := before + [day];
      OneMoreSqueeze(short, dates, windows, shock, before, day);
    }
  }

  lemma OneMoreSqueeze(short: seq<real>, dates: seq<int>, windows: seq<Window>, shock: real,
                       before: seq<Option<nat>>, day: Option<nat>)
    requires |short| == |dates| && windows != []
    requires AreSqueezeDays(short, dates, windows[..|windows| - 1], shock, before)
    requires IsSqueezeDay(LessHits(short, before, shock), dates, windows[|windows| - 1], |dates|, day)
    ensures AreSqueezeDays(short, dates, windows, shock, before + [day])
  {
    var days, last := before + [day], |windows| - 1;
    forall w | 0 <= w < |windows|
      ensures IsSqueezeDay(LessHits(short, days[..w], shock), dates, windows[w], |dates|, days[w]) {
      assert days[..w] == before[..w];
      if w == last {
        assert before[..w] == before;
      } else {
        assert windows[..last][w] == windows[w] && before[w] == days[w];
      }
    }
  }

  /** One window's shock, in place on both legs. */
  method ShockDay(a: array<real>, b: array<real>, day: Option<nat>, shock: real)
    requires a != b && a.Length == b.Length && (day.Some? ==> day.value < a.Length)
    modifies a, b
    ensures a[..] == Lower(old(a[..]), day, shock) && b[..] == Lower(old(b[..]), day, shock)
  {
    if day.Some? {
      var k := day.value;
      b[k] := b[k] - shock;
      a[k] := a[k] - shock;
    }
  }

  /** The loop: one in-place shock per window. */
  method ShockWindows(net: seq<real>, short: seq<real>, dates: seq<int>, windows: seq<Window>, shock: real)
    returns (sNet: seq<real>, sShort: seq<real>)
    requires |net| == |short| == |dates|
    ensures (sNet, sShort) == Stressed(net, short, dates, windows, shock)
  {
    var a := new real[|net|](i requires 0 <= i < |net| => net[i]);
    var b := new real[|net|](i requires 0 <= i < |net| => short[i]);
    assert a[..] == net && b[..] == short;
    for i := 0 to |windows|
      invariant (a[..], b[..]) == Stressed(net, short, dates, windows[..i], shock)
    {
      var day := SqueezeDay(b[..], dates, windows[i], |dates|);
      ShockDay(a, b, day, shock);
      assert windows[..i + 1][..i] == windows[..i];
    }
    assert windows[..|windows|] == windows;
    sNet, sShort := a[..], b[..];
  }

  /** `inject_short_squeeze`. */
  method InjectShortSqueeze(net: seq<real>, short: seq<real>, dates: seq<int>, windows: seq<Window>, shock: real)
    returns (sNet: seq<real>, sShort: seq<real>)
    requires |net| == |short| == |dates|
    ensures (sNet, sShort) == Stressed(net, short, dates, windows, shock)
    ensures exists days :: AreSqueezeDays(short, dates, windows, shock, days)
                           && sNet == LessHits(net, days, shock) && sShort == LessHits(short, days, shock)
  {
    sNet, sShort := ShockWindows(net, short, dates, windows, shock);
    ghost var days := StressedByDays(net, short, dates, windows, shock);
  }

  /** Shocks applied so far: `hits[k]` windows have squeezed day k. */
  ghost predicate Shocked(before: seq<real>, after: seq<real>, hits: seq<nat>, shock: real) {
    |before| == |after| == |hits|
    && forall k :: 0 <= k < |before| ==> after[k] == before[k] - hits[k] as real * shock
  }

  ghost function Total(hits: seq<nat>): nat {
    if hits == [] then 0 else Total(hits[..|hits| - 1]) + hits[|hits| - 1]
  }

  lemma {:induction false} TotalOfUpdate(hits: seq<nat>, i: nat)
    requires i < |hits|
    ensures Total(hits[i := hits[i] + 1]) == Total(hits) + 1
    decreases |hits|
  {
    var n := |hits| - 1;
    var more := hits[i := hits[i] + 1];
    if i < n {
      TotalOfUpdate(hits[..n], i);
      assert more[..n] == hits[..n][i := hits[i] + 1];
    } else {
      assert more[..n] == hits[..n];
    }
  }

  lemma {:induction false} TotalOfZeros(n: nat)
    ensures Total(seq(n, _ => 0)) == 0
  {
    if n > 0 {
      TotalOfZeros(n - 1);
      assert seq<nat>(n, _ => 0)[..n - 1] == seq<nat>(n - 1, _ => 0);
    }
  }

  ghost predicate Occupied(dates: seq<int>, w: Window) {
    exists j: nat :: j < |dates| && InWindow(dates, w, j)
  }

  ghost function OccupiedCount(dates: seq<int>, windows: seq<Window>): nat {
    if windows == [] then 0
    else OccupiedCount(dates, windows[..|windows| - 1]) + if Occupied(dates, windows[|windows| - 1]) then 1 else 0
  }

  ghost function Hits(days: seq<Option<nat>>, n: nat): seq<nat> {
    seq(n, k requires 0 <= k < n => HitsOn(days, k))
  }

  /** Every window whose squeeze day exists is one hit. */
  lemma {:induction false} HitsTotal(dates: seq<int>, windows: seq<Window>, days: seq<Option<nat>>)
    requires |days| == |windows|
    requires forall w :: 0 <= w < |days| ==> (days[w].Some? <==> Occupied(dates, windows[w]))
    requires forall w :: 0 <= w < |days| && days[w].Some? ==> days[w].value < |dates|
    ensures Total(Hits(days, |dates|)) == OccupiedCount(dates, windows)
  {
    if days == [] {
      TotalOfZeros(|dates|);
      assert Hits([], |dates|) == seq(|dates|, _ => 0);
    } else {
      var last := |days| - 1;
      HitsTotal(dates, windows[..last], days[..last]);
      OneMoreInTotal(days[..last], days[last], |dates|);
      assert days == days[..last] + [days[last]];
    }
  }

  lemma OneMoreInTotal(days: seq<Option<nat>>, day: Option<nat>, n: nat)
    requires day.Some? ==> day.value < n
    ensures Total(Hits(days + [day], n)) == Total(Hits(days, n)) + if day.Some? then 1 else 0
  {
    var before, after := Hits(days, n), Hits(days + [day], n);
    forall k: nat | k < n ensures after[k] == before[k] + if day == Some(k) then 1 else 0 {
      HitsGrow(days, day, k);
    }
    if day.Some? {
      TotalOfUpdate(before, day.value);
      assert after == before[day.value := before[day.value] + 1];
    } else {
      assert after == before;
    }
  }

  lemma SqueezedWhenOccupied(short: seq<real>, dates: seq<int>, w: Window, day: Option<nat>)
    requires |short| == |dates| && IsSqueezeDay(short, dates, w, |dates|, day)
    ensures day.Some? <==> Occupied(dates, w)
    ensures day.Some? ==> day.value < |dates|
  {
  }

  /** Both legs lose the same shocks on the same days, and every window that holds a day costs exactly one shock. */
  lemma InjectionConserves(net: seq<real>, short: seq<real>, dates: seq<int>, windows: seq<Window>, shock: real)
    returns (hits: seq<nat>)
    requires |net| == |short| == |dates|
    ensures Shocked(net, Stressed(net, short, dates, windows, shock).0, hits, shock)
    ensures Shocked(short, Stressed(net, short, dates, windows, shock).1, hits, shock)
    ensures Total(hits) == OccupiedCount(dates, windows)
  {
    var days := StressedByDays(net, short, dates, windows, shock);
    hits := Hits(days, |dates|);
    ShockedByDays(net, days, shock);
    ShockedByDays(short, days, shock);
    OneHitEach(short, dates, windows, shock, days);
  }

  lemma ShockedByDays(s: seq<real>, days: seq<Option<nat>>, shock: real)
    ensures Shocked(s, LessHits(s, days, shock), Hits(days, |s|), shock)
  {
    forall k: nat | k < |s| ensures LessHits(s, days, shock)[k] == s[k] - Hits(days, |s|)[k] as real * shock {
      LessAt(s, days, shock, k);
    }
  }

  lemma OneHitEach(short: seq<real>, dates: seq<int>, windows: seq<Window>, shock: real, days: seq<Option<nat>>)
    requires |short| == |dates| && AreSqueezeDays(short, dates, windows, shock, days)
    ensures Total(Hits(days, |dates|)) == OccupiedCount(dates, windows)
  {
    forall w | 0 <= w < |windows|
      ensures days[w].Some? <==> Occupied(dates, windows[w])
      ensures days[w].Some? ==> days[w].value < |dates| {
      SqueezedWhenOccupied(LessHits(short, days[..w], shock), dates, windows[w], days[w]);
    }
    HitsTotal(dates, windows, days);
  }

  /** The midpoint gap times the squeezed name's weight. */
  function Shock(gapLo: real, gapHi: real, weight: real): real {
    0.5 * (gapLo + gapHi) * weight
  }

  /**
   * Whatever the dates, windows and short leg, a book that passes the battery stressed also passes it raw:
   * the shock is the midpoint gap of a name the book is short, at a non-negative weight.
   */
  lemma StressedPassImpliesRawPass(net: seq<real>, short: seq<real>, dates: seq<int>, windows: seq<Window>,
                                   gapLo: real, gapHi: real, weight: real, ann: nat, f: Floors,
                                   stressed: Metrics, raw: Metrics)
    requires |net| == |short| == |dates| > 0 && ann > 0 && gapLo + gapHi >= 0.0 && weight >= 0.0
    requires var low := Stressed(net, short, dates, windows, Shock(gapLo, gapHi, weight)).0;
             IsBattery(low, ann, stressed) && BoundedLoss(low, f)
    requires IsBattery(net, ann, raw)
    requires f.calmar > 0.0 && f.sortino >= 0.0
    requires Passes(stressed, f)
    ensures Passes(raw, f)
  {
    ShockNonNegative(gapLo, gapHi, weight);
    PassingSurvives(net, short, dates, windows, Shock(gapLo, gapHi, weight), ann, f, stressed, raw);
  }

  /** The shock is midway between the shocks of the two gaps, and a gap of g shocks by g for each unit of weight. */
  lemma ShockIsMidway(gapLo: real, gapHi: real, weight: real)
    ensures Shock(gapLo, gapLo, weight) == gapLo * weight
    ensures Shock(gapHi, gapHi, weight) - Shock(gapLo, gapHi, weight)
         == Shock(gapLo, gapHi, weight) - Shock(gapLo, gapLo, weight)
  {
  }

  lemma ShockNonNegative(gapLo: real, gapHi: real, weight: real)
    requires gapLo + gapHi >= 0.0 && weight >= 0.0
    ensures Shock(gapLo, gapHi, weight) >= 0.0
  {
    SignOfProduct(0.5 * (gapLo + gapHi), weight, Shock(gapLo, gapHi, weight));
  }

  lemma PassingSurvives(net: seq<real>, short: seq<real>, dates: seq<int>, windows: seq<Window>, shock: real,
                        ann: nat, f: Floors, stressed: Metrics, raw: Metrics)
    requires |net| == |short| == |dates| > 0 && ann > 0 && shock >= 0.0
    requires var low := Stressed(net, short, dates, windows, shock).0;
             IsBattery(low, ann, stressed) && BoundedLoss(low, f)
    requires IsBattery(net, ann, raw) && f.calmar > 0.0 && f.sortino >= 0.0
    requires Passes(stressed, f)
    ensures Passes(raw, f)
  {
    StressedIsLowered(net, short, dates, windows, shock);
    PassingIsMonotone(Stressed(net, short, dates, windows, shock).0, net, ann, f, stressed, raw);
  }

  lemma StressedIsLowered(net: seq<real>, short: seq<real>, dates: seq<int>, windows: seq<Window>, shock: real)
    requires |net| == |short| == |dates| && shock >= 0.0
    ensures Lowered(Stressed(net, short, dates, windows, shock).0, net)
  {
    var hits := InjectionConserves(net, short, dates, windows, shock);
    forall k | 0 <= k < |net| ensures Stressed(net, short, dates, windows, shock).0[k] <= net[k] {
      ProductMonotone(0.0, hits[k] as real, shock, shock);
    }
  }
}

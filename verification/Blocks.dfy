/** Block aggregation and the block t with its conditional Newey-West correction (gauntlet/forkb/blocks.py). */
module Blocks {
  import opened Arith
  import opened Bartlett

  // ----- block aggregation -----

  /** The product of 1 + r over a stretch of days. */
  function Growth(r: seq<real>): real {
    if r == [] then 1.0 else Growth(r[..|r| - 1]) * (1.0 + r[|r| - 1])
  }

  /** Every day's 1 + r. */
  ghost function Factors(r: seq<real>): seq<real> {
    seq(|r|, i requires 0 <= i < |r| => 1.0 + r[i])
  }

  lemma {:induction false} GrowthIsProduct(r: seq<real>)
    ensures Growth(r) == Product(Factors(r))
  {
    if r != [] {
      var n := |r| - 1;
      GrowthIsProduct(r[..n]);
      assert Factors(r)[..n] == Factors(r[..n]);
    }
  }

  function BlockCount(n: nat, bt: nat, dropTrailing: bool): nat
    requires bt > 0
  {
    n / bt + if !dropTrailing && n % bt != 0 then 1 else 0
  }

  /** The first day after block b - 1, as the slice bound clips it. */
  function Cut(n: nat, bt: nat, b: nat): (c: nat)
    ensures c <= n
  {
    MinInt(b * bt, n)
  }

  lemma CutMonotone(n: nat, bt: nat, b: nat)
    ensures Cut(n, bt, b) <= Cut(n, bt, b + 1)
  {
    assert (b + 1) * bt == b * bt + bt;
  }

  /** Dropping the trailing block keeps the whole multiple of the block length, otherwise every day is kept. */
  lemma CutAtCount(n: nat, bt: nat, dropTrailing: bool)
    requires bt > 0
    ensures Cut(n, bt, BlockCount(n, bt, dropTrailing)) == if dropTrailing then n - n % bt else n
  {
    var q := n / bt;
    assert n == q * bt + n % bt;
    assert (q + 1) * bt == q * bt + bt;
  }

  /** The first m block returns, each compounded over its own days. */
  function BlocksTo(vals: seq<real>, bt: nat, m: nat): (blocks: seq<real>)
    ensures |blocks| == m
  {
    if m == 0 then []
    else
      CutMonotone(|vals|, bt, m - 1);
      BlocksTo(vals, bt, m - 1) + [Growth(vals[Cut(|vals|, bt, m - 1)..Cut(|vals|, bt, m)]) - 1.0]
  }

  lemma {:induction false} GrowthConcat(a: seq<real>, b: seq<real>)
    ensures IsProduct(Growth(a + b), Growth(a), Growth(b))
    decreases |b|
  {
    if b == [] {
      assert a + b == a;
    } else {
      var n := |b| - 1;
      GrowthConcat(a, b[..n]);
      assert (a + b)[..|a + b| - 1] == a + b[..n];
      var x, y, z := Growth(a), Growth(b[..n]), 1.0 + b[n];
      assert (x * y) * z == x * (y * z);
    }
  }

  /** Nothing the covered days earned is lost or counted twice. */
  lemma {:induction false} CompoundingIsConserved(vals: seq<real>, bt: nat, m: nat)
    ensures Growth(BlocksTo(vals, bt, m)) == Growth(vals[..Cut(|vals|, bt, m)])
  {
    if m > 0 {
      CompoundingIsConserved(vals, bt, m - 1);
      CutMonotone(|vals|, bt, m - 1);
      BlockStep(vals, Cut(|vals|, bt, m - 1), Cut(|vals|, bt, m), BlocksTo(vals, bt, m - 1));
    }
  }

  lemma BlockStep(vals: seq<real>, lo: nat, hi: nat, blocks: seq<real>)
    requires lo <= hi <= |vals| && Growth(blocks) == Growth(vals[..lo])
    ensures Growth(blocks + [Growth(vals[lo..hi]) - 1.0]) == Growth(vals[..hi])
  {
    var g := Growth(vals[lo..hi]);
    GrowthConcat(vals[..lo], vals[lo..hi]);
    assert vals[..lo] + vals[lo..hi] == vals[..hi];
    GrowthAppend(blocks, g);
    SameProduct(Growth(blocks + [g - 1.0]), Growth(vals[..hi]), Growth(blocks), g);
  }

  lemma GrowthAppend(blocks: seq<real>, g: real)
    ensures IsProduct(Growth(blocks + [g - 1.0]), Growth(blocks), g)
  {
    GrowthLast(blocks, g - 1.0, g);
  }

  lemma GrowthLast(r: seq<real>, x: real, g: real)
    requires g == 1.0 + x
    ensures IsProduct(Growth(r + [x]), Growth(r), g)
  {
    assert (r + [x])[..|r|] == r;
  }

  lemma SameProduct(p: real, q: real, a: real, b: real)
    requires IsProduct(p, a, b) && IsProduct(q, a, b)
    ensures p == q
  {
  }

  // ----- what a block is, without the loop -----

  /**
   * Block b covers days b * bt up to (b + 1) * bt and multiplies out to their factors; only a kept trailing block is
   * shorter, and every day is covered but those of a dropped trailing block.
   */
  ghost predicate AreBlocks(vals: seq<real>, bt: nat, dropTrailing: bool, blocks: seq<real>) {
    && (forall b :: 0 <= b < |blocks| ==> IsBlock(vals, b * bt, (b + 1) * bt, dropTrailing, blocks[b]))
    && if dropTrailing then 0 <= |vals| - |blocks| * bt < bt else |vals| <= |blocks| * bt
  }

  ghost predicate IsBlock(vals: seq<real>, lo: int, hi: int, dropTrailing: bool, block: real) {
    if hi <= |vals| then 0 <= lo <= hi && 1.0 + block == Product(Factors(vals[lo..hi]))
    else !dropTrailing && 0 <= lo < |vals| && 1.0 + block == Product(Factors(vals[lo..]))
  }

  lemma {:induction false} BlockAt(vals: seq<real>, bt: nat, m: nat, b: nat)
    requires b < m && Cut(|vals|, bt, b) <= Cut(|vals|, bt, b + 1)
    ensures BlocksTo(vals, bt, m)[b] == Growth(vals[Cut(|vals|, bt, b)..Cut(|vals|, bt, b + 1)]) - 1.0
  {
    if b < m - 1 {
      BlockAt(vals, bt, m - 1, b);
    }
  }

  lemma TimesMonotone(a: nat, b: nat, bt: nat)
    requires a <= b
    ensures a * bt <= b * bt
  {
  }

  lemma BlockOutright(vals: seq<real>, lo: nat, hi: nat, dropTrailing: bool, block: real)
    requires lo < |vals| && lo <= hi && (dropTrailing ==> hi <= |vals|)
    requires block == Growth(vals[lo..MinInt(hi, |vals|)]) - 1.0
    ensures IsBlock(vals, lo, hi, dropTrailing, block)
  {
    GrowthIsProduct(vals[lo..MinInt(hi, |vals|)]);
    assert hi > |vals| ==> vals[lo..|vals|] == vals[lo..];
  }

  /** The days a block starts and ends on. */
  lemma BlockBounds(n: nat, bt: nat, dropTrailing: bool, b: nat)
    requires bt > 0 && b < BlockCount(n, bt, dropTrailing)
    ensures 0 <= b * bt <= (b + 1) * bt && b * bt < n
    ensures dropTrailing ==> (b + 1) * bt <= n
  {
    var q := n / bt;
    assert n == q * bt + n % bt;
    NextMultiple(b, bt);
    TimesMonotone(b, q, bt);
    if b < q {
      TimesMonotone(b + 1, q, bt);
    }
  }

  lemma BlocksCover(n: nat, bt: nat, dropTrailing: bool)
    requires bt > 0
    ensures var m := BlockCount(n, bt, dropTrailing);
            if dropTrailing then 0 <= n - m * bt < bt else n <= m * bt
  {
    var q := n / bt;
    assert n == q * bt + n % bt;
    NextMultiple(q, bt);
  }

  lemma BlocksOutright(vals: seq<real>, bt: nat, dropTrailing: bool)
    requires bt > 0
    ensures AreBlocks(vals, bt, dropTrailing, BlocksTo(vals, bt, BlockCount(|vals|, bt, dropTrailing)))
  {
    var m := BlockCount(|vals|, bt, dropTrailing);
    BlocksCover(|vals|, bt, dropTrailing);
    forall b: nat | b < m ensures IsBlock(vals, b * bt, (b + 1) * bt, dropTrailing, BlocksTo(vals, bt, m)[b]) {
      BlockBounds(|vals|, bt, dropTrailing, b);
      BlockAt(vals, bt, m, b);
      BlockOutright(vals, b * bt, (b + 1) * bt, dropTrailing, BlocksTo(vals, bt, m)[b]);
    }
  }

  lemma NextMultiple(b: nat, bt: nat)
    ensures (b + 1) * bt == b * bt + bt
  {
  }

  /** Blocks of one day are the series itself. */
  lemma OneDayBlocks(vals: seq<real>, dropTrailing: bool, blocks: seq<real>)
    requires AreBlocks(vals, 1, dropTrailing, blocks)
    ensures blocks == vals
  {
    if blocks != [] {
      var last := |blocks| - 1;
      assert IsBlock(vals, last * 1, (last + 1) * 1, dropTrailing, blocks[last]);
    }
    forall b: nat | b < |blocks| ensures blocks[b] == vals[b] {
      assert IsBlock(vals, b * 1, (b + 1) * 1, dropTrailing, blocks[b]);
      assert vals[b..b + 1] == [vals[b]];
      assert Factors([vals[b]]) == [1.0 + vals[b]];
      assert Product([1.0 + vals[b]]) == 1.0 + vals[b];
    }
  }

  /** A full block whose days all return c is worth (1 + c)^bt - 1. */
  lemma EqualDaysBlock(vals: seq<real>, bt: nat, dropTrailing: bool, blocks: seq<real>, b: nat, c: real)
    requires AreBlocks(vals, bt, dropTrailing, blocks) && b < |blocks| && (b + 1) * bt <= |vals|
    requires forall d: nat :: b * bt <= d < (b + 1) * bt ==> vals[d] == c
    ensures blocks[b] == Pow(1.0 + c, bt) - 1.0
  {
    assert IsBlock(vals, b * bt, (b + 1) * bt, dropTrailing, blocks[b]);
    NextMultiple(b, bt);
    var days := vals[b * bt..(b + 1) * bt];
    ProductOfEqual(Factors(days), 1.0 + c);
  }

  lemma {:induction false} ProductOfEqual(s: seq<real>, x: real)
    requires forall i :: 0 <= i < |s| ==> s[i] == x
    ensures Product(s) == Pow(x, |s|)
  {
    if s != [] {
      ProductOfEqual(s[..|s| - 1], x);
    }
  }

  lemma ConservedOutright(vals: seq<real>, bt: nat, dropTrailing: bool)
    requires bt > 0
    ensures var blocks := BlocksTo(vals, bt, BlockCount(|vals|, bt, dropTrailing));
            var kept := if dropTrailing then |vals| - |vals| % bt else |vals|;
            Product(Factors(blocks)) == Product(Factors(vals[..kept]))
  {
    var m := BlockCount(|vals|, bt, dropTrailing);
    CutAtCount(|vals|, bt, dropTrailing);
    CompoundingIsConserved(vals, bt, m);
    GrowthIsProduct(BlocksTo(vals, bt, m));
    GrowthIsProduct(vals[..Cut(|vals|, bt, m)]);
  }

  /** `to_blocks`: compounded non-overlapping blocks that multiply back to the growth of the kept days. */
  method ToBlocks(vals: seq<real>, bt: int, dropTrailing: bool) returns (r: Option<seq<real>>)
    ensures r.None? <==> bt <= 0
    ensures r.Some? ==> r.value == BlocksTo(vals, bt, BlockCount(|vals|, bt, dropTrailing))
    ensures r.Some? ==> AreBlocks(vals, bt, dropTrailing, r.value)
    ensures r.Some? ==> var kept := if dropTrailing then |vals| - |vals| % bt else |vals|;
                        Product(Factors(r.value)) == Product(Factors(vals[..kept]))
  {
    if bt <= 0 {
      return None;
    }
    var n := |vals|;
    var nKeep := if dropTrailing then n / bt else n / bt + if n % bt != 0 then 1 else 0;
    var blocks := new real[nKeep];
    for b := 0 to nKeep
      invariant blocks[..b] == BlocksTo(vals, bt, b)
    {
      CutMonotone(n, bt, b);
      var seg := vals[Cut(n, bt, b)..Cut(n, bt, b + 1)];
      blocks[b] := Growth(seg) - 1.0;
      assert blocks[..b + 1] == blocks[..b] + [Growth(seg) - 1.0];
    }
    BlocksOutright(vals, bt, dropTrailing);
    ConservedOutright(vals, bt, dropTrailing);
    assert blocks[..nKeep] == blocks[..];
    r := Some(blocks[..]);
  }

  // ----- the t statistic -----

  /** mean / sqrt(varMean), kept unrooted. */
  datatype TStat = TStat(mean: real, varMean: real)

  datatype BlockStat = BlockStat(t: Option<TStat>, rho: Option<real>, nwApplied: bool, n: nat)

  function Centred(x: seq<real>): (e: seq<real>)
    requires x != []
    ensures |e| == |x|
  {
    seq(|x|, i requires 0 <= i < |x| => x[i] - Mean(x))
  }

  ghost predicate Constant(x: seq<real>) {
    forall i :: 0 <= i < |x| ==> x[i] == x[0]
  }

  lemma {:induction false} SumOfConstant(x: seq<real>, c: real)
    requires forall i :: 0 <= i < |x| ==> x[i] == c
    ensures Sum(x) == |x| as real * c
  {
    if x != [] {
      SumOfConstant(x[..|x| - 1], c);
    }
  }

  lemma MeanOfConstant(x: seq<real>)
    requires x != [] && Constant(x)
    ensures Mean(x) == x[0]
  {
    SumOfConstant(x, x[0]);
    DivideBack(|x| as real, x[0], Sum(x));
  }

  lemma ConstantIffCentredZero(x: seq<real>)
    requires x != []
    ensures Constant(x) <==> IsZero(Centred(x))
    ensures Cross(Centred(x), 0) >= 0.0
    ensures Cross(Centred(x), 0) == 0.0 <==> Constant(x)
  {
    var e := Centred(x);
    if Constant(x) {
      MeanOfConstant(x);
      forall i | 0 <= i < |x| ensures e[i] == 0.0 {
        assert x[i] == x[0];
      }
    } else {
      var i :| 0 <= i < |x| && x[i] != x[0];
      assert e[i] != e[0];
    }
    SelfCross(e);
  }

  lemma SelfCross(e: seq<real>)
    ensures Cross(e, 0) >= 0.0
    ensures Cross(e, 0) == 0.0 <==> IsZero(e)
  {
    assert e[0..] == e && e[..|e|] == e;
    SquaresNonNegative(e);
    if IsZero(e) {
      assert e == Zeros(|e|);
      DotZeros(|e|, e);
    } else {
      var i: nat :| i < |e| && e[i] != 0.0;
      SquaresPositive(e, i);
    }
  }

  function PlainVariance(x: seq<real>): real
    requires |x| >= 2
  {
    Cross(Centred(x), 0) / (|x| - 1) as real / |x| as real
  }

  /** Two blocks: the mean is halfway and its variance a quarter of their squared distance. */
  lemma VarianceOfPair(a: real, b: real)
    ensures Mean([a, b]) == (a + b) / 2.0 && PlainVariance([a, b]) == (a - b) * (a - b) / 4.0
  {
    var x, h := [a, b], (a - b) / 2.0;
    assert x[..1] == [a] && [a][..0] == [];
    assert Sum([a]) == a && Sum(x) == a + b;
    assert |x| == 2 && Mean(x) == (a + b) / 2.0;
    var e := Centred(x);
    assert e[0] == h && e[1] == -h;
    assert e == [h, -h];
    PairCross(e, h, h * h);
    assert (a - b) * (a - b) == 4.0 * (h * h);
  }

  lemma PairCross(e: seq<real>, h: real, hh: real)
    requires e == [h, -h] && IsProduct(hh, h, h)
    ensures Cross(e, 0) == 2.0 * hh
  {
    assert e[0..] == e && e[..2] == e;
    assert e[..1] == [h] && [h][..0] == [];
    assert Dot([h], [h]) == hh;
    assert (-h) * (-h) == hh;
  }

  function CorrectedVariance(x: seq<real>, lag: nat): real
    requires |x| >= 2
  {
    LongRunVariance(Centred(x), lag) / |x| as real
  }

  function Lag1Autocorrelation(x: seq<real>): Option<real> {
    if |x| < 2 || Cross(Centred(x), 0) == 0.0 then None
    else Some(Cross(Centred(x), 1) / Cross(Centred(x), 0))
  }

  /** What `block_t` reports: undefined on degenerate series, corrected exactly when |rho| exceeds the threshold. */
  ghost predicate IsBlockStat(x: seq<real>, rhoThreshold: real, lag: nat, r: BlockStat) {
    && r.n == |x|
    && r.rho == Lag1Autocorrelation(x)
    && (r.t.Some? <==> |x| >= 2 && !Constant(x))
    && (r.nwApplied <==> r.rho.Some? && Abs(r.rho.value) > rhoThreshold)
    && (r.t.Some? ==> r.t.value.mean == Mean(x)
                      && r.t.value.varMean > 0.0
                      && r.t.value.varMean == if r.nwApplied then CorrectedVariance(x, lag) else PlainVariance(x))
  }

  /** One pass of the loop: s += 2 w gamma_k. */
  function AddLag(e: seq<real>, lag: nat, k: nat, s: real): real
    requires e != []
  {
    var w := 1.0 - k as real / (lag as real + 1.0);
    var gamma := Cross(e, k) / |e| as real;
    s + 2.0 * w * gamma
  }

  /** `s` holds gamma_0 and the weighted lags 1..k. */
  ghost predicate Accumulated(e: seq<real>, lag: nat, k: nat, s: real) {
    Scale(e, lag) * s == (lag + 1) as real * Cross(e, 0) + 2.0 * Weighted(e, lag + 1, k)
  }

  lemma AccumulateLag(e: seq<real>, lag: nat, k: nat, s: real)
    requires e != [] && 0 < k <= lag && Accumulated(e, lag, k - 1, s)
    ensures Accumulated(e, lag, k, AddLag(e, lag, k, s))
  {
    ClearWeight(lag as real + 1.0, |e| as real, k as real, Cross(e, k), s, Scale(e, lag));
    assert (lag + 1 - k) as real == lag as real + 1.0 - k as real;
  }

  lemma StartLag(e: seq<real>, lag: nat)
    requires e != []
    ensures Accumulated(e, lag, 0, Cross(e, 0) / |e| as real)
  {
    ClearDenominator((lag + 1) as real, |e| as real, Cross(e, 0), Scale(e, lag));
  }

  lemma ClearDenominator(l: real, n: real, c: real, scale: real)
    requires n > 0.0 && scale == l * n
    ensures scale * (c / n) == l * c
  {
    assert n * (c / n) == c;
    assert scale * (c / n) == l * (n * (c / n));
  }

  lemma FinishLag(e: seq<real>, lag: nat, s: real)
    requires e != [] && Accumulated(e, lag, lag, s)
    ensures s == LongRunVariance(e, lag)
  {
    DivideBack(Scale(e, lag), s, (lag + 1) as real * Cross(e, 0) + 2.0 * Weighted(e, lag + 1, lag));
  }

  lemma ClearWeight(l: real, n: real, m: real, c: real, b: real, scale: real)
    requires n > 0.0 && l > 0.0 && scale == l * n
    ensures scale * (b + 2.0 * (1.0 - m / l) * (c / n)) == scale * b + 2.0 * ((l - m) * c)
  {
    var w, g := 1.0 - m / l, c / n;
    assert l * w == l - m by { assert l * (m / l) == m; }
    assert n * g == c;
    assert scale * (w * g) == (l * w) * (n * g);
    assert scale * (b + 2.0 * w * g) == scale * b + 2.0 * (scale * (w * g));
  }

  lemma DivideBack(scale: real, s: real, total: real)
    requires scale > 0.0 && scale * s == total
    ensures s == total / scale
  {
  }

  /** The accumulation loop of `block_t`. */
  method NeweyWestVariance(e: seq<real>, lag: nat) returns (s: real)
    requires e != []
    ensures s == LongRunVariance(e, lag)
  {
    s := Cross(e, 0) / |e| as real;
    StartLag(e, lag);
    for k := 1 to lag + 1
      invariant Accumulated(e, lag, k - 1, s)
    {
      AccumulateLag(e, lag, k, s);
      s := AddLag(e, lag, k, s);
    }
    FinishLag(e, lag, s);
  }

  /** `block_t`. The last guard keeps the plain t if the corrected variance is not positive; it never fires. */
  method BlockT(x: seq<real>, rhoThreshold: real, lag: nat) returns (r: BlockStat)
    ensures IsBlockStat(x, rhoThreshold, lag, r)
  {
    var n := |x|;
    if n < 2 {
      return BlockStat(None, None, false, n);
    }
    var e := Centred(x);
    ConstantIffCentredZero(x);
    if Cross(e, 0) == 0.0 {
      return BlockStat(None, None, false, n);
    }
    VariancesPositive(x, lag);
    var plain := TStat(Mean(x), PlainVariance(x));
    var rho := Cross(e, 1) / Cross(e, 0);
    if Abs(rho) <= rhoThreshold {
      return BlockStat(Some(plain), Some(rho), false, n);
    }
    var s := NeweyWestVariance(e, lag);
    var corrected := s > 0.0;
    r := BlockStat(Some(if corrected then TStat(Mean(x), s / n as real) else plain), Some(rho), corrected, n);
  }

  lemma VariancesPositive(x: seq<real>, lag: nat)
    requires |x| >= 2 && !Constant(x)
    ensures PlainVariance(x) > 0.0
    ensures LongRunVariance(Centred(x), lag) > 0.0 && CorrectedVariance(x, lag) > 0.0
  {
    ConstantIffCentredZero(x);
    LongRunVariancePositive(Centred(x), lag);
    PositiveQuotient(Cross(Centred(x), 0), (|x| - 1) as real);
    PositiveQuotient(Cross(Centred(x), 0) / (|x| - 1) as real, |x| as real);
    PositiveQuotient(LongRunVariance(Centred(x), lag), |x| as real);
  }

  lemma PositiveQuotient(a: real, b: real)
    requires a > 0.0 && b > 0.0
    ensures a / b > 0.0
  {
  }

  // ----- the general-lag twin in gauntlet/forkb/factor_resid.py -----

  lemma CrossBeyond(e: seq<real>, k: nat)
    requires k >= |e|
    ensures Cross(e, k) == 0.0
  {
  }

  lemma {:induction false} WeightedBeyond(e: seq<real>, top: nat, k: nat, m: nat)
    requires |e| <= k + 1 && k <= m
    ensures Weighted(e, top, m) == Weighted(e, top, k)
    decreases m
  {
    if k < m {
      WeightedBeyond(e, top, k, m - 1);
      CrossBeyond(e, m);
    }
  }

  /** `_intercept_t`: the same variance, with the loop cut short once no pair is `lag` apart. */
  method InterceptT(x: seq<real>, lag: nat) returns (t: Option<TStat>)
    ensures t.Some? <==> |x| >= 2 && !Constant(x)
    ensures t.Some? ==> t.value == TStat(Mean(x), CorrectedVariance(x, lag)) && t.value.varMean > 0.0
  {
    if |x| < 2 {
      return None;
    }
    var e := Centred(x);
    var v := Cross(e, 0) / |x| as real;
    StartLag(e, lag);
    var k := 1;
    while k < lag + 1 && k < |x|
      invariant 1 <= k <= lag + 1
      invariant Accumulated(e, lag, k - 1, v)
    {
      AccumulateLag(e, lag, k, v);
      v := AddLag(e, lag, k, v);
      k := k + 1;
    }
    if k < lag + 1 {
      WeightedBeyond(e, lag + 1, k - 1, lag);
    }
    FinishLag(e, lag, v);
    ConstantIffCentredZero(x);
    LongRunVariancePositive(e, lag);
    PositiveWhen(v, |x| as real);
    t := if v <= 0.0 then None else Some(TStat(Mean(x), v / |x| as real));
  }

  lemma PositiveWhen(v: real, n: real)
    requires n > 0.0
    ensures v > 0.0 ==> v / n > 0.0
  {
  }

  // ----- which way the correction moves the statistic -----

  /** |a| < |b|, compared on squares: mean^2 / varMean. */
  predicate SmallerMagnitude(a: TStat, b: TStat) {
    a.mean * a.mean * b.varMean < b.mean * b.mean * a.varMean
  }

  lemma SameMeanComparison(m: real, v: real, w: real)
    requires m != 0.0
    ensures SmallerMagnitude(TStat(m, v), TStat(m, w)) <==> w < v
  {
    var q := Square(m);
    assert m * m == q;
    assert q > 0.0;
    assert q * w < q * v <==> w < v;
  }

  lemma Lag1Variance(x: seq<real>)
    requires |x| >= 2
    ensures LongRunVariance(Centred(x), 1) == (Cross(Centred(x), 0) + Cross(Centred(x), 1)) / |x| as real
  {
    var e := Centred(x);
    assert Weighted(e, 2, 1) == Weighted(e, 2, 0) + (2 - 1) as real * Cross(e, 1);
    HalveBoth(Cross(e, 0) + Cross(e, 1), |x| as real);
  }

  lemma HalveBoth(a: real, n: real)
    requires n > 0.0
    ensures 2.0 * a / (2.0 * n) == a / n
  {
    var q := a / n;
    assert a == q * n;
    assert 2.0 * a == q * (2.0 * n);
    DivideBack(2.0 * n, q, 2.0 * a);
  }

  /** The lag-1 correction shrinks |t| exactly when rho (n - 1) > 1, and grows it exactly when rho (n - 1) < 1. */
  lemma CorrectionDirection(x: seq<real>, rho: real)
    requires |x| >= 2 && Mean(x) != 0.0 && Lag1Autocorrelation(x) == Some(rho)
    ensures SmallerMagnitude(TStat(Mean(x), CorrectedVariance(x, 1)), TStat(Mean(x), PlainVariance(x)))
       <==> rho * (|x| - 1) as real > 1.0
    ensures SmallerMagnitude(TStat(Mean(x), PlainVariance(x)), TStat(Mean(x), CorrectedVariance(x, 1)))
       <==> rho * (|x| - 1) as real < 1.0
  {
    CompareCorrected(x, rho, (|x| - 1) as real);
    SameMeanComparison(Mean(x), CorrectedVariance(x, 1), PlainVariance(x));
    SameMeanComparison(Mean(x), PlainVariance(x), CorrectedVariance(x, 1));
  }

  lemma CompareCorrected(x: seq<real>, rho: real, d: real)
    requires |x| >= 2 && Lag1Autocorrelation(x) == Some(rho) && d == (|x| - 1) as real
    ensures PlainVariance(x) < CorrectedVariance(x, 1) <==> rho * d > 1.0
    ensures PlainVariance(x) > CorrectedVariance(x, 1) <==> rho * d < 1.0
  {
    SelfCross(Centred(x));
    Lag1Variance(x);
    CompareVariances(Cross(Centred(x), 0), Cross(Centred(x), 1), |x| as real, d, rho,
                     LongRunVariance(Centred(x), 1), PlainVariance(x), CorrectedVariance(x, 1));
  }

  lemma CompareVariances(c0: real, c1: real, n: real, d: real, rho: real, lrv: real, p: real, q: real)
    requires c0 > 0.0 && d > 0.0 && n == d + 1.0 && rho == c1 / c0
    requires lrv == (c0 + c1) / n && p == c0 / d / n && q == lrv / n
    ensures p < q <==> rho * d > 1.0
    ensures p > q <==> rho * d < 1.0
  {
    CompareQuotients(c0 / d, n, lrv, n);
    Cancel(c0 / d, lrv, n);
    CompareQuotients(c0, d, c0 + c1, n);
    CrossMultiplied(c0, c1, n, d);
    CompareToOne(c0, c1, d, rho);
  }

  lemma CrossMultiplied(c0: real, c1: real, n: real, d: real)
    requires n == d + 1.0
    ensures (c0 + c1) * d - c0 * n == c1 * d - c0
  {
  }

  lemma CompareQuotients(a: real, b: real, c: real, d: real)
    requires b > 0.0 && d > 0.0
    ensures a / b < c / d <==> a * d < c * b
    ensures a / b > c / d <==> a * d > c * b
  {
    var p, q := a / b, c / d;
    assert a == p * b && c == q * d;
    assert a * d == p * (b * d) && c * b == q * (b * d);
    SignOfProduct(b, d);
    Cancel(p, q, b * d);
  }

  lemma CompareToOne(c0: real, c1: real, d: real, rho: real)
    requires c0 > 0.0 && rho == c1 / c0
    ensures rho * d > 1.0 <==> c1 * d > c0
    ensures rho * d < 1.0 <==> c1 * d < c0
  {
    assert rho * c0 == c1;
    assert (rho * d) * c0 == c1 * d;
    Cancel(1.0, rho * d, c0);
  }

  lemma Cancel(p: real, q: real, s: real)
    requires s > 0.0
    ensures p * s < q * s <==> p < q
    ensures p * s > q * s <==> p > q
  {
    assert q * s - p * s == (q - p) * s;
    SignOfProduct(s, q - p);
  }

  lemma SignOfProduct(a: real, b: real)
    requires a > 0.0
    ensures (a * b > 0.0 <==> b > 0.0) && (a * b < 0.0 <==> b < 0.0)
  {
  }

  /** With at least six blocks and the frozen threshold 0.2, positive autocorrelation is always penalised. */
  lemma CorrectionPenalisesFromSixBlocks(x: seq<real>, r: BlockStat)
    requires |x| >= 6 && Mean(x) != 0.0 && IsBlockStat(x, 0.2, 1, r) && r.nwApplied
    ensures r.t.Some?
    ensures r.rho.value > 0.0 ==> SmallerMagnitude(r.t.value, TStat(Mean(x), PlainVariance(x)))
    ensures r.rho.value < 0.0 ==> SmallerMagnitude(TStat(Mean(x), PlainVariance(x)), r.t.value)
  {
    ConstantIffCentredZero(x);
    var rho, d := r.rho.value, (|x| - 1) as real;
    CorrectionDirection(x, rho);
    if rho > 0.2 {
      AtLeastFive(rho, d);
    } else {
      SignOfProduct(d, rho);
    }
  }

  lemma AtLeastFive(rho: real, d: real)
    requires rho > 0.2 && d >= 5.0
    ensures rho * d > 1.0
  {
    assert rho * d >= rho * 5.0;
  }

  /** Below six blocks the documented direction fails: here rho is +0.25 and the corrected |t| is the larger one. */
  lemma CorrectionCanInflate(r: BlockStat)
    requires IsBlockStat([0.0, 0.0, 1.0, 1.0], 0.2, 1, r)
    ensures r.nwApplied && r.rho == Some(0.25)
    ensures SmallerMagnitude(TStat(Mean([0.0, 0.0, 1.0, 1.0]), PlainVariance([0.0, 0.0, 1.0, 1.0])), r.t.value)
  {
    var x := [0.0, 0.0, 1.0, 1.0];
    FourBlocks();
    ConstantIffCentredZero(x);
    CorrectionDirection(x, 0.25);
  }

  lemma FourBlocks()
    ensures !Constant([0.0, 0.0, 1.0, 1.0]) && Mean([0.0, 0.0, 1.0, 1.0]) == 0.5
    ensures Lag1Autocorrelation([0.0, 0.0, 1.0, 1.0]) == Some(0.25)
  {
    var x := [0.0, 0.0, 1.0, 1.0];
    assert x[0] != x[2];
    calc {
      Sum(x);
      { assert x[..3] == [0.0, 0.0, 1.0]; }
      Sum([0.0, 0.0, 1.0]) + 1.0;
      { assert [0.0, 0.0, 1.0][..2] == [0.0, 0.0]; }
      Sum([0.0, 0.0]) + 2.0;
      { assert [0.0, 0.0][..1] == [0.0]; assert [0.0][..0] == []; }
      2.0;
    }
    var e := Centred(x);
    assert Mean(x) == 0.5;
    assert e == [-0.5, -0.5, 0.5, 0.5];
    assert e[0..] == e && e[..4] == e;
    DotOfFour(e, e);
    assert e[1..] == [-0.5, 0.5, 0.5] && e[..3] == [-0.5, -0.5, 0.5];
    DotOfThree(e[1..], e[..3]);
  }

  lemma DotOfThree(a: seq<real>, b: seq<real>)
    requires |a| == |b| == 3
    ensures Dot(a, b) == a[0] * b[0] + a[1] * b[1] + a[2] * b[2]
  {
    var p, q := a[..2], b[..2];
    var u, v := p[..1], q[..1];
    assert u[..0] == [] && v[..0] == [];
    assert Dot(u, v) == a[0] * b[0];
    assert Dot(p, q) == a[0] * b[0] + a[1] * b[1];
  }

  lemma DotOfFour(a: seq<real>, b: seq<real>)
    requires |a| == |b| == 4
    ensures Dot(a, b) == a[0] * b[0] + a[1] * b[1] + a[2] * b[2] + a[3] * b[3]
  {
    DotOfThree(a[..3], b[..3]);
  }
}

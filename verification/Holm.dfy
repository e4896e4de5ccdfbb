/** Holm step-down correction (gauntlet/forkb/deflation.py) and its identity with Bonferroni closed testing. */
module Holm {
  import opened Arith
  import opened Permutations
  import opened StableSort

  datatype Outcome = Adjusted(values: seq<real>) | InvalidPValues

  /** What `_validate` accepts; NaN and infinities do not exist among the reals. */
  predicate Valid(p: seq<real>) {
    forall i :: 0 <= i < |p| ==> 0.0 <= p[i] <= 1.0
  }

  // ----- the declarative reference: Bonferroni tests on every intersection of cells -----

  ghost predicate IsMinOver(p: seq<real>, s: set<nat>, v: real)
    requires Within(s, |p|)
  {
    (exists i :: i in s && p[i] == v) && forall i :: i in s ==> v <= p[i]
  }

  lemma {:induction false} MinExists(p: seq<real>, s: set<nat>)
    requires Within(s, |p|) && s != {}
    ensures exists v :: IsMinOver(p, s, v)
    decreases |s|
  {
    var i :| i in s;
    var rest := s - {i};
    if rest == {} {
      assert s == {i};
      assert IsMinOver(p, s, p[i]);
    } else {
      MinExists(p, rest);
      var v :| IsMinOver(p, rest, v);
      assert forall j :: j in s ==> j == i || j in rest;
      assert IsMinOver(p, s, Min(v, p[i]));
    }
  }

  ghost function MinOver(p: seq<real>, s: set<nat>): (v: real)
    requires Within(s, |p|) && s != {}
    ensures IsMinOver(p, s, v)
  {
    MinExists(p, s);
    var v :| IsMinOver(p, s, v);
    v
  }

  /** The Bonferroni p-value of the intersection hypothesis of the cells in `s`. */
  ghost function Bonferroni(p: seq<real>, s: set<nat>): real
    requires Within(s, |p|) && s != {}
  {
    Min(|s| as real * MinOver(p, s), 1.0)
  }

  /** `v` is the closed-testing p-value of cell `i`: the largest Bonferroni p over all sets containing `i`. */
  ghost predicate IsClosedTestP(p: seq<real>, i: nat, v: real)
    requires i < |p|
  {
    && (exists s :: Within(s, |p|) && i in s && Bonferroni(p, s) == v)
    && (forall s :: Within(s, |p|) && i in s ==> Bonferroni(p, s) <= v)
  }

  ghost predicate IsClosedTest(p: seq<real>, adj: seq<real>) {
    |adj| == |p| && forall i :: 0 <= i < |p| ==> IsClosedTestP(p, i, adj[i])
  }

  /** `v` is n times x, at most one. */
  predicate IsCapped(v: real, n: nat, x: real) {
    v == if n as real * x <= 1.0 then n as real * x else 1.0
  }

  /** `j` is a cell of `s` with its smallest p-value. */
  ghost predicate IsLeast(p: seq<real>, s: set<nat>, j: nat) {
    j < |p| && j in s && forall i :: 0 <= i < |p| && i in s ==> p[j] <= p[i]
  }

  /** `v` is the size of `s` times its smallest p-value, at most one. */
  ghost predicate IsBonferroni(p: seq<real>, s: set<nat>, v: real) {
    exists j: nat :: IsLeast(p, s, j) && IsCapped(v, |s|, p[j])
  }

  /** `v` is the largest of these over the sets of cells that hold cell `i`. */
  ghost predicate IsLargestBonferroni(p: seq<real>, i: nat, v: real) {
    && (exists s: set<nat> :: (forall j :: j in s ==> j < |p|) && i in s && IsBonferroni(p, s, v))
    && forall s: set<nat>, u: real ::
         (forall j :: j in s ==> j < |p|) && i in s && IsBonferroni(p, s, u) ==> u <= v
  }

  lemma BonferroniOutright(p: seq<real>, s: set<nat>, v: real)
    requires Within(s, |p|) && s != {}
    ensures IsBonferroni(p, s, v) <==> v == Bonferroni(p, s)
  {
    var m := MinOver(p, s);
    CapIsMin(v, |s|, m);
    var j :| j in s && p[j] == m;
    assert IsLeast(p, s, j);
    if IsBonferroni(p, s, v) {
      var k: nat :| IsLeast(p, s, k) && IsCapped(v, |s|, p[k]);
      assert p[k] == m;
    }
  }

  lemma CapIsMin(v: real, n: nat, x: real)
    ensures IsCapped(v, n, x) <==> v == Min(n as real * x, 1.0)
  {
  }

  /** The closed-testing p-value with nothing left to look up. */
  lemma ClosedTestOutright(p: seq<real>, i: nat, v: real)
    requires i < |p|
    ensures IsClosedTestP(p, i, v) <==> IsLargestBonferroni(p, i, v)
  {
    forall s: set<nat>, u: real | Within(s, |p|) && i in s
      ensures IsBonferroni(p, s, u) <==> u == Bonferroni(p, s) {
      BonferroniOutright(p, s, u);
    }
    if IsLargestBonferroni(p, i, v) {
      forall s | Within(s, |p|) && i in s ensures Bonferroni(p, s) <= v {
        assert IsBonferroni(p, s, Bonferroni(p, s));
      }
    }
  }

  // ----- the step-down computation -----

  function Keyed(p: seq<real>): seq<Entry<nat>> {
    seq(|p|, i requires 0 <= i < |p| => Entry(p[i], i))
  }

  ghost predicate Sorts(p: seq<real>, order: seq<nat>) {
    && IsPermutation(order, |p|)
    && forall j, k :: 0 <= j < k < |p| ==> p[order[j]] <= p[order[k]]
  }

  /** `np.argsort(p, kind="mergesort")`. */
  function ArgSort(p: seq<real>): (order: seq<nat>)
    ensures Sorts(p, order)
  {
    var sorted := Sort(Keyed(p));
    SortSorts(Keyed(p));
    ArgSortIsPermutation(p);
    Items(sorted)
  }

  lemma ArgSortIsPermutation(p: seq<real>)
    ensures IsPermutation(Items(Sort(Keyed(p))), |p|)
    ensures forall k :: 0 <= k < |p| ==>
                          var e := Sort(Keyed(p))[k]; e.item < |p| && e.key == p[e.item]
  {
    var sorted := Sort(Keyed(p));
    SortSorts(Keyed(p));
    DistinctTransfers(Keyed(p), sorted);
    forall k | 0 <= k < |p| ensures sorted[k].item < |p| && sorted[k].key == p[sorted[k].item] {
      assert sorted[k] in multiset(sorted);
      assert sorted[k] in Keyed(p);
    }
  }

  predicate IndexList(order: seq<nat>, p: seq<real>) {
    |order| == |p| && InRange(order, |p|)
  }

  function StepValue(p: seq<real>, order: seq<nat>, k: nat): real
    requires IndexList(order, p) && k < |p|
  {
    Min((|p| - k) as real * p[order[k]], 1.0)
  }

  /** The running maximum after the first `r` step values. */
  function Running(p: seq<real>, order: seq<nat>, r: nat): real
    requires IndexList(order, p) && r <= |p|
  {
    if r == 0 then 0.0 else Max(Running(p, order, r - 1), StepValue(p, order, r - 1))
  }

  lemma {:induction false} RunningBounds(p: seq<real>, order: seq<nat>, k: nat, r: nat)
    requires IndexList(order, p) && k < r <= |p|
    ensures StepValue(p, order, k) <= Running(p, order, r)
    decreases r
  {
    if k < r - 1 {
      RunningBounds(p, order, k, r - 1);
    }
  }

  lemma {:induction false} RunningAttained(p: seq<real>, order: seq<nat>, r: nat) returns (k: nat)
    requires Valid(p) && IndexList(order, p) && 0 < r <= |p|
    ensures k < r && Running(p, order, r) == StepValue(p, order, k)
    decreases r
  {
    k := r - 1;
    if r == 1 {
      assert StepValue(p, order, 0) >= 0.0 by {
        ProductMonotone(0.0, |p| as real, p[order[0]], p[order[0]]);
      }
    } else if Running(p, order, r - 1) > StepValue(p, order, r - 1) {
      k := RunningAttained(p, order, r - 1);
    }
  }

  ghost function Tail(order: seq<nat>, k: nat): set<nat>
    requires k <= |order|
  {
    Elements(order[k..])
  }

  /** The k-th step value is the Bonferroni p of the cells ranked k and above. */
  lemma StepIsBonferroni(p: seq<real>, order: seq<nat>, k: nat)
    requires Sorts(p, order) && k < |p|
    ensures Within(Tail(order, k), |p|) && order[k] in Tail(order, k)
    ensures StepValue(p, order, k) == Bonferroni(p, Tail(order, k))
  {
    var s := Tail(order, k);
    assert order[k..][0] == order[k];
    DistinctSize(order[k..]);
    forall i | i in s ensures p[order[k]] <= p[i] {
      var j :| 0 <= j < |order[k..]| && order[k..][j] == i;
      assert order[k + j] == i;
    }
    var v := MinOver(p, s);
    assert p[order[k]] == v;
  }

  /** No set containing the cell ranked `r` has a Bonferroni p above the running maximum at `r`. */
  lemma BonferroniBelowRunning(p: seq<real>, order: seq<nat>, r: nat, s: set<nat>)
    requires Valid(p) && Sorts(p, order) && r < |p|
    requires Within(s, |p|) && order[r] in s
    ensures Bonferroni(p, s) <= Running(p, order, r + 1)
  {
    var k := FirstRank(order, s, r);
    BonferroniBelowStep(p, order, k, s);
    RunningBounds(p, order, k, r + 1);
  }

  lemma BonferroniBelowStep(p: seq<real>, order: seq<nat>, k: nat, s: set<nat>)
    requires Valid(p) && IsPermutation(order, |p|) && k < |p|
    requires Within(s, |p|) && order[k] in s
    requires forall j :: 0 <= j < k ==> order[j] !in s
    ensures Bonferroni(p, s) <= StepValue(p, order, k)
  {
    TailHoldsAll(order, |p|, k, s);
    var v := MinOver(p, s);
    ProductMonotone(|s| as real, (|p| - k) as real, v, p[order[k]]);
  }

  lemma TailHoldsAll(order: seq<nat>, n: nat, k: nat, s: set<nat>)
    requires IsPermutation(order, n) && k < n && Within(s, n)
    requires forall j :: 0 <= j < k ==> order[j] !in s
    ensures |s| <= n - k
  {
    forall i | i in s ensures i in Tail(order, k) {
      Surjective(order, n);
      assert i in order;
      var j :| 0 <= j < n && order[j] == i;
      assert order[k..][j - k] == i;
    }
    DistinctSize(order[k..]);
    SubsetSize(s, Tail(order, k));
  }

  lemma {:induction false} FirstRank(order: seq<nat>, s: set<nat>, r: nat) returns (k: nat)
    requires r < |order| && order[r] in s
    ensures k <= r && order[k] in s
    ensures forall j :: 0 <= j < k ==> order[j] !in s
    decreases r
  {
    if j :| 0 <= j < r && order[j] in s {
      k := FirstRank(order, s, j);
    } else {
      k := r;
    }
  }

  lemma RankInTail(order: seq<nat>, k: nat, r: nat)
    requires k <= r < |order|
    ensures order[r] in Tail(order, k)
  {
    assert order[k..][r - k] == order[r];
  }

  lemma RunningIsClosedTest(p: seq<real>, order: seq<nat>, r: nat)
    requires Valid(p) && Sorts(p, order) && r < |p|
    ensures IsClosedTestP(p, order[r], Running(p, order, r + 1))
  {
    var v := Running(p, order, r + 1);
    var k := RunningAttained(p, order, r + 1);
    StepIsBonferroni(p, order, k);
    RankInTail(order, k, r);
    forall s | Within(s, |p|) && order[r] in s ensures Bonferroni(p, s) <= v {
      BonferroniBelowRunning(p, order, r, s);
    }
  }

  lemma ScatterIsClosedTest(p: seq<real>, order: seq<nat>, adj: seq<real>)
    requires Valid(p) && Sorts(p, order) && |adj| == |p|
    requires forall k :: 0 <= k < |p| ==> adj[order[k]] == Running(p, order, k + 1)
    ensures IsClosedTest(p, adj)
  {
    forall i: nat | i < |p| ensures IsClosedTestP(p, i, adj[i]) {
      Surjective(order, |p|);
      assert i in order;
      var k :| 0 <= k < |p| && order[k] == i;
      RunningIsClosedTest(p, order, k);
    }
  }

  /** The step-down loop: the running maximum at every rank. */
  method RunningMaxima(p: seq<real>, order: seq<nat>) returns (adjSorted: array<real>)
    requires IndexList(order, p)
    ensures fresh(adjSorted) && adjSorted.Length == |p|
    ensures forall k :: 0 <= k < |p| ==> adjSorted[k] == Running(p, order, k + 1)
  {
    var m := |p|;
    adjSorted := new real[m];
    var running := 0.0;
    for k := 0 to m
      invariant running == Running(p, order, k)
      invariant forall j :: 0 <= j < k ==> adjSorted[j] == Running(p, order, j + 1)
    {
      var val := Min((m - k) as real * p[order[k]], 1.0);
      assert val == StepValue(p, order, k);
      running := Max(running, val);
      adjSorted[k] := running;
    }
  }

  /** `adj[order] = adj_sorted`. */
  method Scatter(ranked: array<real>, order: seq<nat>) returns (adj: array<real>)
    requires IsPermutation(order, ranked.Length)
    ensures fresh(adj) && adj.Length == ranked.Length
    ensures forall k :: 0 <= k < ranked.Length ==> adj[order[k]] == ranked[k]
  {
    adj := new real[ranked.Length];
    for k := 0 to ranked.Length
      invariant forall j :: 0 <= j < k ==> adj[order[j]] == ranked[j]
    {
      adj[order[k]] := ranked[k];
    }
  }

  /** `holm_adjusted_pvalues`: rank, take the running maximum, scatter back to input order. */
  method HolmAdjustedPvalues(p: seq<real>) returns (r: Outcome)
    ensures r.Adjusted? <==> forall i :: 0 <= i < |p| ==> 0.0 <= p[i] <= 1.0
    ensures r.Adjusted? ==> IsClosedTest(p, r.values)
    ensures r.Adjusted? ==> |r.values| == |p| && forall i: nat :: i < |p| ==> IsLargestBonferroni(p, i, r.values[i])
  {
    if !Valid(p) {
      return InvalidPValues;
    }
    var order := ArgSort(p);
    var adjSorted := RunningMaxima(p, order);
    var adj := Scatter(adjSorted, order);
    ScatterIsClosedTest(p, order, adj[..]);
    r := Adjusted(adj[..]);
    forall i: nat | i < |p| ensures IsLargestBonferroni(p, i, r.values[i]) {
      ClosedTestOutright(p, i, r.values[i]);
    }
  }

  /** Closed testing at level alpha: cell i is rejected when every set of cells containing it is. */
  ghost predicate RejectedByAll(p: seq<real>, i: nat, alpha: real) {
    forall s :: Within(s, |p|) && i in s ==> Bonferroni(p, s) <= alpha
  }

  /** `holm_reject`. */
  method HolmReject(p: seq<real>, alpha: real) returns (r: Option<seq<bool>>)
    ensures r.Some? <==> Valid(p)
    ensures r.Some? ==> |r.value| == |p| && forall i :: 0 <= i < |p| ==> (r.value[i] <==> RejectedByAll(p, i, alpha))
  {
    var adjusted := HolmAdjustedPvalues(p);
    if adjusted.InvalidPValues? {
      return None;
    }
    var adj := adjusted.values;
    r := Some(seq(|adj|, i requires 0 <= i < |adj| => adj[i] <= alpha));
    forall i: nat | i < |p| ensures adj[i] <= alpha <==> RejectedByAll(p, i, alpha) {
      assert IsClosedTestP(p, i, adj[i]);
    }
  }

  // ----- consequences, for every closed-testing p-value -----

  lemma ClosedTestIsUnique(p: seq<real>, i: nat, v: real, w: real)
    requires i < |p| && IsClosedTestP(p, i, v) && IsClosedTestP(p, i, w)
    ensures v == w
  {
  }

  /** Family-wise error, deterministically: a false rejection inside a set of true nulls needs a small p there. */
  lemma RejectionNeedsSmallP(p: seq<real>, adj: seq<real>, nulls: set<nat>, i: nat, alpha: real)
    requires Valid(p) && IsClosedTest(p, adj) && alpha < 1.0
    requires Within(nulls, |p|) && i in nulls
    requires adj[i] <= alpha
    ensures MinOver(p, nulls) <= alpha / |nulls| as real
  {
    assert IsClosedTestP(p, i, adj[i]);
    assert Bonferroni(p, nulls) <= alpha;
    assert |nulls| > 0;
    var m, n := MinOver(p, nulls), |nulls| as real;
    assert n * m <= alpha;
    assert n * (alpha / n) == alpha;
    if m > alpha / n {
      assert n * m > n * (alpha / n);
    }
  }

  /** The smallest p-value is multiplied by the size of the family. */
  lemma SmallestIsMultiplied(p: seq<real>, adj: seq<real>, i: nat)
    requires Valid(p) && IsClosedTest(p, adj) && i < |p| && forall j :: 0 <= j < |p| ==> p[i] <= p[j]
    ensures IsCapped(adj[i], |p|, p[i])
  {
    var all := Indices(|p|);
    IndicesSize(|p|);
    assert IsClosedTestP(p, i, adj[i]);
    var s :| Within(s, |p|) && i in s && Bonferroni(p, s) == adj[i];
    SubsetSize(s, all);
    BonferroniOfLeast(p, all, i);
    BonferroniOfLeast(p, s, i);
    CapGrows(adj[i], Bonferroni(p, all), |s|, |p|, p[i]);
  }

  lemma CapGrows(v: real, w: real, m: nat, n: nat, x: real)
    requires IsCapped(v, m, x) && IsCapped(w, n, x) && m <= n && x >= 0.0
    ensures v <= w
  {
    ProductMonotone(m as real, n as real, x, x);
  }

  lemma BonferroniOfLeast(p: seq<real>, s: set<nat>, i: nat)
    requires Within(s, |p|) && i in s && forall j :: 0 <= j < |p| ==> p[i] <= p[j]
    ensures IsCapped(Bonferroni(p, s), |s|, p[i])
  {
    assert MinOver(p, s) == p[i];
    CapIsMin(Bonferroni(p, s), |s|, p[i]);
  }

  /** Adjustment only raises p-values, keeps them in [0, 1] and keeps their order. */
  lemma AdjustedIsMonotone(p: seq<real>, adj: seq<real>, i: nat, j: nat)
    requires Valid(p) && IsClosedTest(p, adj) && i < |p| && j < |p|
    ensures p[i] <= adj[i] <= 1.0
    ensures p[i] <= p[j] ==> adj[i] <= adj[j]
  {
    assert IsClosedTestP(p, i, adj[i]) && IsClosedTestP(p, j, adj[j]);
    assert Bonferroni(p, {i}) == p[i];
    var s :| Within(s, |p|) && i in s && Bonferroni(p, s) == adj[i];
    if p[i] <= p[j] {
      LargerSetSameMin(p, s, s + {j}, i, j);
    }
  }

  lemma LargerSetSameMin(p: seq<real>, s: set<nat>, t: set<nat>, i: nat, j: nat)
    requires Valid(p) && Within(s, |p|) && i in s && j < |p| && p[i] <= p[j] && t == s + {j}
    ensures Within(t, |p|) && j in t && Bonferroni(p, s) <= Bonferroni(p, t)
  {
    MinOfLarger(p, s, t, i, j);
    BonferroniGrows(p, s, t);
  }

  lemma BonferroniGrows(p: seq<real>, s: set<nat>, t: set<nat>)
    requires Within(s, |p|) && Within(t, |p|) && s != {} && t != {}
    requires |s| <= |t| && 0.0 <= MinOver(p, s) <= MinOver(p, t)
    ensures Bonferroni(p, s) <= Bonferroni(p, t)
  {
    ProductMonotone(|s| as real, |t| as real, MinOver(p, s), MinOver(p, t));
  }

  lemma MinOfLarger(p: seq<real>, s: set<nat>, t: set<nat>, i: nat, j: nat)
    requires Valid(p) && Within(s, |p|) && i in s && j < |p| && p[i] <= p[j] && t == s + {j}
    ensures Within(t, |p|) && |s| <= |t| && 0.0 <= MinOver(p, s) <= MinOver(p, t)
  {
    SubsetSize(s, t);
    assert forall x :: x in t ==> x in s || x == j;
    var a, b := MinOver(p, s), MinOver(p, t);
    assert a <= p[i];
    var x :| x in t && p[x] == b;
    assert x in s ==> a <= p[x];
  }
}

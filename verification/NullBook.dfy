/** The long/short book and its permutation nulls (gauntlet/forkb/permnull.py). */
module NullBook {
  import opened Arith
  import opened Permutations

  /** A formation cohort: held on days start..end with one weight per name. */
  datatype Cohort = Cohort(start: nat, end: nat, weights: seq<real>)

  predicate WellFormed(daily: seq<seq<real>>, names: nat, c: Cohort) {
    c.start <= c.end <= |daily| && |c.weights| == names
    && forall d :: 0 <= d < |daily| ==> |daily[d]| == names
  }

  predicate AllWellFormed(daily: seq<seq<real>>, names: nat, cohorts: seq<Cohort>) {
    forall i :: 0 <= i < |cohorts| ==> WellFormed(daily, names, cohorts[i])
  }

  predicate Live(c: Cohort, day: nat) {
    c.start <= day < c.end
  }

  // ----- the reference: each day sums the returns of its live cohorts -----

  /** What one cohort earns on a day: its weights against the day's returns while it is held. */
  function CohortReturn(daily: seq<seq<real>>, c: Cohort, day: nat): real {
    if Live(c, day) && day < |daily| && |daily[day]| == |c.weights| then Dot(daily[day], c.weights) else 0.0
  }

  function DaySum(daily: seq<seq<real>>, cohorts: seq<Cohort>, day: nat): real {
    if cohorts == [] then 0.0
    else DaySum(daily, cohorts[..|cohorts| - 1], day) + CohortReturn(daily, cohorts[|cohorts| - 1], day)
  }

  function LiveCount(cohorts: seq<Cohort>, day: nat): nat {
    if cohorts == [] then 0
    else LiveCount(cohorts[..|cohorts| - 1], day) + if Live(cohorts[|cohorts| - 1], day) then 1 else 0
  }

  /** Overlapping cohorts are averaged; a day without a live cohort earns nothing. */
  function Book(daily: seq<seq<real>>, cohorts: seq<Cohort>): seq<real> {
    seq(|daily|, day requires 0 <= day < |daily| =>
      if LiveCount(cohorts, day) > 0 then DaySum(daily, cohorts, day) / LiveCount(cohorts, day) as real else 0.0)
  }

  // ----- the book depends on which cohorts there are, not on their order -----

  lemma SumsAppend(daily: seq<seq<real>>, cohorts: seq<Cohort>, c: Cohort, d: nat, r: real)
    requires r == CohortReturn(daily, c, d)
    ensures DaySum(daily, cohorts + [c], d) == DaySum(daily, cohorts, d) + r
    ensures LiveCount(cohorts + [c], d) == LiveCount(cohorts, d) + (if Live(c, d) then 1 else 0)
  {
    assert (cohorts + [c])[..|cohorts|] == cohorts;
  }

  lemma {:induction false} DaySumWithout(daily: seq<seq<real>>, cohorts: seq<Cohort>, i: nat, d: nat, r: real)
    requires i < |cohorts| && r == CohortReturn(daily, cohorts[i], d)
    ensures var rest := cohorts[..i] + cohorts[i + 1..];
            && DaySum(daily, cohorts, d) == DaySum(daily, rest, d) + r
            && LiveCount(cohorts, d) == LiveCount(rest, d) + (if Live(cohorts[i], d) then 1 else 0)
    decreases |cohorts|
  {
    var n := |cohorts| - 1;
    var init, last := cohorts[..n], cohorts[n];
    var q := CohortReturn(daily, last, d);
    assert cohorts == init + [last];
    SumsAppend(daily, init, last, d, q);
    if i == n {
      assert cohorts[..i] + cohorts[i + 1..] == init;
    } else {
      DaySumWithout(daily, init, i, d, r);
      SumsAppend(daily, init[..i] + init[i + 1..], last, d, q);
      assert cohorts[..i] + cohorts[i + 1..] == init[..i] + init[i + 1..] + [last];
    }
  }

  lemma {:induction false} OrderIrrelevant(daily: seq<seq<real>>, a: seq<Cohort>, b: seq<Cohort>, d: nat)
    requires multiset(a) == multiset(b)
    ensures DaySum(daily, a, d) == DaySum(daily, b, d) && LiveCount(a, d) == LiveCount(b, d)
    decreases |a|
  {
    if a == [] {
      assert |multiset(b)| == 0;
    } else {
      var n := |a| - 1;
      var i := RemoveShared(a, b);
      var r := CohortReturn(daily, a[n], d);
      OrderIrrelevant(daily, a[..n], b[..i] + b[i + 1..], d);
      DaySumWithout(daily, b, i, d, r);
      assert a == a[..n] + [a[n]];
      SumsAppend(daily, a[..n], a[n], d, r);
    }
  }

  lemma BookByMultiset(daily: seq<seq<real>>, a: seq<Cohort>, b: seq<Cohort>)
    requires multiset(a) == multiset(b)
    ensures Book(daily, a) == Book(daily, b)
  {
    forall d: nat | d < |daily| ensures Book(daily, a)[d] == Book(daily, b)[d] {
      OrderIrrelevant(daily, a, b, d);
    }
  }

  // ----- the book averages -----

  /**
   * `x` is the plain average of what the cohorts held on day d earn: nothing without one, otherwise as many times
   * `x` as there are of them is the sum of what they earn, and `x` lies between the least and the most one earns.
   */
  ghost predicate AveragesAt(daily: seq<seq<real>>, cohorts: seq<Cohort>, d: nat, x: real)
    requires d < |daily| && forall i :: 0 <= i < |cohorts| ==> |cohorts[i].weights| == |daily[d]|
  {
    var live := set i | 0 <= i < |cohorts| && cohorts[i].start <= d < cohorts[i].end;
    if live == {} then x == 0.0
    else
      && x * |live| as real == Sum(seq(|cohorts|, i requires 0 <= i < |cohorts| =>
                                     if i in live then Dot(daily[d], cohorts[i].weights) else 0.0))
      && (exists i :: i in live && Dot(daily[d], cohorts[i].weights) <= x)
      && (exists i :: i in live && x <= Dot(daily[d], cohorts[i].weights))
  }

  ghost predicate IsAverage(daily: seq<seq<real>>, cohorts: seq<Cohort>, book: seq<real>) {
    |book| == |daily|
    && forall d: nat :: d < |daily| ==>
                          && (forall i :: 0 <= i < |cohorts| ==> |cohorts[i].weights| == |daily[d]|)
                          && AveragesAt(daily, cohorts, d, book[d])
  }

  ghost function LiveSet(cohorts: seq<Cohort>, d: nat): set<int> {
    set i | 0 <= i < |cohorts| && cohorts[i].start <= d < cohorts[i].end
  }

  lemma {:induction false} LiveCountIsCardinality(cohorts: seq<Cohort>, d: nat)
    ensures LiveCount(cohorts, d) == |LiveSet(cohorts, d)|
  {
    if cohorts != [] {
      var n := |cohorts| - 1;
      LiveCountIsCardinality(cohorts[..n], d);
      OneMoreLive(cohorts, d, n);
    }
  }

  lemma OneMoreLive(cohorts: seq<Cohort>, d: nat, n: nat)
    requires |cohorts| == n + 1
    ensures |LiveSet(cohorts, d)| == |LiveSet(cohorts[..n], d)| + if Live(cohorts[n], d) then 1 else 0
  {
    var before := LiveSet(cohorts[..n], d);
    assert LiveSet(cohorts, d) == if Live(cohorts[n], d) then before + {n} else before;
  }

  lemma {:induction false} DaySumIsSum(daily: seq<seq<real>>, cohorts: seq<Cohort>, d: nat, earned: seq<real>)
    requires |earned| == |cohorts|
    requires forall i :: 0 <= i < |cohorts| ==> earned[i] == CohortReturn(daily, cohorts[i], d)
    ensures DaySum(daily, cohorts, d) == Sum(earned)
  {
    if cohorts != [] {
      DaySumIsSum(daily, cohorts[..|cohorts| - 1], d, earned[..|earned| - 1]);
    }
  }

  /** When every live cohort earns more than x, so does their sum than as many times x. */
  lemma {:induction false} SumAbove(daily: seq<seq<real>>, cohorts: seq<Cohort>, d: nat, x: real, p: real)
    requires forall i :: 0 <= i < |cohorts| && Live(cohorts[i], d) ==> CohortReturn(daily, cohorts[i], d) > x
    requires IsProduct(p, LiveCount(cohorts, d) as real, x)
    ensures if LiveCount(cohorts, d) > 0 then DaySum(daily, cohorts, d) > p else DaySum(daily, cohorts, d) == 0.0
  {
    if cohorts != [] {
      var n := |cohorts| - 1;
      var k := LiveCount(cohorts[..n], d);
      SumAbove(daily, cohorts[..n], d, x, k as real * x);
      if Live(cohorts[n], d) {
        OneMoreTimes(k, x, k as real * x, p);
      }
    }
  }

  lemma {:induction false} SumBelow(daily: seq<seq<real>>, cohorts: seq<Cohort>, d: nat, x: real, p: real)
    requires forall i :: 0 <= i < |cohorts| && Live(cohorts[i], d) ==> CohortReturn(daily, cohorts[i], d) < x
    requires IsProduct(p, LiveCount(cohorts, d) as real, x)
    ensures if LiveCount(cohorts, d) > 0 then DaySum(daily, cohorts, d) < p else DaySum(daily, cohorts, d) == 0.0
  {
    if cohorts != [] {
      var n := |cohorts| - 1;
      var k := LiveCount(cohorts[..n], d);
      SumBelow(daily, cohorts[..n], d, x, k as real * x);
      if Live(cohorts[n], d) {
        OneMoreTimes(k, x, k as real * x, p);
      }
    }
  }

  lemma OneMoreTimes(k: nat, x: real, p: real, q: real)
    requires IsProduct(p, k as real, x) && IsProduct(q, (k + 1) as real, x)
    ensures q == p + x
    ensures k == 0 ==> p == 0.0
  {
  }

  lemma QuotientTimes(s: real, n: nat, x: real)
    requires n > 0 && x == s / n as real
    ensures IsProduct(s, n as real, x)
  {
  }

  lemma BookAverages(daily: seq<seq<real>>, names: nat, cohorts: seq<Cohort>, d: nat)
    requires AllWellFormed(daily, names, cohorts) && d < |daily|
    ensures AveragesAt(daily, cohorts, d, Book(daily, cohorts)[d])
  {
    var live := LiveSet(cohorts, d);
    LiveCountIsCardinality(cohorts, d);
    var earned := seq(|cohorts|, i requires 0 <= i < |cohorts| =>
      if i in live then Dot(daily[d], cohorts[i].weights) else 0.0);
    DaySumIsSum(daily, cohorts, d, earned);
    if live != {} {
      var i := LeastEarner(daily, names, cohorts, d);
      var j := MostEarner(daily, names, cohorts, d);
      QuotientTimes(DaySum(daily, cohorts, d), |live|, Book(daily, cohorts)[d]);
    }
  }

  lemma LeastEarner(daily: seq<seq<real>>, names: nat, cohorts: seq<Cohort>, d: nat) returns (i: nat)
    requires AllWellFormed(daily, names, cohorts) && d < |daily| && LiveCount(cohorts, d) > 0
    ensures i < |cohorts| && Live(cohorts[i], d)
    ensures Dot(daily[d], cohorts[i].weights) <= Book(daily, cohorts)[d]
  {
    var x := Book(daily, cohorts)[d];
    if forall i :: 0 <= i < |cohorts| && Live(cohorts[i], d) ==> CohortReturn(daily, cohorts[i], d) > x {
      QuotientTimes(DaySum(daily, cohorts, d), LiveCount(cohorts, d), x);
      SumAbove(daily, cohorts, d, x, DaySum(daily, cohorts, d));
      assert false;
    }
    i :| 0 <= i < |cohorts| && Live(cohorts[i], d) && CohortReturn(daily, cohorts[i], d) <= x;
  }

  lemma MostEarner(daily: seq<seq<real>>, names: nat, cohorts: seq<Cohort>, d: nat) returns (i: nat)
    requires AllWellFormed(daily, names, cohorts) && d < |daily| && LiveCount(cohorts, d) > 0
    ensures i < |cohorts| && Live(cohorts[i], d)
    ensures Book(daily, cohorts)[d] <= Dot(daily[d], cohorts[i].weights)
  {
    var x := Book(daily, cohorts)[d];
    if forall i :: 0 <= i < |cohorts| && Live(cohorts[i], d) ==> CohortReturn(daily, cohorts[i], d) < x {
      QuotientTimes(DaySum(daily, cohorts, d), LiveCount(cohorts, d), x);
      SumBelow(daily, cohorts, d, x, DaySum(daily, cohorts, d));
      assert false;
    }
    i :| 0 <= i < |cohorts| && Live(cohorts[i], d) && CohortReturn(daily, cohorts[i], d) >= x;
  }

  lemma BookIsAverage(daily: seq<seq<real>>, names: nat, cohorts: seq<Cohort>)
    requires AllWellFormed(daily, names, cohorts)
    ensures IsAverage(daily, cohorts, Book(daily, cohorts))
  {
    forall d: nat | d < |daily| ensures AveragesAt(daily, cohorts, d, Book(daily, cohorts)[d]) {
      BookAverages(daily, names, cohorts, d);
    }
  }

  // ----- accumulation over days, one cohort at a time -----

  /** What the two accumulators hold after the given cohorts. */
  ghost predicate Accumulated(daily: seq<seq<real>>, done: seq<Cohort>, retSum: seq<real>, liveCnt: seq<nat>) {
    && |retSum| == |liveCnt| == |daily|
    && (forall d: nat :: d < |daily| ==> retSum[d] == DaySum(daily, done, d))
    && (forall d: nat :: d < |daily| ==> liveCnt[d] == LiveCount(done, d))
  }

  lemma AccumulateOne(daily: seq<seq<real>>, done: seq<Cohort>, c: Cohort, before: seq<real>, after: seq<real>,
                      cntBefore: seq<nat>, cntAfter: seq<nat>)
    requires Accumulated(daily, done, before, cntBefore) && |after| == |cntAfter| == |daily|
    requires forall d: nat :: d < |daily| ==> after[d] == before[d] + CohortReturn(daily, c, d)
    requires forall d: nat :: d < |daily| ==> cntAfter[d] == cntBefore[d] + if Live(c, d) then 1 else 0
    ensures Accumulated(daily, done + [c], after, cntAfter)
  {
    assert (done + [c])[..|done|] == done;
  }

  /** `ret_sum[start:end] += R[start:end] @ w` and `live_cnt[start:end] += 1`, in place. */
  method AddCohort(daily: seq<seq<real>>, names: nat, ghost done: seq<Cohort>, c: Cohort,
                   retSum: array<real>, liveCnt: array<nat>)
    requires WellFormed(daily, names, c)
    requires Accumulated(daily, done, retSum[..], liveCnt[..])
    modifies retSum, liveCnt
    ensures Accumulated(daily, done + [c], retSum[..], liveCnt[..])
  {
    for d := c.start to c.end
      invariant forall k: nat :: k < |daily| ==>
                  retSum[k] == old(retSum[k]) + if k < d then CohortReturn(daily, c, k) else 0.0
      invariant forall k: nat :: k < |daily| ==> liveCnt[k] == old(liveCnt[k]) + if c.start <= k < d then 1 else 0
    {
      retSum[d] := retSum[d] + Dot(daily[d], c.weights);
      liveCnt[d] := liveCnt[d] + 1;
    }
    AccumulateOne(daily, done, c, old(retSum[..]), retSum[..], old(liveCnt[..]), liveCnt[..]);
  }

  method Average(daily: seq<seq<real>>, ghost done: seq<Cohort>, retSum: array<real>, liveCnt: array<nat>)
    returns (book: seq<real>)
    requires Accumulated(daily, done, retSum[..], liveCnt[..])
    ensures book == Book(daily, done)
  {
    var sums, counts := retSum[..], liveCnt[..];
    book := seq(|daily|, d requires 0 <= d < |daily| =>
      if counts[d] > 0 then sums[d] / counts[d] as real else 0.0);
  }

  /** `_book_from_cohorts`. */
  method BookFromCohorts(daily: seq<seq<real>>, names: nat, cohorts: seq<Cohort>) returns (book: seq<real>)
    requires AllWellFormed(daily, names, cohorts)
    ensures book == Book(daily, cohorts)
    ensures IsAverage(daily, cohorts, book)
  {
    BookIsAverage(daily, names, cohorts);
    var retSum, liveCnt := new real[|daily|](_ => 0.0), new nat[|daily|](_ => 0);
    for i := 0 to |cohorts|
      invariant Accumulated(daily, cohorts[..i], retSum[..], liveCnt[..])
    {
      assert cohorts[..i + 1] == cohorts[..i] + [cohorts[i]];
      AddCohort(daily, names, cohorts[..i], cohorts[i], retSum, liveCnt);
    }
    assert cohorts[..|cohorts|] == cohorts;
    book := Average(daily, cohorts, retSum, liveCnt);
  }

  // ----- relabelling names by a bijection -----

  /** `w_full[perm]`. */
  function Reindex(w: seq<real>, perm: seq<nat>): (r: seq<real>)
    requires InRange(perm, |w|)
    ensures |r| == |perm|
  {
    seq(|perm|, j requires 0 <= j < |perm| => w[perm[j]])
  }

  function Relabel(c: Cohort, perm: seq<nat>): Cohort {
    if InRange(perm, |c.weights|) then c.(weights := Reindex(c.weights, perm)) else c
  }

  /** A bijection moves weights between names and keeps their multiset. */
  lemma {:induction false} RelabelKeepsComposition(w: seq<real>, perm: seq<nat>)
    requires IsPermutation(perm, |w|)
    ensures multiset(Reindex(w, perm)) == multiset(w)
    decreases |w|
  {
    if w != [] {
      var n := |w| - 1;
      Surjective(perm, |w|);
      assert n in perm;
      var i :| 0 <= i <= n && perm[i] == n;
      var rest := perm[..i] + perm[i + 1..];
      DropLargest(perm, n, i);
      RelabelKeepsComposition(w[..n], rest);
      assert Reindex(w[..n], rest) == Reindex(w, perm)[..i] + Reindex(w, perm)[i + 1..];
      MultisetWithout(Reindex(w, perm), i);
      assert w == w[..n] + [w[n]];
    }
  }

  lemma DropLargest(perm: seq<nat>, n: nat, i: nat)
    requires IsPermutation(perm, n + 1) && i <= n && perm[i] == n
    ensures IsPermutation(perm[..i] + perm[i + 1..], n)
  {
    var rest := perm[..i] + perm[i + 1..];
    forall j | 0 <= j < n ensures rest[j] < n {
      assert rest[j] == perm[if j < i then j else j + 1];
    }
    forall j, k | 0 <= j < k < n ensures rest[j] != rest[k] {
      assert rest[j] == perm[if j < i then j else j + 1];
      assert rest[k] == perm[if k < i then k else k + 1];
    }
  }

  function Identity(n: nat): seq<nat> {
    seq(n, i => i)
  }

  lemma IdentityRelabelsNothing(c: Cohort)
    ensures IsPermutation(Identity(|c.weights|), |c.weights|)
    ensures Relabel(c, Identity(|c.weights|)) == c
  {
    assert Reindex(c.weights, Identity(|c.weights|)) == c.weights;
  }

  // ----- the independent null -----

  ghost predicate AllPermutations(draws: seq<seq<nat>>, n: nat) {
    forall i :: 0 <= i < |draws| ==> IsPermutation(draws[i], n)
  }

  /** Every cohort with its weights permuted by its own draw. */
  function RelabelEach(cohorts: seq<Cohort>, draws: seq<seq<nat>>): (r: seq<Cohort>)
    requires |cohorts| == |draws|
    ensures |r| == |cohorts|
  {
    seq(|cohorts|, i requires 0 <= i < |cohorts| => Relabel(cohorts[i], draws[i]))
  }

  /** `flat` are the cohorts with name j carrying what name own[i][j] carried in the i-th. */
  ghost predicate IsRelabelled(cohorts: seq<Cohort>, names: nat, own: seq<seq<nat>>, flat: seq<Cohort>) {
    && |flat| == |cohorts| == |own|
    && forall i :: 0 <= i < |cohorts| ==>
                     && flat[i].start == cohorts[i].start && flat[i].end == cohorts[i].end
                     && |flat[i].weights| == names && |own[i]| == names
                     && forall j :: 0 <= j < names ==> own[i][j] < |cohorts[i].weights|
                                                       && flat[i].weights[j] == cohorts[i].weights[own[i][j]]
  }

  lemma RelabelledOutright(daily: seq<seq<real>>, names: nat, cohorts: seq<Cohort>, own: seq<seq<nat>>)
    requires AllWellFormed(daily, names, cohorts) && AllPermutations(own, names) && |own| == |cohorts|
    ensures IsRelabelled(cohorts, names, own, RelabelEach(cohorts, own))
    ensures IsAverage(daily, RelabelEach(cohorts, own), Book(daily, RelabelEach(cohorts, own)))
  {
    var flat := RelabelEach(cohorts, own);
    forall i | 0 <= i < |cohorts|
      ensures InRange(own[i], |cohorts[i].weights|) && flat[i].weights == Reindex(cohorts[i].weights, own[i])
              && WellFormed(daily, names, flat[i]) {
      assert WellFormed(daily, names, cohorts[i]) && IsPermutation(own[i], names);
    }
    BookIsAverage(daily, names, flat);
  }

  /** `_null_book_arr`: a fresh permutation for every cohort. */
  method NullBookIndependent(daily: seq<seq<real>>, names: nat, cohorts: seq<Cohort>, draws: seq<seq<nat>>)
    returns (book: seq<real>)
    requires AllWellFormed(daily, names, cohorts)
    requires AllPermutations(draws, names) && |draws| == |cohorts|
    ensures book == Book(daily, RelabelEach(cohorts, draws))
    ensures exists flat :: IsRelabelled(cohorts, names, draws, flat) && IsAverage(daily, flat, book)
  {
    RelabelledOutright(daily, names, cohorts, draws);
    var retSum, liveCnt := new real[|daily|](_ => 0.0), new nat[|daily|](_ => 0);
    ghost var flat := RelabelEach(cohorts, draws);
    for i := 0 to |cohorts|
      invariant Accumulated(daily, flat[..i], retSum[..], liveCnt[..])
    {
      var c := cohorts[i].(weights := Reindex(cohorts[i].weights, draws[i]));
      AddCohort(daily, names, flat[..i], c, retSum, liveCnt);
      assert flat[..i + 1] == flat[..i] + [c];
    }
    assert flat[..|cohorts|] == flat;
    book := Average(daily, flat, retSum, liveCnt);
  }

  // ----- windows -----

  /** The window a cohort falls in: fixed bins of the start day. */
  function BinOf(c: Cohort, embargo: int): nat {
    c.start / MaxInt(1, embargo)
  }

  /** Every cohort with its weights permuted by the draw of its window. */
  function RelabelByBin(cohorts: seq<Cohort>, embargo: int, pi: map<nat, seq<nat>>): (r: seq<Cohort>)
    ensures |r| == |cohorts|
  {
    seq(|cohorts|, i requires 0 <= i < |cohorts| => RelabelOne(cohorts[i], embargo, pi))
  }

  function RelabelOne(c: Cohort, embargo: int, pi: map<nat, seq<nat>>): Cohort {
    var bin := BinOf(c, embargo);
    if bin in pi then Relabel(c, pi[bin]) else c
  }

  /** The binning rule as a function of the cohort. */
  function BinKey(embargo: int): Cohort -> nat {
    (c: Cohort) => BinOf(c, embargo)
  }

  function InBin(cohorts: seq<Cohort>, key: Cohort -> nat, bin: nat): seq<Cohort> {
    if cohorts == [] then []
    else
      var last := cohorts[|cohorts| - 1];
      InBin(cohorts[..|cohorts| - 1], key, bin) + if key(last) == bin then [last] else []
  }

  /** The cohorts window after window. */
  function Grouped(cohorts: seq<Cohort>, key: Cohort -> nat, bins: seq<nat>): seq<Cohort> {
    if bins == [] then []
    else Grouped(cohorts, key, bins[..|bins| - 1]) + InBin(cohorts, key, bins[|bins| - 1])
  }

  lemma InBinAppend(cohorts: seq<Cohort>, c: Cohort, key: Cohort -> nat, bin: nat)
    ensures InBin(cohorts + [c], key, bin) == InBin(cohorts, key, bin) + if key(c) == bin then [c] else []
  {
    assert (cohorts + [c])[..|cohorts|] == cohorts;
  }

  ghost function Once(c: Cohort, present: bool): multiset<Cohort> {
    if present then multiset{c} else multiset{}
  }

  lemma InBinAppendCounts(cohorts: seq<Cohort>, c: Cohort, key: Cohort -> nat, bin: nat)
    ensures multiset(InBin(cohorts + [c], key, bin)) == multiset(InBin(cohorts, key, bin)) + Once(c, key(c) == bin)
  {
    InBinAppend(cohorts, c, key, bin);
  }

  lemma {:induction false} GroupedAppend(cohorts: seq<Cohort>, c: Cohort, key: Cohort -> nat, bins: seq<nat>)
    requires Distinct(bins)
    ensures multiset(Grouped(cohorts + [c], key, bins))
         == multiset(Grouped(cohorts, key, bins)) + Once(c, key(c) in bins)
    decreases |bins|
  {
    if bins != [] {
      var k := |bins| - 1;
      GroupedAppend(cohorts, c, key, bins[..k]);
      InBinAppendCounts(cohorts, c, key, bins[k]);
      LastIsNew(bins, key(c), c);
    }
  }

  lemma LastIsNew(bins: seq<nat>, b: nat, c: Cohort)
    requires Distinct(bins) && bins != []
    ensures Once(c, b in bins) == Once(c, b in bins[..|bins| - 1]) + Once(c, b == bins[|bins| - 1])
  {
    var k := |bins| - 1;
    assert bins == bins[..k] + [bins[k]];
    assert bins[k] !in bins[..k];
  }

  ghost predicate Visits(bins: seq<nat>, cohorts: seq<Cohort>, key: Cohort -> nat) {
    forall i :: 0 <= i < |cohorts| ==> key(cohorts[i]) in bins
  }

  /** Grouping by distinct windows that cover every cohort only reorders. */
  lemma {:induction false} GroupedIsReordering(cohorts: seq<Cohort>, key: Cohort -> nat, bins: seq<nat>)
    requires Distinct(bins) && Visits(bins, cohorts, key)
    ensures multiset(Grouped(cohorts, key, bins)) == multiset(cohorts)
    decreases |cohorts|
  {
    if cohorts == [] {
      GroupedOfNone(key, bins);
    } else {
      var rest, c := cohorts[..|cohorts| - 1], cohorts[|cohorts| - 1];
      GroupedIsReordering(rest, key, bins);
      GroupedStep(rest, c, key, bins, cohorts);
    }
  }

  lemma GroupedStep(rest: seq<Cohort>, c: Cohort, key: Cohort -> nat, bins: seq<nat>, cohorts: seq<Cohort>)
    requires Distinct(bins) && key(c) in bins && cohorts == rest + [c]
    requires multiset(Grouped(rest, key, bins)) == multiset(rest)
    ensures multiset(Grouped(cohorts, key, bins)) == multiset(cohorts)
  {
    GroupedAppend(rest, c, key, bins);
  }

  lemma {:induction false} GroupedOfNone(key: Cohort -> nat, bins: seq<nat>)
    ensures Grouped([], key, bins) == []
    decreases |bins|
  {
    if bins != [] {
      GroupedOfNone(key, bins[..|bins| - 1]);
    }
  }

  function RelabelList(cohorts: seq<Cohort>, perm: seq<nat>): seq<Cohort> {
    if cohorts == [] then [] else RelabelList(cohorts[..|cohorts| - 1], perm) + [Relabel(cohorts[|cohorts| - 1], perm)]
  }

  /** Relabelling does not move a cohort between windows, and within a window everyone gets the same draw. */
  lemma {:induction false} WindowSharesDraw(cohorts: seq<Cohort>, embargo: int, pi: map<nat, seq<nat>>, bin: nat)
    requires bin in pi
    ensures InBin(RelabelByBin(cohorts, embargo, pi), BinKey(embargo), bin)
         == RelabelList(InBin(cohorts, BinKey(embargo), bin), pi[bin])
    decreases |cohorts|
  {
    if cohorts == [] {
      assert RelabelByBin(cohorts, embargo, pi) == [];
    } else {
      var n := |cohorts| - 1;
      WindowSharesDraw(cohorts[..n], embargo, pi, bin);
      RelabelAppend(cohorts, embargo, pi);
      InBinAppend(RelabelByBin(cohorts[..n], embargo, pi), RelabelOne(cohorts[n], embargo, pi), BinKey(embargo), bin);
      var part := InBin(cohorts[..n], BinKey(embargo), bin);
      if BinKey(embargo)(cohorts[n]) == bin {
        assert RelabelOne(cohorts[n], embargo, pi) == Relabel(cohorts[n], pi[bin]);
        assert InBin(cohorts, BinKey(embargo), bin) == part + [cohorts[n]];
        RelabelListAppend(part, cohorts[n], pi[bin]);
      } else {
        assert InBin(cohorts, BinKey(embargo), bin) == part;
      }
    }
  }

  lemma RelabelAppend(cohorts: seq<Cohort>, embargo: int, pi: map<nat, seq<nat>>)
    requires cohorts != []
    ensures var n := |cohorts| - 1;
            && RelabelByBin(cohorts, embargo, pi)
               == RelabelByBin(cohorts[..n], embargo, pi) + [RelabelOne(cohorts[n], embargo, pi)]
            && BinKey(embargo)(RelabelOne(cohorts[n], embargo, pi)) == BinKey(embargo)(cohorts[n])
  {
  }

  lemma RelabelListAppend(cohorts: seq<Cohort>, c: Cohort, perm: seq<nat>)
    ensures RelabelList(cohorts + [c], perm) == RelabelList(cohorts, perm) + [Relabel(c, perm)]
  {
    assert (cohorts + [c])[..|cohorts|] == cohorts;
  }

  lemma {:induction false} InBinWellFormed(daily: seq<seq<real>>, names: nat, cohorts: seq<Cohort>,
                                           key: Cohort -> nat, bin: nat)
    requires AllWellFormed(daily, names, cohorts)
    ensures AllWellFormed(daily, names, InBin(cohorts, key, bin))
    decreases |cohorts|
  {
    if cohorts != [] {
      InBinWellFormed(daily, names, cohorts[..|cohorts| - 1], key, bin);
    }
  }

  // ----- the gate null -----

  /** Windows in order of first appearance. */
  function BinOrder(cohorts: seq<Cohort>, key: Cohort -> nat): (order: seq<nat>)
    ensures Distinct(order) && Visits(order, cohorts, key)
  {
    if cohorts == [] then []
    else
      var order := BinOrder(cohorts[..|cohorts| - 1], key);
      var bin := key(cohorts[|cohorts| - 1]);
      if bin in order then order else order + [bin]
  }

  /** Every window's list holds its cohorts so far, and the dict's keys are the windows seen. */
  ghost predicate Binned(cohorts: seq<Cohort>, key: Cohort -> nat, order: seq<nat>, bins: map<nat, seq<Cohort>>) {
    && order == BinOrder(cohorts, key)
    && (forall b :: b in bins <==> b in order)
    && forall b: nat :: Listed(bins, b) == InBin(cohorts, key, b)
  }

  lemma BinOrderAppend(cohorts: seq<Cohort>, c: Cohort, key: Cohort -> nat, order: seq<nat>)
    requires order == BinOrder(cohorts, key)
    ensures BinOrder(cohorts + [c], key) == if key(c) in order then order else order + [key(c)]
  {
    assert (cohorts + [c])[..|cohorts|] == cohorts;
  }

  lemma ListedAppend(cohorts: seq<Cohort>, c: Cohort, key: Cohort -> nat, bins: map<nat, seq<Cohort>>,
                     next: map<nat, seq<Cohort>>, b: nat)
    requires Listed(bins, b) == InBin(cohorts, key, b)
    requires next == bins[key(c) := Listed(bins, key(c)) + [c]]
    ensures Listed(next, b) == InBin(cohorts + [c], key, b)
  {
    InBinAppend(cohorts, c, key, b);
  }

  lemma BinOneMore(cohorts: seq<Cohort>, c: Cohort, key: Cohort -> nat, order: seq<nat>, bins: map<nat, seq<Cohort>>,
                   longer: seq<nat>, next: map<nat, seq<Cohort>>)
    requires Binned(cohorts, key, order, bins)
    requires longer == if key(c) in order then order else order + [key(c)]
    requires next == bins[key(c) := Listed(bins, key(c)) + [c]]
    ensures Binned(cohorts + [c], key, longer, next)
  {
    BinOrderAppend(cohorts, c, key, order);
    forall b: nat ensures Listed(next, b) == InBin(cohorts + [c], key, b) {
      ListedAppend(cohorts, c, key, bins, next, b);
    }
  }

  /** `bins.setdefault(key, []).append(cohort)` over all cohorts; a dict keeps its keys in insertion order. */
  method BinCohorts(cohorts: seq<Cohort>, key: Cohort -> nat) returns (order: seq<nat>, bins: map<nat, seq<Cohort>>)
    ensures order == BinOrder(cohorts, key)
    ensures forall b :: b in order ==> b in bins && bins[b] == InBin(cohorts, key, b)
  {
    order, bins := [], map[];
    NoBins(key);
    for i := 0 to |cohorts|
      invariant Binned(cohorts[..i], key, order, bins)
    {
      var b := key(cohorts[i]);
      var longer := if b in order then order else order + [b];
      var next := bins[b := Listed(bins, b) + [cohorts[i]]];
      BinOneMore(cohorts[..i], cohorts[i], key, order, bins, longer, next);
      assert cohorts[..i + 1] == cohorts[..i] + [cohorts[i]];
      order, bins := longer, next;
    }
    assert cohorts[..|cohorts|] == cohorts;
    BinsRead(cohorts, key, order, bins);
  }

  lemma NoBins(key: Cohort -> nat)
    ensures Binned([], key, [], map[])
  {
  }

  lemma BinsRead(cohorts: seq<Cohort>, key: Cohort -> nat, order: seq<nat>, bins: map<nat, seq<Cohort>>)
    requires Binned(cohorts, key, order, bins)
    ensures order == BinOrder(cohorts, key)
    ensures forall b :: b in order ==> b in bins && bins[b] == InBin(cohorts, key, b)
  {
    assert forall b :: b in order ==> Listed(bins, b) == bins[b];
  }

  function Listed(bins: map<nat, seq<Cohort>>, b: nat): seq<Cohort> {
    if b in bins then bins[b] else []
  }

  /** The draw each window received: the j-th window to appear gets the j-th permutation. */
  ghost function DrawsByBin(order: seq<nat>, draws: seq<seq<nat>>): map<nat, seq<nat>>
    requires |order| <= |draws|
  {
    if order == [] then map[] else DrawsByBin(order[..|order| - 1], draws)[order[|order| - 1] := draws[|order| - 1]]
  }

  lemma {:induction false} DrawsByBinAt(order: seq<nat>, draws: seq<seq<nat>>, j: nat)
    requires Distinct(order) && j < |order| <= |draws|
    ensures order[j] in DrawsByBin(order, draws) && DrawsByBin(order, draws)[order[j]] == draws[j]
    decreases |order|
  {
    if j < |order| - 1 {
      DrawsByBinAt(order[..|order| - 1], draws, j);
    }
  }

  /** The inner loop: every cohort of a window is added with its weights read through the window's permutation. */
  method AddWindow(daily: seq<seq<real>>, names: nat, ghost done: seq<Cohort>, clist: seq<Cohort>, perm: seq<nat>,
                   retSum: array<real>, liveCnt: array<nat>)
    requires AllWellFormed(daily, names, clist) && IsPermutation(perm, names)
    requires Accumulated(daily, done, retSum[..], liveCnt[..])
    modifies retSum, liveCnt
    ensures Accumulated(daily, done + RelabelList(clist, perm), retSum[..], liveCnt[..])
  {
    assert done + [] == done;
    for i := 0 to |clist|
      invariant Accumulated(daily, done + RelabelList(clist[..i], perm), retSum[..], liveCnt[..])
    {
      var c := clist[i].(weights := Reindex(clist[i].weights, perm));
      AddCohort(daily, names, done + RelabelList(clist[..i], perm), c, retSum, liveCnt);
      assert clist[..i + 1][..i] == clist[..i];
      assert done + RelabelList(clist[..i + 1], perm) == (done + RelabelList(clist[..i], perm)) + [c];
    }
    assert clist[..|clist|] == clist;
  }

  /** Each window of `flat` holds the cohorts listed for it, relabelled by its draw. */
  ghost predicate WindowsMatch(flat: seq<Cohort>, key: Cohort -> nat, order: seq<nat>, lists: seq<seq<Cohort>>,
                               draws: seq<seq<nat>>) {
    && |order| == |lists| <= |draws|
    && forall j :: 0 <= j < |order| ==> InBin(flat, key, order[j]) == RelabelList(lists[j], draws[j])
  }

  /** The outer loop: window after window, each under its own permutation. */
  method AddWindows(daily: seq<seq<real>>, names: nat, ghost flat: seq<Cohort>, ghost key: Cohort -> nat,
                    ghost order: seq<nat>, lists: seq<seq<Cohort>>, draws: seq<seq<nat>>,
                    retSum: array<real>, liveCnt: array<nat>)
    requires WindowsMatch(flat, key, order, lists, draws) && AllPermutations(draws, names)
    requires forall j :: 0 <= j < |lists| ==> AllWellFormed(daily, names, lists[j])
    requires Accumulated(daily, [], retSum[..], liveCnt[..])
    modifies retSum, liveCnt
    ensures Accumulated(daily, Grouped(flat, key, order), retSum[..], liveCnt[..])
  {
    for j := 0 to |lists|
      invariant Accumulated(daily, Grouped(flat, key, order[..j]), retSum[..], liveCnt[..])
    {
      AddWindow(daily, names, Grouped(flat, key, order[..j]), lists[j], draws[j], retSum, liveCnt);
      assert order[..j + 1][..j] == order[..j];
    }
    assert order[..|order|] == order;
  }

  lemma BinsMatch(cohorts: seq<Cohort>, embargo: int, order: seq<nat>, lists: seq<seq<Cohort>>, draws: seq<seq<nat>>)
    requires Distinct(order) && |order| == |lists| <= |draws|
    requires forall j :: 0 <= j < |order| ==> lists[j] == InBin(cohorts, BinKey(embargo), order[j])
    ensures WindowsMatch(RelabelByBin(cohorts, embargo, DrawsByBin(order, draws)), BinKey(embargo), order, lists, draws)
  {
    var pi := DrawsByBin(order, draws);
    forall j | 0 <= j < |order|
      ensures InBin(RelabelByBin(cohorts, embargo, pi), BinKey(embargo), order[j]) == RelabelList(lists[j], draws[j]) {
      DrawsByBinAt(order, draws, j);
      WindowSharesDraw(cohorts, embargo, pi, order[j]);
    }
  }

  lemma GroupedBook(daily: seq<seq<real>>, cohorts: seq<Cohort>, embargo: int, pi: map<nat, seq<nat>>, order: seq<nat>)
    requires order == BinOrder(cohorts, BinKey(embargo))
    ensures var flat := RelabelByBin(cohorts, embargo, pi);
            Book(daily, Grouped(flat, BinKey(embargo), order)) == Book(daily, flat)
  {
    var flat := RelabelByBin(cohorts, embargo, pi);
    FlatIsVisited(cohorts, embargo, pi, order);
    GroupedIsReordering(flat, BinKey(embargo), order);
    BookByMultiset(daily, Grouped(flat, BinKey(embargo), order), flat);
  }

  lemma ListsWellFormed(daily: seq<seq<real>>, names: nat, cohorts: seq<Cohort>, key: Cohort -> nat,
                        order: seq<nat>, lists: seq<seq<Cohort>>)
    requires AllWellFormed(daily, names, cohorts) && |order| == |lists|
    requires forall j :: 0 <= j < |order| ==> lists[j] == InBin(cohorts, key, order[j])
    ensures forall j :: 0 <= j < |lists| ==> AllWellFormed(daily, names, lists[j])
  {
    forall j | 0 <= j < |lists| ensures AllWellFormed(daily, names, lists[j]) {
      InBinWellFormed(daily, names, cohorts, key, order[j]);
    }
  }

  /** The window of a cohort: which stretch of max(1, embargo) days its start falls in. */
  ghost function Windows(cohorts: seq<Cohort>, embargo: int): set<nat> {
    set c | c in cohorts :: c.start / MaxInt(1, embargo)
  }

  /**
   * The draws go to the windows in order of first appearance: a cohort opening a window gets the draw numbered by the
   * windows opened before it, and cohorts of one window share their draw.
   */
  ghost predicate IsTied(cohorts: seq<Cohort>, embargo: int, draws: seq<seq<nat>>, own: seq<seq<nat>>) {
    var m := MaxInt(1, embargo);
    && |own| == |cohorts|
    && (forall i, j :: 0 <= i < j < |cohorts| && cohorts[i].start / m == cohorts[j].start / m ==> own[i] == own[j])
    && (forall i :: 0 <= i < |cohorts| && cohorts[i].start / m !in Windows(cohorts[..i], embargo) ==>
                      |Windows(cohorts[..i], embargo)| < |draws| && own[i] == draws[|Windows(cohorts[..i], embargo)|])
  }

  /** The order visits exactly the windows. */
  lemma {:induction false} OrderIsWindows(cohorts: seq<Cohort>, embargo: int)
    ensures Elements(BinOrder(cohorts, BinKey(embargo))) == Windows(cohorts, embargo)
  {
    if cohorts != [] {
      var n := |cohorts| - 1;
      OrderIsWindows(cohorts[..n], embargo);
      assert cohorts == cohorts[..n] + [cohorts[n]];
      assert Windows(cohorts, embargo) == Windows(cohorts[..n], embargo) + {BinOf(cohorts[n], embargo)};
    }
  }

  lemma {:induction false} OrderGrows(cohorts: seq<Cohort>, key: Cohort -> nat, i: nat)
    requires i <= |cohorts|
    ensures BinOrder(cohorts[..i], key) <= BinOrder(cohorts, key)
    decreases |cohorts|
  {
    if i == |cohorts| {
      assert cohorts[..i] == cohorts;
    } else {
      OrderGrows(cohorts[..|cohorts| - 1], key, i);
      assert cohorts[..|cohorts| - 1][..i] == cohorts[..i];
    }
  }

  /** The cohort that opens a window puts it at the place numbered by the windows before it. */
  lemma OpensAt(cohorts: seq<Cohort>, embargo: int, i: nat)
    requires i < |cohorts| && BinOf(cohorts[i], embargo) !in Windows(cohorts[..i], embargo)
    ensures var order := BinOrder(cohorts, BinKey(embargo));
            var k := |Windows(cohorts[..i], embargo)|;
            k < |order| && order[k] == BinOf(cohorts[i], embargo)
  {
    var key := BinKey(embargo);
    OrderIsWindows(cohorts[..i], embargo);
    DistinctSize(BinOrder(cohorts[..i], key));
    assert cohorts[..i + 1][..i] == cohorts[..i];
    assert BinOf(cohorts[i], embargo) !in Elements(BinOrder(cohorts[..i], key));
    OrderGrows(cohorts, key, i + 1);
  }

  /** The draw each cohort receives. */
  ghost function OwnDraws(cohorts: seq<Cohort>, embargo: int, draws: seq<seq<nat>>): (own: seq<seq<nat>>)
    requires |draws| >= |BinOrder(cohorts, BinKey(embargo))|
    ensures |own| == |cohorts|
  {
    var pi := DrawsByBin(BinOrder(cohorts, BinKey(embargo)), draws);
    seq(|cohorts|, i requires 0 <= i < |cohorts| =>
      if BinOf(cohorts[i], embargo) in pi then pi[BinOf(cohorts[i], embargo)] else [])
  }

  lemma OwnDrawAt(cohorts: seq<Cohort>, embargo: int, draws: seq<seq<nat>>, i: nat) returns (j: nat)
    requires |draws| >= |BinOrder(cohorts, BinKey(embargo))| && i < |cohorts|
    ensures j < |BinOrder(cohorts, BinKey(embargo))|
    ensures BinOrder(cohorts, BinKey(embargo))[j] == BinOf(cohorts[i], embargo)
    ensures OwnDraws(cohorts, embargo, draws)[i] == draws[j]
  {
    var order := BinOrder(cohorts, BinKey(embargo));
    assert BinKey(embargo)(cohorts[i]) in order;
    j :| 0 <= j < |order| && order[j] == BinOf(cohorts[i], embargo);
    DrawsByBinAt(order, draws, j);
  }

  lemma OwnDrawsTied(cohorts: seq<Cohort>, embargo: int, draws: seq<seq<nat>>)
    requires |draws| >= |BinOrder(cohorts, BinKey(embargo))|
    ensures IsTied(cohorts, embargo, draws, OwnDraws(cohorts, embargo, draws))
  {
    var own := OwnDraws(cohorts, embargo, draws);
    forall i: nat | i < |cohorts| && BinOf(cohorts[i], embargo) !in Windows(cohorts[..i], embargo)
      ensures |Windows(cohorts[..i], embargo)| < |draws| && own[i] == draws[|Windows(cohorts[..i], embargo)|] {
      OpensAt(cohorts, embargo, i);
      DrawsByBinAt(BinOrder(cohorts, BinKey(embargo)), draws, |Windows(cohorts[..i], embargo)|);
    }
  }

  lemma OwnDrawsRelabel(names: nat, cohorts: seq<Cohort>, draws: seq<seq<nat>>, embargo: int, own: seq<seq<nat>>)
    requires AllPermutations(draws, names) && |draws| >= |BinOrder(cohorts, BinKey(embargo))|
    requires own == OwnDraws(cohorts, embargo, draws)
    ensures AllPermutations(own, names)
    ensures RelabelEach(cohorts, own)
         == RelabelByBin(cohorts, embargo, DrawsByBin(BinOrder(cohorts, BinKey(embargo)), draws))
  {
    var order := BinOrder(cohorts, BinKey(embargo));
    forall i: nat | i < |cohorts|
      ensures IsPermutation(own[i], names)
      ensures forall j :: 0 <= j < |order| && BinOf(cohorts[i], embargo) == order[j] ==> own[i] == draws[j] {
      var j := OwnDrawAt(cohorts, embargo, draws, i);
    }
    GateNullIsTied(cohorts, embargo, draws, own);
  }

  /** The loops of `_null_book_persistent`: window by window they yield the flat book of the relabelled cohorts. */
  method WindowedBook(daily: seq<seq<real>>, names: nat, cohorts: seq<Cohort>, draws: seq<seq<nat>>, embargo: int)
    returns (book: seq<real>)
    requires AllWellFormed(daily, names, cohorts)
    requires AllPermutations(draws, names) && |draws| >= |BinOrder(cohorts, BinKey(embargo))|
    ensures book == Book(daily, RelabelByBin(cohorts, embargo, DrawsByBin(BinOrder(cohorts, BinKey(embargo)), draws)))
  {
    var retSum, liveCnt := new real[|daily|](_ => 0.0), new nat[|daily|](_ => 0);
    var order, lists := BinLists(cohorts, BinKey(embargo));
    ghost var pi := DrawsByBin(order, draws);
    ghost var flat := RelabelByBin(cohorts, embargo, pi);
    BinsMatch(cohorts, embargo, order, lists, draws);
    ListsWellFormed(daily, names, cohorts, BinKey(embargo), order, lists);
    AddWindows(daily, names, flat, BinKey(embargo), order, lists, draws, retSum, liveCnt);
    book := Average(daily, Grouped(flat, BinKey(embargo), order), retSum, liveCnt);
    GroupedBook(daily, cohorts, embargo, pi, order);
  }

  /** What the gate null is, without its loops: the averages of the cohorts relabelled by their windows' draws. */
  ghost predicate IsGateNull(daily: seq<seq<real>>, names: nat, cohorts: seq<Cohort>, draws: seq<seq<nat>>,
                             embargo: int, book: seq<real>) {
    exists own, flat ::
      IsTied(cohorts, embargo, draws, own) && IsRelabelled(cohorts, names, own, flat) && IsAverage(daily, flat, book)
  }

  lemma GateNullOutright(daily: seq<seq<real>>, names: nat, cohorts: seq<Cohort>, draws: seq<seq<nat>>, embargo: int,
                         book: seq<real>)
    requires AllWellFormed(daily, names, cohorts)
    requires AllPermutations(draws, names) && |draws| >= |BinOrder(cohorts, BinKey(embargo))|
    requires book == Book(daily, RelabelByBin(cohorts, embargo, DrawsByBin(BinOrder(cohorts, BinKey(embargo)), draws)))
    ensures IsGateNull(daily, names, cohorts, draws, embargo, book)
  {
    var own := OwnDraws(cohorts, embargo, draws);
    OwnDrawsTied(cohorts, embargo, draws);
    OwnDrawsRelabel(names, cohorts, draws, embargo, own);
    RelabelledOutright(daily, names, cohorts, own);
  }

  /** `_null_book_persistent`: one permutation per window, shared by all its cohorts. */
  method NullBookPersistent(daily: seq<seq<real>>, names: nat, cohorts: seq<Cohort>, draws: seq<seq<nat>>, embargo: int)
    returns (book: seq<real>)
    requires AllWellFormed(daily, names, cohorts)
    requires AllPermutations(draws, names) && |draws| >= |BinOrder(cohorts, BinKey(embargo))|
    ensures book == Book(daily, RelabelByBin(cohorts, embargo, DrawsByBin(BinOrder(cohorts, BinKey(embargo)), draws)))
    ensures IsGateNull(daily, names, cohorts, draws, embargo, book)
  {
    book := WindowedBook(daily, names, cohorts, draws, embargo);
    GateNullOutright(daily, names, cohorts, draws, embargo, book);
  }

  /** `bins.values()`: the lists in the order their windows appeared. */
  method BinLists(cohorts: seq<Cohort>, key: Cohort -> nat) returns (order: seq<nat>, lists: seq<seq<Cohort>>)
    ensures order == BinOrder(cohorts, key) && |order| == |lists|
    ensures forall j :: 0 <= j < |order| ==> lists[j] == InBin(cohorts, key, order[j])
  {
    var bins;
    order, bins := BinCohorts(cohorts, key);
    assert forall j :: 0 <= j < |order| ==> order[j] in bins;
    lists := seq(|order|, j requires 0 <= j < |order| && order[j] in bins => bins[order[j]]);
  }

  lemma FlatIsVisited(cohorts: seq<Cohort>, embargo: int, pi: map<nat, seq<nat>>, order: seq<nat>)
    requires Visits(order, cohorts, BinKey(embargo))
    ensures Visits(order, RelabelByBin(cohorts, embargo, pi), BinKey(embargo))
  {
    var flat := RelabelByBin(cohorts, embargo, pi);
    forall i | 0 <= i < |flat| ensures BinKey(embargo)(flat[i]) in order {
      assert BinOf(flat[i], embargo) == BinKey(embargo)(cohorts[i]);
    }
  }

  /** The gate null is an independent null whose draws are tied within each window. */
  lemma GateNullIsTied(cohorts: seq<Cohort>, embargo: int, draws: seq<seq<nat>>, own: seq<seq<nat>>)
    requires |draws| >= |BinOrder(cohorts, BinKey(embargo))| && |own| == |cohorts|
    requires var order := BinOrder(cohorts, BinKey(embargo));
             forall i, j :: 0 <= i < |cohorts| && 0 <= j < |order| && BinOf(cohorts[i], embargo) == order[j] ==>
                              own[i] == draws[j]
    ensures RelabelEach(cohorts, own)
         == RelabelByBin(cohorts, embargo, DrawsByBin(BinOrder(cohorts, BinKey(embargo)), draws))
  {
    var order := BinOrder(cohorts, BinKey(embargo));
    forall i | 0 <= i < |cohorts|
      ensures RelabelOne(cohorts[i], embargo, DrawsByBin(order, draws)) == Relabel(cohorts[i], own[i]) {
      assert BinKey(embargo)(cohorts[i]) in order;
      var j :| 0 <= j < |order| && order[j] == BinOf(cohorts[i], embargo);
      DrawsByBinAt(order, draws, j);
    }
  }

  // ----- what the gate null keeps of the real book -----

  /** On every day the null averages over exactly as many cohorts as the real book. */
  lemma {:induction false} NullKeepsLiveCounts(cohorts: seq<Cohort>, embargo: int, pi: map<nat, seq<nat>>, d: nat)
    ensures LiveCount(RelabelByBin(cohorts, embargo, pi), d) == LiveCount(cohorts, d)
    decreases |cohorts|
  {
    if cohorts != [] {
      var n := |cohorts| - 1;
      NullKeepsLiveCounts(cohorts[..n], embargo, pi, d);
      assert RelabelByBin(cohorts, embargo, pi)[..n] == RelabelByBin(cohorts[..n], embargo, pi);
    }
  }

  /** Each cohort keeps its hold and its multiset of weights. */
  lemma NullKeepsComposition(daily: seq<seq<real>>, names: nat, cohorts: seq<Cohort>, draws: seq<seq<nat>>,
                             embargo: int, i: nat)
    requires AllWellFormed(daily, names, cohorts) && i < |cohorts|
    requires AllPermutations(draws, names) && |draws| >= |BinOrder(cohorts, BinKey(embargo))|
    ensures var c := RelabelByBin(cohorts, embargo, DrawsByBin(BinOrder(cohorts, BinKey(embargo)), draws))[i];
            && c.start == cohorts[i].start && c.end == cohorts[i].end
            && multiset(c.weights) == multiset(cohorts[i].weights)
  {
    var order := BinOrder(cohorts, BinKey(embargo));
    var bin := BinKey(embargo)(cohorts[i]);
    assert bin in order;
    var j :| 0 <= j < |order| && order[j] == bin;
    DrawsByBinAt(order, draws, j);
    RelabelKeepsComposition(cohorts[i].weights, draws[j]);
  }

  /** With identity draws the gate null is the real book. */
  lemma IdentityNullIsRealBook(daily: seq<seq<real>>, names: nat, cohorts: seq<Cohort>, embargo: int,
                               pi: map<nat, seq<nat>>)
    requires AllWellFormed(daily, names, cohorts)
    requires forall b :: b in pi ==> pi[b] == Identity(names)
    ensures Book(daily, RelabelByBin(cohorts, embargo, pi)) == Book(daily, cohorts)
  {
    forall i | 0 <= i < |cohorts| ensures RelabelByBin(cohorts, embargo, pi)[i] == cohorts[i] {
      IdentityRelabelsNothing(cohorts[i]);
    }
    assert RelabelByBin(cohorts, embargo, pi) == cohorts;
  }

  /** The width of a bin: the embargo, but at least a day. */
  function BinWidth(embargo: int): (m: int)
    ensures m >= 1
  {
    MaxInt(1, embargo)
  }

  /** Two starts fall in one window exactly when the later one comes before the earlier one's bin ends. */
  lemma SharedWindowIff(a: Cohort, b: Cohort, embargo: int)
    requires a.start <= b.start
    ensures BinOf(a, embargo) == BinOf(b, embargo)
       <==> a.start % BinWidth(embargo) + (b.start - a.start) < BinWidth(embargo)
  {
    var m, q := BinWidth(embargo), BinOf(a, embargo);
    var r := a.start % m + (b.start - a.start);
    assert a.start == q * m + a.start % m;
    assert b.start == BinOf(b, embargo) * m + b.start % m;
    if r < m {
      QuotientIs(b.start, q, m, r);
    }
  }

  /** Cohorts that share a window start less than a bin's width apart. */
  lemma SharedWindowIsShort(a: Cohort, b: Cohort, embargo: int)
    requires BinOf(a, embargo) == BinOf(b, embargo)
    ensures -BinWidth(embargo) < a.start - b.start < BinWidth(embargo)
  {
    if a.start <= b.start {
      SharedWindowIff(a, b, embargo);
    } else {
      SharedWindowIff(b, a, embargo);
    }
  }

  /** What the documentation promises of a book: cohorts of different windows start an embargo apart. */
  ghost predicate WindowsApart(cohorts: seq<Cohort>, embargo: int) {
    forall i, j :: 0 <= i < |cohorts| && 0 <= j < |cohorts| && cohorts[i].start <= cohorts[j].start
                   && BinOf(cohorts[i], embargo) != BinOf(cohorts[j], embargo)
                   ==> cohorts[j].start - cohorts[i].start >= embargo
  }

  /** No two starts closer than the embargo straddle a bin edge. */
  ghost predicate NoneStraddles(cohorts: seq<Cohort>, embargo: int) {
    forall i, j :: 0 <= i < |cohorts| && 0 <= j < |cohorts| && 0 <= cohorts[j].start - cohorts[i].start < embargo
                   ==> cohorts[i].start % BinWidth(embargo) + (cohorts[j].start - cohorts[i].start) < BinWidth(embargo)
  }

  /** Windows are an embargo apart exactly when no two cohorts closer than that straddle a bin edge. */
  lemma WindowsApartIff(cohorts: seq<Cohort>, embargo: int)
    ensures WindowsApart(cohorts, embargo) <==> NoneStraddles(cohorts, embargo)
  {
    forall i, j | 0 <= i < |cohorts| && 0 <= j < |cohorts| && cohorts[i].start <= cohorts[j].start
      ensures BinOf(cohorts[i], embargo) == BinOf(cohorts[j], embargo)
         <==> cohorts[i].start % BinWidth(embargo) + (cohorts[j].start - cohorts[i].start) < BinWidth(embargo) {
      SharedWindowIff(cohorts[i], cohorts[j], embargo);
    }
  }

  /** Cohorts one day apart, the second on a bin edge, already break the promise for every embargo above a day. */
  lemma BinEdgeSplitsNeighbours(a: Cohort, b: Cohort, embargo: int, q: nat)
    requires embargo > 1 && b.start == (q + 1) * embargo && a.start == b.start - 1
    ensures !WindowsApart([a, b], embargo)
  {
    assert a.start == q * embargo + (embargo - 1);
    QuotientIs(a.start, q, embargo, embargo - 1);
    QuotientIs(b.start, q + 1, embargo, 0);
    var cohorts := [a, b];
    assert BinOf(cohorts[0], embargo) != BinOf(cohorts[1], embargo);
  }

  lemma QuotientIs(n: nat, q: nat, m: nat, r: nat)
    requires m > 0 && n == q * m + r && r < m
    ensures n / m == q
  {
    SameQuotient(q, n / m, r, n % m, m);
  }

  lemma SameQuotient(q: int, k: int, r: int, s: int, m: int)
    requires 0 <= r < m && 0 <= s < m && q * m + r == k * m + s
    ensures q == k
  {
    assert (q - k) * m == s - r;
    if q > k {
      AtLeastOnce(q - k, m);
    } else if q < k {
      AtLeastOnce(k - q, m);
    }
  }

  lemma AtLeastOnce(d: int, m: int)
    requires d >= 1 && m > 0
    ensures d * m >= m
  {
  }
}

/** The greedy embargo thinning and its window-numbering twin (gauntlet/forkb/permnull.py). */
module Embargo {
  import opened Arith
  import opened StableSort
  import Permutations
  import opened NullBook

  predicate Sorted(starts: seq<int>) {
    forall i, j :: 0 <= i < j < |starts| ==> starts[i] <= starts[j]
  }

  /** An increasing choice of positions below `n`. */
  predicate IsChoice(idx: seq<nat>, n: nat) {
    (forall k :: 0 <= k < |idx| ==> idx[k] < n) && forall j, k :: 0 <= j < k < |idx| ==> idx[j] < idx[k]
  }

  /** Consecutive chosen starts are at least `embargo` apart. */
  predicate Spaced(starts: seq<int>, idx: seq<nat>, embargo: int)
    requires IsChoice(idx, |starts|)
  {
    forall k :: 0 < k < |idx| ==> starts[idx[k]] - starts[idx[k - 1]] >= embargo
  }

  predicate EndsBelow(idx: seq<nat>, n: nat) {
    idx != [] ==> idx[|idx| - 1] < n
  }

  /** The positions the walk keeps among the first `n`. */
  function Greedy(starts: seq<int>, embargo: int, n: nat): (idx: seq<nat>)
    requires n <= |starts|
    ensures EndsBelow(idx, n)
  {
    if n == 0 then []
    else
      var idx := Greedy(starts, embargo, n - 1);
      if idx == [] || starts[n - 1] - starts[idx[|idx| - 1]] >= embargo then idx + [n - 1] else idx
  }

  /** Every position is kept or starts within the embargo after a kept one. */
  lemma {:induction false} GreedyCovers(starts: seq<int>, embargo: int, n: nat, i: nat) returns (k: nat)
    requires i < n <= |starts| && Sorted(starts)
    ensures k in Greedy(starts, embargo, n) && k <= i
    ensures k == i || 0 <= starts[i] - starts[k] < embargo
    decreases n
  {
    var idx := Greedy(starts, embargo, n - 1);
    if i < n - 1 {
      k := GreedyCovers(starts, embargo, n - 1, i);
    } else if idx == [] || starts[n - 1] - starts[idx[|idx| - 1]] >= embargo {
      k := i;
    } else {
      k := idx[|idx| - 1];
    }
  }

  lemma {:induction false} GreedyIsSpaced(starts: seq<int>, embargo: int, n: nat)
    requires n <= |starts|
    ensures IsChoice(Greedy(starts, embargo, n), n) && Spaced(starts, Greedy(starts, embargo, n), embargo)
  {
    if n > 0 {
      GreedyIsSpaced(starts, embargo, n - 1);
      SpacedStep(starts, embargo, n, Greedy(starts, embargo, n - 1));
    }
  }

  lemma SpacedStep(starts: seq<int>, embargo: int, n: nat, idx: seq<nat>)
    requires 0 < n <= |starts| && IsChoice(idx, n - 1) && Spaced(starts, idx, embargo)
    ensures IsChoice(idx, n)
    ensures idx == [] || starts[n - 1] - starts[idx[|idx| - 1]] >= embargo ==>
              IsChoice(idx + [n - 1], n) && Spaced(starts, idx + [n - 1], embargo)
  {
  }

  /** `other` is no longer than `idx`, and if as long it does not end earlier. */
  predicate Behind(starts: seq<int>, other: seq<nat>, idx: seq<nat>)
    requires EndsBelow(idx, |starts|) && EndsBelow(other, |starts|)
  {
    && |other| <= |idx|
    && (|other| == |idx| > 0 ==> starts[idx[|idx| - 1]] <= starts[other[|other| - 1]])
  }

  /** Stay-ahead: no spaced choice among the first n is longer than the walk's. */
  lemma {:induction false} GreedyStaysAhead(starts: seq<int>, embargo: int, n: nat, other: seq<nat>)
    requires n <= |starts| && Sorted(starts) && IsChoice(other, n) && Spaced(starts, other, embargo)
    ensures Behind(starts, other, Greedy(starts, embargo, n))
    decreases n
  {
    if other != [] {
      var m := |other| - 1;
      assert other[m] < n;
      if other[m] < n - 1 {
        ChoiceEnds(other, n);
        GreedyStaysAhead(starts, embargo, n - 1, other);
        StillBehind(starts, embargo, n, other);
      } else {
        ChoicePrefix(starts, embargo, n, other);
        GreedyStaysAhead(starts, embargo, n - 1, other[..m]);
        StayAheadStep(starts, embargo, n, other, Greedy(starts, embargo, n - 1));
      }
    }
  }

  lemma StillBehind(starts: seq<int>, embargo: int, n: nat, other: seq<nat>)
    requires 0 < n <= |starts| && EndsBelow(other, n) && Behind(starts, other, Greedy(starts, embargo, n - 1))
    ensures Behind(starts, other, Greedy(starts, embargo, n))
  {
  }

  lemma ChoiceEnds(other: seq<nat>, n: nat)
    requires IsChoice(other, n) && other != [] && other[|other| - 1] < n - 1
    ensures IsChoice(other, n - 1)
  {
    assert forall k :: 0 <= k < |other| - 1 ==> other[k] < other[|other| - 1];
  }

  lemma ChoicePrefix(starts: seq<int>, embargo: int, n: nat, other: seq<nat>)
    requires n <= |starts| && IsChoice(other, n) && Spaced(starts, other, embargo)
    requires other != [] && other[|other| - 1] == n - 1
    ensures IsChoice(other[..|other| - 1], n - 1) && Spaced(starts, other[..|other| - 1], embargo)
    ensures |other| > 1 ==> starts[n - 1] - starts[other[|other| - 2]] >= embargo
  {
    assert forall k :: 0 <= k < |other| - 1 ==> other[k] < other[|other| - 1];
  }

  lemma StayAheadStep(starts: seq<int>, embargo: int, n: nat, other: seq<nat>, before: seq<nat>)
    requires 0 < n <= |starts| && Sorted(starts) && before == Greedy(starts, embargo, n - 1)
    requires other != [] && other[|other| - 1] == n - 1 && EndsBelow(other[..|other| - 1], n)
    requires |other| > 1 ==> starts[n - 1] - starts[other[|other| - 2]] >= embargo
    requires Behind(starts, other[..|other| - 1], before)
    ensures Behind(starts, other, Greedy(starts, embargo, n))
  {
    var m := |other| - 1;
    if before != [] && m == |before| {
      assert starts[before[m - 1]] <= starts[other[m - 1]];
    }
    if before != [] {
      assert before[|before| - 1] < n - 1;
      assert starts[before[|before| - 1]] <= starts[n - 1];
    }
  }

  function Starts(cohorts: seq<Cohort>): (s: seq<int>)
    ensures |s| == |cohorts|
  {
    seq(|cohorts|, i requires 0 <= i < |cohorts| => cohorts[i].start)
  }

  function Keyed(cohorts: seq<Cohort>): seq<Entry<Cohort>> {
    seq(|cohorts|, i requires 0 <= i < |cohorts| => Entry(cohorts[i].start as real, cohorts[i]))
  }

  /** `sorted(cohorts, key=start)`. */
  function Ordered(cohorts: seq<Cohort>): (r: seq<Cohort>)
    ensures |r| == |cohorts| && Sorted(Starts(r))
  {
    var sorted := Sort(Keyed(cohorts));
    SortedItems(cohorts);
    Items(sorted)
  }

  lemma SortedItems(cohorts: seq<Cohort>)
    ensures |Items(Sort(Keyed(cohorts)))| == |cohorts|
    ensures Sorted(Starts(Items(Sort(Keyed(cohorts)))))
  {
    var sorted := Sort(Keyed(cohorts));
    SortSorts(Keyed(cohorts));
    forall i | 0 <= i < |sorted| ensures sorted[i].key == sorted[i].item.start as real {
      assert sorted[i] in multiset(sorted);
      assert sorted[i] in Keyed(cohorts);
    }
  }

  /** Ordering neither adds nor loses a cohort. */
  lemma OrderedIsPermutation(cohorts: seq<Cohort>)
    ensures multiset(Ordered(cohorts)) == multiset(cohorts)
  {
    SortSorts(Keyed(cohorts));
    SameItems(Sort(Keyed(cohorts)), Keyed(cohorts));
    assert Items(Keyed(cohorts)) == cohorts;
  }

  lemma {:induction false} SameItems(a: seq<Entry<Cohort>>, b: seq<Entry<Cohort>>)
    requires multiset(a) == multiset(b)
    ensures multiset(Items(a)) == multiset(Items(b))
    decreases |a|
  {
    if a == [] {
      assert |multiset(b)| == 0;
    } else {
      var i := Permutations.RemoveShared(a, b);
      SameItems(a[..|a| - 1], b[..i] + b[i + 1..]);
      ItemsWithout(b, i);
      ItemsWithout(a, |a| - 1);
      assert a[..|a| - 1] + a[|a|..] == a[..|a| - 1];
    }
  }

  lemma ItemsWithout(b: seq<Entry<Cohort>>, i: nat)
    requires i < |b|
    ensures multiset(Items(b)) == multiset(Items(b[..i] + b[i + 1..])) + multiset{b[i].item}
  {
    Permutations.MultisetWithout(Items(b), i);
    assert Items(b)[..i] + Items(b)[i + 1..] == Items(b[..i] + b[i + 1..]);
  }

  /** The cohorts that start on one day, in order. */
  function StartingOn(cohorts: seq<Cohort>, day: nat): seq<Cohort> {
    if cohorts == [] then []
    else
      var last := cohorts[|cohorts| - 1];
      StartingOn(cohorts[..|cohorts| - 1], day) + if last.start == day then [last] else []
  }

  lemma {:induction false} StartingOnByKey(s: seq<Entry<Cohort>>, day: nat)
    requires forall i :: 0 <= i < |s| ==> s[i].key == s[i].item.start as real
    ensures StartingOn(Items(s), day) == Items(WithKey(s, day as real))
  {
    if s != [] {
      var n := |s| - 1;
      StartingOnByKey(s[..n], day);
      assert Items(s)[..n] == Items(s[..n]);
    }
  }

  /** Cohorts that start on one day stay in input order. */
  lemma OrderedIsStable(cohorts: seq<Cohort>, day: nat)
    ensures StartingOn(Ordered(cohorts), day) == StartingOn(cohorts, day)
  {
    var sorted := Sort(Keyed(cohorts));
    SortSorts(Keyed(cohorts));
    SortIsStable(Keyed(cohorts), day as real);
    forall i | 0 <= i < |sorted| ensures sorted[i].key == sorted[i].item.start as real {
      assert sorted[i] in multiset(sorted);
      assert sorted[i] in Keyed(cohorts);
    }
    StartingOnByKey(sorted, day);
    StartingOnByKey(Keyed(cohorts), day);
    assert Items(Keyed(cohorts)) == cohorts;
  }

  /** The cohorts at the chosen positions. */
  function Pick(cohorts: seq<Cohort>, idx: seq<nat>): seq<Cohort>
    requires Permutations.InRange(idx, |cohorts|)
  {
    seq(|idx|, k requires 0 <= k < |idx| => cohorts[idx[k]])
  }

  /** The positions, in start order, of the cohorts the walk keeps. */
  function KeptPositions(cohorts: seq<Cohort>, embargo: int): (idx: seq<nat>)
    ensures Permutations.InRange(idx, |cohorts|)
  {
    GreedyIsSpaced(Starts(Ordered(cohorts)), embargo, |cohorts|);
    Greedy(Starts(Ordered(cohorts)), embargo, |cohorts|)
  }

  /** `_embargoed_cohorts`. */
  method EmbargoedCohorts(cohorts: seq<Cohort>, embargo: int) returns (kept: seq<Cohort>)
    ensures kept == Pick(Ordered(cohorts), KeptPositions(cohorts, embargo))
  {
    var ordered := Ordered(cohorts);
    kept := [];
    var lastStart: Option<int> := None;
    for i := 0 to |ordered|
      invariant kept == Thinned(ordered, embargo, i) && LastStart(kept, lastStart)
    {
      var c := ordered[i];
      if lastStart.None? || c.start - lastStart.value >= embargo {
        kept := kept + [c];
        lastStart := Some(c.start);
      }
    }
    ThinnedIsPicked(ordered, embargo, |ordered|);
  }

  predicate LastStart(kept: seq<Cohort>, lastStart: Option<int>) {
    lastStart == if kept == [] then None else Some(kept[|kept| - 1].start as int)
  }

  /** The walk on cohorts rather than positions. */
  function Thinned(ordered: seq<Cohort>, embargo: int, n: nat): seq<Cohort>
    requires n <= |ordered|
  {
    if n == 0 then []
    else
      var kept, c := Thinned(ordered, embargo, n - 1), ordered[n - 1];
      if kept == [] || c.start - kept[|kept| - 1].start >= embargo then kept + [c] else kept
  }

  lemma {:induction false} ThinnedIsPicked(ordered: seq<Cohort>, embargo: int, n: nat)
    requires n <= |ordered|
    ensures var idx := Greedy(Starts(ordered), embargo, n);
            Permutations.InRange(idx, n) && Thinned(ordered, embargo, n) == Pick(ordered, idx)
    decreases n
  {
    if n > 0 {
      ThinnedIsPicked(ordered, embargo, n - 1);
      PickStep(ordered, embargo, n, Greedy(Starts(ordered), embargo, n - 1));
    }
  }

  lemma PickStep(ordered: seq<Cohort>, embargo: int, n: nat, before: seq<nat>)
    requires 0 < n <= |ordered| && Permutations.InRange(before, n - 1)
    ensures var kept, c := Pick(ordered, before), ordered[n - 1];
            && Pick(ordered, before + [n - 1]) == kept + [c]
            && (before != [] ==> Starts(ordered)[n - 1] - Starts(ordered)[before[|before| - 1]]
                                 == c.start - kept[|kept| - 1].start)
  {
  }

  /** What the thinning promises: spacing, coverage, and that no spaced subset of the cohorts is larger. */
  lemma ThinningIsOptimal(cohorts: seq<Cohort>, embargo: int, other: seq<nat>)
    requires IsChoice(other, |cohorts|) && Spaced(Starts(Ordered(cohorts)), other, embargo)
    ensures |Pick(Ordered(cohorts), other)| <= |Pick(Ordered(cohorts), KeptPositions(cohorts, embargo))|
  {
    GreedyStaysAhead(Starts(Ordered(cohorts)), embargo, |cohorts|, other);
  }

  lemma ThinningSpaces(cohorts: seq<Cohort>, embargo: int, kept: seq<Cohort>)
    requires kept == Pick(Ordered(cohorts), KeptPositions(cohorts, embargo))
    ensures forall k :: 0 < k < |kept| ==> kept[k].start - kept[k - 1].start >= embargo
    ensures forall c :: c in kept ==> c in cohorts
  {
    var ordered := Ordered(cohorts);
    OrderedIsPermutation(cohorts);
    PickedFrom(cohorts, ordered, KeptPositions(cohorts, embargo));
    GreedyIsSpaced(Starts(ordered), embargo, |cohorts|);
    PickedAreSpaced(ordered, KeptPositions(cohorts, embargo), embargo);
  }

  lemma PickedAreSpaced(ordered: seq<Cohort>, idx: seq<nat>, embargo: int)
    requires IsChoice(idx, |ordered|) && Spaced(Starts(ordered), idx, embargo)
    ensures forall k :: 0 < k < |idx| ==> Pick(ordered, idx)[k].start - Pick(ordered, idx)[k - 1].start >= embargo
  {
    forall k | 0 < k < |idx| ensures Pick(ordered, idx)[k].start - Pick(ordered, idx)[k - 1].start >= embargo {
      assert Starts(ordered)[idx[k]] - Starts(ordered)[idx[k - 1]] >= embargo;
    }
  }

  lemma PickedFrom(cohorts: seq<Cohort>, ordered: seq<Cohort>, idx: seq<nat>)
    requires multiset(ordered) == multiset(cohorts) && Permutations.InRange(idx, |ordered|)
    ensures forall c :: c in Pick(ordered, idx) ==> c in cohorts
  {
    forall c | c in Pick(ordered, idx) ensures c in cohorts {
      assert c in ordered;
      assert c in multiset(ordered);
    }
  }

  /** A dropped cohort starts within the embargo after some kept one. */
  lemma ThinningCovers(cohorts: seq<Cohort>, embargo: int, kept: seq<Cohort>, c: Cohort) returns (k: Cohort)
    requires kept == Pick(Ordered(cohorts), KeptPositions(cohorts, embargo))
    requires c in cohorts && c !in kept
    ensures k in kept && 0 <= c.start - k.start < embargo
  {
    var ordered := Ordered(cohorts);
    var idx := KeptPositions(cohorts, embargo);
    OrderedIsPermutation(cohorts);
    assert c in multiset(cohorts);
    assert c in ordered;
    var i :| 0 <= i < |ordered| && ordered[i] == c;
    var p := GreedyCovers(Starts(ordered), embargo, |cohorts|, i);
    var j :| 0 <= j < |idx| && idx[j] == p;
    assert kept[j] == ordered[p];
    k := kept[j];
  }

  /** Of the cohorts that start on one day only the first in order can be kept, for an embargo of at least a day. */
  lemma KeptOpensItsDay(starts: seq<int>, embargo: int, p: nat, q: nat)
    requires Sorted(starts) && embargo > 0 && q < p < |starts| && p in Greedy(starts, embargo, |starts|)
    ensures starts[q] < starts[p]
  {
    var idx := Greedy(starts, embargo, |starts|);
    GreedyIsSpaced(starts, embargo, |starts|);
    var k := GreedyCovers(starts, embargo, |starts|, q);
    var a :| 0 <= a < |idx| && idx[a] == k;
    var b :| 0 <= b < |idx| && idx[b] == p;
    assert a < b;
    assert a < b - 1 ==> idx[a] < idx[b - 1];
    assert starts[idx[b]] - starts[idx[b - 1]] >= embargo;
  }

  /** The start of the last kept position, the anchor of the current window. */
  function Anchor(positions: seq<int>, idx: seq<nat>): Option<int>
    requires EndsBelow(idx, |positions|)
  {
    if idx == [] then None else Some(positions[idx[|idx| - 1]])
  }

  /** `_embargo_window_id` on the start positions in date order: dates count the windows opened so far. */
  method EmbargoWindowIds(positions: seq<int>, embargo: int) returns (win: seq<int>, windows: int)
    ensures |win| == |positions|
    ensures windows == |Greedy(positions, embargo, |positions|)|
    ensures forall i: nat :: i < |win| ==> win[i] + 1 == |Greedy(positions, embargo, i + 1)|
  {
    win := [];
    var anchor: Option<int> := None;
    var wid := -1;
    for i := 0 to |positions|
      invariant |win| == i && wid + 1 == |Greedy(positions, embargo, i)|
      invariant anchor == Anchor(positions, Greedy(positions, embargo, i))
      invariant forall j: nat :: j < i ==> win[j] + 1 == |Greedy(positions, embargo, j + 1)|
    {
      OpenOrStay(positions, embargo, i);
      if anchor.None? || positions[i] - anchor.value >= embargo {
        wid := wid + 1;
        anchor := Some(positions[i]);
      }
      win := win + [wid];
    }
    windows := wid + 1;
  }

  lemma OpenOrStay(positions: seq<int>, embargo: int, i: nat)
    requires i < |positions|
    ensures var anchor := Anchor(positions, Greedy(positions, embargo, i));
            var opens := anchor.None? || positions[i] - anchor.value >= embargo;
            && |Greedy(positions, embargo, i + 1)| == |Greedy(positions, embargo, i)| + (if opens then 1 else 0)
            && Anchor(positions, Greedy(positions, embargo, i + 1)) == if opens then Some(positions[i]) else anchor
  {
  }

  /** Same start positions, same number of windows as kept cohorts. */
  lemma WindowCountIsKeptCount(cohorts: seq<Cohort>, embargo: int)
    requires Sorted(Starts(cohorts))
    ensures |Pick(Ordered(cohorts), KeptPositions(cohorts, embargo))|
         == |Greedy(Starts(cohorts), embargo, |cohorts|)|
  {
    forall i, j | 0 <= i < j < |cohorts| ensures Keyed(cohorts)[i].key <= Keyed(cohorts)[j].key {
      assert Starts(cohorts)[i] <= Starts(cohorts)[j];
    }
    SortOfAscending(Keyed(cohorts));
    assert Ordered(cohorts) == cohorts;
  }
}

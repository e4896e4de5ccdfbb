/** Group assignment and the train-side purge of combinatorial cross-validation (gauntlet/forkb/selection_stats.py). */
module Purge {
  import opened Arith

  /** A trade is open on every bar from its entry to its exit. */
  datatype Trade = Trade(entry: int, exit: int)

  predicate Overlap(a: Trade, b: Trade) {
    a.entry <= b.exit && b.entry <= a.exit
  }

  /** `np.linspace(0, n_bars, n_groups + 1)[g]`. */
  function Edge(nBars: nat, groups: nat, g: nat): real
    requires groups > 0
  {
    nBars as real * g as real / groups as real
  }

  lemma EdgeMonotone(nBars: nat, groups: nat, g: nat, h: nat)
    requires groups > 0 && g <= h
    ensures 0.0 <= Edge(nBars, groups, g) <= Edge(nBars, groups, h)
  {
    var n, d := nBars as real, groups as real;
    Quotients(0.0, n * g as real, d);
    assert n * g as real <= n * h as real;
    Quotients(n * g as real, n * h as real, d);
  }

  lemma Quotients(a: real, b: real, d: real)
    requires d > 0.0 && a <= b
    ensures a / d <= b / d
    ensures a >= 0.0 ==> a / d >= 0.0
  {
  }

  /** `np.searchsorted(edges, entry, side="right")` over the first m edges: how many are at or before the entry. */
  function EdgesAtOrBefore(nBars: nat, groups: nat, entry: int, m: nat): (r: nat)
    requires groups > 0
    ensures r <= m
  {
    if m == 0 then 0
    else if Edge(nBars, groups, m - 1) <= entry as real then m
    else EdgesAtOrBefore(nBars, groups, entry, m - 1)
  }

  /** `assign_groups`, clipped to the grid at both ends. */
  function GroupOf(nBars: nat, groups: nat, entry: int): (g: nat)
    requires groups > 0
    ensures g < groups
  {
    MaxInt(0, MinInt(EdgesAtOrBefore(nBars, groups, entry, groups + 1) - 1, groups - 1))
  }

  lemma {:induction false} EdgesSplit(nBars: nat, groups: nat, entry: int, m: nat)
    requires groups > 0
    ensures var r := EdgesAtOrBefore(nBars, groups, entry, m);
            && (r > 0 ==> Edge(nBars, groups, r - 1) <= entry as real)
            && (r < m ==> entry as real < Edge(nBars, groups, r))
  {
    if m > 0 && Edge(nBars, groups, m - 1) > entry as real {
      EdgesSplit(nBars, groups, entry, m - 1);
    }
  }

  /** An entry is inside its group's span, except that entries off the grid are clipped to the end groups. */
  lemma GroupSpan(nBars: nat, groups: nat, entry: int)
    requires groups > 0
    ensures var g := GroupOf(nBars, groups, entry);
            && (Edge(nBars, groups, g) <= entry as real || (g == 0 && entry < 0))
            && (entry as real < Edge(nBars, groups, g + 1) || (g == groups - 1 && entry >= nBars))
  {
    EdgesSplit(nBars, groups, entry, groups + 1);
    EdgeEnds(nBars, groups);
    EdgeMonotone(nBars, groups, 0, 1);
    EdgeMonotone(nBars, groups, groups - 1, groups);
  }

  lemma EdgeEnds(nBars: nat, groups: nat)
    requires groups > 0
    ensures Edge(nBars, groups, 0) == 0.0 && Edge(nBars, groups, groups) == nBars as real
  {
    CancelFactor(nBars as real, groups as real);
  }

  lemma CancelFactor(n: real, d: real)
    requires d > 0.0
    ensures n * 0.0 / d == 0.0 && n * d / d == n
  {
  }

  /** The interval test of the purge against one group's span widened by the embargo. */
  predicate Hits(t: Trade, nBars: nat, groups: nat, g: nat, embargo: nat)
    requires groups > 0
  {
    t.entry as real <= Edge(nBars, groups, g + 1) + embargo as real
    && t.exit as real >= Edge(nBars, groups, g) - embargo as real
  }

  /** The groups cut the grid into equal widths. */
  lemma EdgesAreEven(nBars: nat, groups: nat, g: nat)
    requires groups > 0 && g < groups
    ensures (Edge(nBars, groups, g + 1) - Edge(nBars, groups, g)) * groups as real == nBars as real
  {
    EvenStep(nBars as real, groups as real, g as real, Edge(nBars, groups, g), Edge(nBars, groups, g + 1));
  }

  lemma EvenStep(n: real, d: real, g: real, lo: real, hi: real)
    requires d > 0.0 && lo == n * g / d && hi == n * (g + 1.0) / d
    ensures (hi - lo) * d == n
  {
    assert lo * d == n * g && hi * d == n * (g + 1.0);
    assert n * (g + 1.0) == n * g + n;
    assert (hi - lo) * d == hi * d - lo * d;
  }

  /** Trades overlap when some bar lies in both. */
  lemma OverlapIsSharedBar(a: Trade, b: Trade)
    requires a.entry <= a.exit && b.entry <= b.exit
    ensures Overlap(a, b) <==> exists bar: int :: SharedBar(a, b, bar)
  {
    if Overlap(a, b) {
      assert SharedBar(a, b, MaxInt(a.entry, b.entry));
    }
  }

  predicate SharedBar(a: Trade, b: Trade, bar: int) {
    a.entry <= bar <= a.exit && b.entry <= bar <= b.exit
  }

  /** The trade is over before every test group's span less the embargo, or entered after it plus the embargo. */
  ghost predicate ClearOf(t: Trade, nBars: nat, groups: nat, testGroups: seq<nat>, embargo: nat)
    requires groups > 0
  {
    forall g :: g in testGroups ==> || t.exit as real < Edge(nBars, groups, g) - embargo as real
                                    || t.entry as real > Edge(nBars, groups, g + 1) + embargo as real
  }

  lemma KeptIsClear(t: Trade, nBars: nat, groups: nat, testGroups: seq<nat>, embargo: nat)
    requires groups > 0
    ensures Kept(t, nBars, groups, testGroups, embargo) <==> ClearOf(t, nBars, groups, testGroups, embargo)
  {
    forall g | g in testGroups
      ensures Hits(t, nBars, groups, g, embargo)
         <==> !(t.exit as real < Edge(nBars, groups, g) - embargo as real
                || t.entry as real > Edge(nBars, groups, g + 1) + embargo as real) {
    }
  }

  /** `_purge_keep`: knock out, one test group at a time, every trade its widened span touches. */
  method PurgeKeep(trades: seq<Trade>, nBars: nat, groups: nat, testGroups: seq<nat>, embargo: nat)
    returns (keep: seq<bool>)
    requires groups > 0 && forall g :: g in testGroups ==> g < groups
    ensures |keep| == |trades|
    ensures forall i :: 0 <= i < |trades| ==> (keep[i] <==> Kept(trades[i], nBars, groups, testGroups, embargo))
    ensures forall i :: 0 <= i < |trades| ==> (keep[i] <==> ClearOf(trades[i], nBars, groups, testGroups, embargo))
  {
    var mask := new bool[|trades|](_ => true);
    for t := 0 to |testGroups|
      invariant forall i :: 0 <= i < |trades| ==>
                  (mask[i] <==> Kept(trades[i], nBars, groups, testGroups[..t], embargo))
    {
      var before, upTo := testGroups[..t], testGroups[..t + 1];
      assert upTo == before + [testGroups[t]];
      for i := 0 to |trades|
        invariant forall k :: 0 <= k < |trades| ==>
                    (mask[k] <==> Kept(trades[k], nBars, groups, if k < i then upTo else before, embargo))
      {
        mask[i] := mask[i] && !Hits(trades[i], nBars, groups, testGroups[t], embargo);
      }
    }
    assert testGroups[..|testGroups|] == testGroups;
    keep := mask[..];
    forall i | 0 <= i < |trades| ensures keep[i] <==> ClearOf(trades[i], nBars, groups, testGroups, embargo) {
      KeptIsClear(trades[i], nBars, groups, testGroups, embargo);
    }
  }

  predicate Kept(t: Trade, nBars: nat, groups: nat, testGroups: seq<nat>, embargo: nat)
    requires groups > 0
  {
    forall g :: g in testGroups ==> !Hits(t, nBars, groups, g, embargo)
  }

  /** A trade used for training: entered in a training group and surviving the purge. */
  predicate UsedForTraining(t: Trade, nBars: nat, groups: nat, testGroups: seq<nat>, embargo: nat)
    requires groups > 0
  {
    GroupOf(nBars, groups, t.entry) !in testGroups && Kept(t, nBars, groups, testGroups, embargo)
  }

  /** The test trade is over before its own group's embargoed span is. */
  predicate EndsWithinEmbargo(t: Trade, nBars: nat, groups: nat, embargo: nat)
    requires groups > 0
  {
    t.exit as real <= Edge(nBars, groups, GroupOf(nBars, groups, t.entry) + 1) + embargo as real
    || t.entry >= nBars
  }

  /** A trade lasting no longer than the embargo ends within it, wherever it enters. */
  lemma ShortTradesEndInTime(t: Trade, nBars: nat, groups: nat, embargo: nat)
    requires groups > 0 && t.exit - t.entry <= embargo
    ensures EndsWithinEmbargo(t, nBars, groups, embargo)
  {
    GroupSpan(nBars, groups, t.entry);
  }

  /** No trade kept for training overlaps a test trade that ends within the embargo, on or off the grid. */
  lemma NoLeakage(train: Trade, test: Trade, nBars: nat, groups: nat, testGroups: seq<nat>, embargo: nat)
    requires groups > 0 && train.entry <= train.exit
    requires UsedForTraining(train, nBars, groups, testGroups, embargo)
    requires GroupOf(nBars, groups, test.entry) in testGroups
    requires EndsWithinEmbargo(test, nBars, groups, embargo)
    ensures !Overlap(train, test)
  {
    if Overlap(train, test) {
      OverlapIsHit(train, test, nBars, groups, embargo);
    }
  }

  /** A trade of another group that overlaps such a test trade is inside the test group's widened span. */
  lemma OverlapIsHit(train: Trade, test: Trade, nBars: nat, groups: nat, embargo: nat)
    requires groups > 0 && train.entry <= train.exit && Overlap(train, test)
    requires GroupOf(nBars, groups, train.entry) != GroupOf(nBars, groups, test.entry)
    requires EndsWithinEmbargo(test, nBars, groups, embargo)
    ensures Hits(train, nBars, groups, GroupOf(nBars, groups, test.entry), embargo)
  {
    var g, h := GroupOf(nBars, groups, test.entry), GroupOf(nBars, groups, train.entry);
    GroupSpan(nBars, groups, test.entry);
    GroupSpan(nBars, groups, train.entry);
    EdgeEnds(nBars, groups);
    EdgeMonotone(nBars, groups, 0, h);
    EdgeMonotone(nBars, groups, g, g + 1);
    EdgeMonotone(nBars, groups, g, groups);
    EdgeMonotone(nBars, groups, MinInt(h + 1, g), g);
  }

  /** A bar on which a one-bar trade would be used for training. */
  predicate FreeBar(b: int, nBars: nat, groups: nat, testGroups: seq<nat>, embargo: nat)
    requires groups > 0
  {
    UsedForTraining(Trade(b, b), nBars, groups, testGroups, embargo)
  }

  /** Every bar of a training trade is free: purging is decided bar by bar. */
  lemma TrainingBarsAreFree(train: Trade, b: int, nBars: nat, groups: nat, testGroups: seq<nat>, embargo: nat)
    requires groups > 0 && train.entry <= b <= train.exit
    requires UsedForTraining(train, nBars, groups, testGroups, embargo)
    ensures FreeBar(b, nBars, groups, testGroups, embargo)
  {
    forall g | g in testGroups && Hits(Trade(b, b), nBars, groups, g, embargo) ensures false {
      assert Hits(train, nBars, groups, g, embargo);
    }
    var g := GroupOf(nBars, groups, b);
    if g in testGroups {
      if g != GroupOf(nBars, groups, train.entry) {
        ShortTradesEndInTime(Trade(b, b), nBars, groups, embargo);
        OverlapIsHit(train, Trade(b, b), nBars, groups, embargo);
      }
      assert false;
    }
  }

  /** Some trade used for training is open at the same time as `test`. */
  ghost predicate Leaks(test: Trade, nBars: nat, groups: nat, testGroups: seq<nat>, embargo: nat)
    requires groups > 0
  {
    exists train: Trade :: train.entry <= train.exit && UsedForTraining(train, nBars, groups, testGroups, embargo)
                           && Overlap(train, test)
  }

  /** A test trade can leak into training exactly when one of its own bars is free. */
  lemma LeaksIff(test: Trade, nBars: nat, groups: nat, testGroups: seq<nat>, embargo: nat)
    requires groups > 0 && test.entry <= test.exit
    ensures Leaks(test, nBars, groups, testGroups, embargo)
       <==> exists b :: test.entry <= b <= test.exit && FreeBar(b, nBars, groups, testGroups, embargo)
  {
    if Leaks(test, nBars, groups, testGroups, embargo) {
      var train: Trade :| train.entry <= train.exit && UsedForTraining(train, nBars, groups, testGroups, embargo)
                          && Overlap(train, test);
      TrainingBarsAreFree(train, MaxInt(train.entry, test.entry), nBars, groups, testGroups, embargo);
    }
    if b :| test.entry <= b <= test.exit && FreeBar(b, nBars, groups, testGroups, embargo) {
      assert Overlap(Trade(b, b), test);
    }
  }

  /** Such leaks exist: one test trade of length 3 under an embargo of 1. */
  lemma LeakExists()
    ensures UsedForTraining(Trade(7, 7), 10, 2, [0], 1)
    ensures GroupOf(10, 2, 4) in [0] && Overlap(Trade(7, 7), Trade(4, 7))
  {
    assert Edge(10, 2, 0) == 0.0 && Edge(10, 2, 1) == 5.0 && Edge(10, 2, 2) == 10.0;
  }
}

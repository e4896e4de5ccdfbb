/** Purged, embargoed combinatorial cross-validation on rebalance indices (gauntlet/ml_xsect/mlx_cpcv.py). */
module CombinatorialCv {
  import opened Arith
  import Permutations

  // ----- combinations -----

  /** `math.comb`, by Pascal's rule. */
  function Choose(n: nat, k: nat): nat {
    if k == 0 then 1 else if n == 0 then 0 else Choose(n - 1, k - 1) + Choose(n - 1, k)
  }

  function Prefixed(x: nat, cs: seq<seq<nat>>): (r: seq<seq<nat>>)
    ensures |r| == |cs|
  {
    seq(|cs|, i requires 0 <= i < |cs| => [x] + cs[i])
  }

  /** `itertools.combinations(range(lo, hi), k)`, in its order. */
  function Combos(lo: nat, hi: nat, k: nat): seq<seq<nat>>
    requires lo <= hi
    decreases hi - lo
  {
    if k == 0 then [[]]
    else if lo == hi then []
    else Prefixed(lo, Combos(lo + 1, hi, k - 1)) + Combos(lo + 1, hi, k)
  }

  /** An increasing choice of k of the numbers lo..hi. */
  ghost predicate IsCombo(c: seq<nat>, lo: nat, hi: nat, k: nat) {
    && |c| == k
    && (forall i :: 0 <= i < k ==> lo <= c[i] < hi)
    && (forall i, j :: 0 <= i < j < k ==> c[i] < c[j])
  }

  lemma {:induction false} CombosCount(lo: nat, hi: nat, k: nat)
    requires lo <= hi
    ensures |Combos(lo, hi, k)| == Choose(hi - lo, k)
    decreases hi - lo
  {
    if k > 0 && lo < hi {
      CombosCount(lo + 1, hi, k - 1);
      CombosCount(lo + 1, hi, k);
    }
  }

  lemma {:induction false} CombosSound(lo: nat, hi: nat, k: nat, i: nat)
    requires lo <= hi && i < |Combos(lo, hi, k)|
    ensures IsCombo(Combos(lo, hi, k)[i], lo, hi, k)
    decreases hi - lo
  {
    if k > 0 && lo < hi {
      var with, without := Combos(lo + 1, hi, k - 1), Combos(lo + 1, hi, k);
      if i < |with| {
        CombosSound(lo + 1, hi, k - 1, i);
        Lengthen(lo, hi, k, with[i]);
      } else {
        CombosSound(lo + 1, hi, k, i - |with|);
        assert Combos(lo, hi, k)[i] == without[i - |with|];
      }
    }
  }

  lemma Lengthen(lo: nat, hi: nat, k: nat, c: seq<nat>)
    requires lo < hi && k > 0 && IsCombo(c, lo + 1, hi, k - 1)
    ensures IsCombo([lo] + c, lo, hi, k)
  {
  }

  ghost predicate Lists(cs: seq<seq<nat>>, c: seq<nat>) {
    exists i :: 0 <= i < |cs| && cs[i] == c
  }

  /** Every choice is listed. */
  lemma {:induction false} CombosComplete(lo: nat, hi: nat, k: nat, c: seq<nat>)
    requires lo <= hi && IsCombo(c, lo, hi, k)
    ensures Lists(Combos(lo, hi, k), c)
    decreases hi - lo
  {
    if k == 0 {
      EmptyListed(lo, hi, c);
    } else {
      ComboHead(lo, hi, k, c);
      if c[0] == lo {
        CombosComplete(lo + 1, hi, k - 1, c[1..]);
      } else {
        CombosComplete(lo + 1, hi, k, c);
      }
      JoinListed(lo, hi, k, c);
    }
  }

  lemma ComboHead(lo: nat, hi: nat, k: nat, c: seq<nat>)
    requires k > 0 && IsCombo(c, lo, hi, k)
    ensures lo < hi
    ensures if c[0] == lo then IsCombo(c[1..], lo + 1, hi, k - 1) else IsCombo(c, lo + 1, hi, k)
  {
    assert lo <= c[0] < hi;
    assert forall j :: 0 < j < k ==> c[0] < c[j];
  }

  lemma JoinListed(lo: nat, hi: nat, k: nat, c: seq<nat>)
    requires lo < hi && k > 0 && |c| > 0
    requires if c[0] == lo then Lists(Combos(lo + 1, hi, k - 1), c[1..]) else Lists(Combos(lo + 1, hi, k), c)
    ensures Lists(Combos(lo, hi, k), c)
  {
    var with, without := Combos(lo + 1, hi, k - 1), Combos(lo + 1, hi, k);
    if c[0] == lo {
      var i :| 0 <= i < |with| && with[i] == c[1..];
      assert c == [lo] + c[1..];
      assert Combos(lo, hi, k)[i] == c;
    } else {
      var i :| 0 <= i < |without| && without[i] == c;
      assert Combos(lo, hi, k)[|with| + i] == c;
    }
  }

  lemma EmptyListed(lo: nat, hi: nat, c: seq<nat>)
    requires lo <= hi && c == []
    ensures Lists(Combos(lo, hi, 0), c)
  {
    assert Combos(lo, hi, 0)[0] == c;
  }

  /** `c` comes before `d`: at the first place they differ, `c` is smaller. */
  ghost predicate Before(c: seq<nat>, d: seq<nat>) {
    exists m: nat :: m < |c| && m < |d| && c[m] < d[m] && forall i :: 0 <= i < m ==> c[i] == d[i]
  }

  ghost predicate Lexicographic(cs: seq<seq<nat>>) {
    forall i, j :: 0 <= i < j < |cs| ==> Before(cs[i], cs[j])
  }

  /** The choices are listed in lexicographic order... */
  lemma {:induction false} CombosLexicographic(lo: nat, hi: nat, k: nat)
    requires lo <= hi
    ensures Lexicographic(Combos(lo, hi, k))
    decreases hi - lo
  {
    if k > 0 && lo < hi {
      CombosLexicographic(lo + 1, hi, k - 1);
      CombosLexicographic(lo + 1, hi, k);
      CombosStartAbove(lo + 1, hi, k, lo);
      HalvesInOrder(lo, Combos(lo + 1, hi, k - 1), Combos(lo + 1, hi, k));
    }
  }

  ghost predicate StartAbove(cs: seq<seq<nat>>, x: nat) {
    forall i :: 0 <= i < |cs| ==> cs[i] != [] && x < cs[i][0]
  }

  lemma CombosStartAbove(lo: nat, hi: nat, k: nat, x: nat)
    requires x < lo <= hi && k > 0
    ensures StartAbove(Combos(lo, hi, k), x)
  {
    forall i | 0 <= i < |Combos(lo, hi, k)| ensures Combos(lo, hi, k)[i] != [] && x < Combos(lo, hi, k)[i][0] {
      CombosSound(lo, hi, k, i);
    }
  }

  lemma HalvesInOrder(x: nat, with: seq<seq<nat>>, without: seq<seq<nat>>)
    requires Lexicographic(with) && Lexicographic(without) && StartAbove(without, x)
    ensures Lexicographic(Prefixed(x, with) + without)
  {
    var all := Prefixed(x, with) + without;
    forall i, j | 0 <= i < j < |all| ensures Before(all[i], all[j]) {
      if j < |with| {
        BeforeBehind(x, with[i], with[j]);
      } else if i < |with| {
        assert all[j] == without[j - |with|];
        HeadBefore(x, with[i], all[j]);
      } else {
        assert all[i] == without[i - |with|] && all[j] == without[j - |with|];
      }
    }
  }

  lemma BeforeBehind(x: nat, c: seq<nat>, d: seq<nat>)
    requires Before(c, d)
    ensures Before([x] + c, [x] + d)
  {
    var m: nat :| m < |c| && m < |d| && c[m] < d[m] && forall i :: 0 <= i < m ==> c[i] == d[i];
    var e, f := [x] + c, [x] + d;
    assert forall i :: 0 < i <= m ==> e[i] == c[i - 1] && f[i] == d[i - 1];
    assert e[m + 1] < f[m + 1];
  }

  lemma HeadBefore(x: nat, c: seq<nat>, d: seq<nat>)
    requires d != [] && x < d[0]
    ensures Before([x] + c, d)
  {
    assert ([x] + c)[0] < d[0];
  }

  /** ...so none is listed twice. */
  lemma CombosDistinct(lo: nat, hi: nat, k: nat)
    requires lo <= hi
    ensures Permutations.Distinct(Combos(lo, hi, k))
  {
    CombosLexicographic(lo, hi, k);
  }

  function CountWith(cs: seq<seq<nat>>, g: nat): nat {
    if cs == [] then 0 else CountWith(cs[..|cs| - 1], g) + if g in cs[|cs| - 1] then 1 else 0
  }

  lemma {:induction false} CountConcat(a: seq<seq<nat>>, b: seq<seq<nat>>, g: nat)
    ensures CountWith(a + b, g) == CountWith(a, g) + CountWith(b, g)
    decreases |b|
  {
    if b == [] {
      assert a + b == a;
    } else {
      CountConcat(a, b[..|b| - 1], g);
      assert (a + b)[..|a + b| - 1] == a + b[..|b| - 1];
    }
  }

  lemma {:induction false} CountPrefixed(x: nat, cs: seq<seq<nat>>, g: nat)
    ensures CountWith(Prefixed(x, cs), g) == if g == x then |cs| else CountWith(cs, g)
    decreases |cs|
  {
    if cs != [] {
      CountPrefixed(x, cs[..|cs| - 1], g);
      assert Prefixed(x, cs)[..|cs| - 1] == Prefixed(x, cs[..|cs| - 1]);
    }
  }

  lemma CountStep(lo: nat, hi: nat, k: nat, g: nat)
    requires lo < hi && k > 0
    ensures CountWith(Combos(lo, hi, k), g)
         == (if g == lo then |Combos(lo + 1, hi, k - 1)| else CountWith(Combos(lo + 1, hi, k - 1), g))
            + CountWith(Combos(lo + 1, hi, k), g)
  {
    CountPrefixed(lo, Combos(lo + 1, hi, k - 1), g);
    CountConcat(Prefixed(lo, Combos(lo + 1, hi, k - 1)), Combos(lo + 1, hi, k), g);
  }

  lemma EmptyChoiceCounts(g: nat)
    ensures CountWith([[]], g) == 0
  {
    var cs: seq<seq<nat>> := [[]];
    assert cs[..0] == [];
  }

  lemma CountBase(lo: nat, hi: nat, k: nat, g: nat)
    requires lo <= hi && (k == 0 || lo == hi)
    ensures CountWith(Combos(lo, hi, k), g) == 0
  {
    if k == 0 {
      EmptyChoiceCounts(g);
    }
  }

  /** How many choices hold g: all that start with it, or those of the two halves that hold it. */
  function Holding(lo: nat, hi: nat, k: nat, g: nat): nat
    requires lo <= hi
    decreases hi - lo
  {
    if k == 0 || lo == hi then 0
    else (if g == lo then Choose(hi - lo - 1, k - 1) else Holding(lo + 1, hi, k - 1, g)) + Holding(lo + 1, hi, k, g)
  }

  lemma {:induction false} CountIsHolding(lo: nat, hi: nat, k: nat, g: nat)
    requires lo <= hi
    ensures CountWith(Combos(lo, hi, k), g) == Holding(lo, hi, k, g)
    decreases hi - lo
  {
    if k == 0 || lo == hi {
      CountBase(lo, hi, k, g);
    } else {
      CountIsHolding(lo + 1, hi, k - 1, g);
      CountIsHolding(lo + 1, hi, k, g);
      CountHoldingStep(lo, hi, k, g);
    }
  }

  lemma CountHoldingStep(lo: nat, hi: nat, k: nat, g: nat)
    requires lo < hi && k > 0
    requires CountWith(Combos(lo + 1, hi, k - 1), g) == Holding(lo + 1, hi, k - 1, g)
    requires CountWith(Combos(lo + 1, hi, k), g) == Holding(lo + 1, hi, k, g)
    ensures CountWith(Combos(lo, hi, k), g) == Holding(lo, hi, k, g)
  {
    CountStep(lo, hi, k, g);
    CombosCount(lo + 1, hi, k - 1);
  }

  lemma {:induction false} HoldingBelow(lo: nat, hi: nat, k: nat, g: nat)
    requires g < lo <= hi
    ensures Holding(lo, hi, k, g) == 0
    decreases hi - lo
  {
    if k > 0 && lo < hi {
      HoldingBelow(lo + 1, hi, k - 1, g);
      HoldingBelow(lo + 1, hi, k, g);
    }
  }

  lemma {:induction false} HoldingIsChoose(lo: nat, hi: nat, k: nat, g: nat)
    requires lo <= g < hi && k > 0
    ensures Holding(lo, hi, k, g) == Choose(hi - lo - 1, k - 1)
    decreases hi - lo
  {
    if g == lo {
      HoldingBelow(lo + 1, hi, k, g);
    } else {
      HoldingIsChoose(lo + 1, hi, k, g);
      if k > 1 {
        HoldingIsChoose(lo + 1, hi, k - 1, g);
      }
    }
  }

  /** Each group is tested in exactly C(N-1, k-1) combinations. */
  lemma CombosPerGroup(lo: nat, hi: nat, k: nat, g: nat)
    requires lo <= g < hi && k > 0
    ensures CountWith(Combos(lo, hi, k), g) == Choose(hi - lo - 1, k - 1)
  {
    CountIsHolding(lo, hi, k, g);
    HoldingIsChoose(lo, hi, k, g);
  }

  // ----- groups -----

  /** The first index of group g: `np.array_split` gives the first n % N groups one extra index. */
  function GroupStart(n: nat, groups: nat, g: nat): nat
    requires groups > 0
  {
    g * (n / groups) + MinInt(g, n % groups)
  }

  predicate InGroup(n: nat, groups: nat, g: nat, i: nat)
    requires groups > 0
  {
    GroupStart(n, groups, g) <= i < GroupStart(n, groups, g + 1)
  }

  lemma GroupStep(n: nat, groups: nat, g: nat)
    requires groups > 0
    ensures GroupStart(n, groups, g + 1) == GroupStart(n, groups, g) + n / groups + if g < n % groups then 1 else 0
  {
    assert (g + 1) * (n / groups) == g * (n / groups) + n / groups;
  }

  lemma GroupEnds(n: nat, groups: nat)
    requires groups > 0
    ensures GroupStart(n, groups, 0) == 0 && GroupStart(n, groups, groups) == n
  {
  }

  lemma {:induction false} GroupStartMonotone(n: nat, groups: nat, g: nat, h: nat)
    requires groups > 0 && g <= h
    ensures GroupStart(n, groups, g) <= GroupStart(n, groups, h)
    decreases h
  {
    if g < h {
      GroupStartMonotone(n, groups, g, h - 1);
      GroupStep(n, groups, h - 1);
    }
  }

  /** Every index lies in a group... */
  lemma {:induction false} SomeGroup(n: nat, groups: nat, i: nat, top: nat) returns (g: nat)
    requires groups > 0 && i < GroupStart(n, groups, top)
    ensures g < top && InGroup(n, groups, g, i)
    decreases top
  {
    GroupEnds(n, groups);
    g := top - 1;
    if i < GroupStart(n, groups, g) {
      g := SomeGroup(n, groups, i, g);
    }
  }

  /** ...and in only one. */
  lemma OneGroup(n: nat, groups: nat, i: nat, g: nat, h: nat)
    requires groups > 0 && InGroup(n, groups, g, i) && InGroup(n, groups, h, i)
    ensures g == h
  {
    if g < h {
      GroupStartMonotone(n, groups, g + 1, h);
    } else if h < g {
      GroupStartMonotone(n, groups, h + 1, g);
    }
  }

  // ----- one split -----

  predicate Increasing(s: seq<nat>) {
    forall i, j :: 0 <= i < j < |s| ==> s[i] < s[j]
  }

  /** The test side holds exactly the indices of the chosen groups, in order. */
  ghost predicate IsTest(n: nat, groups: nat, combo: seq<nat>, test: seq<nat>)
    requires groups > 0
  {
    && Increasing(test)
    && (forall i :: i in test ==> i < n)
    && forall i: nat :: i in test <==> exists g :: g in combo && InGroup(n, groups, g, i)
  }

  predicate Near(i: nat, j: nat, buffer: nat) {
    i - j <= buffer && j - i <= buffer
  }

  /** Where a slice that stops at `hi` stops: a negative bound counts from the end. */
  function SliceStop(n: nat, hi: int): int {
    if hi < 0 then MaxInt(0, n + hi) else hi
  }

  /** Whether `excl[max(0, j-buffer) : min(n, j+buffer+1)]` holds index i. */
  predicate Marks(n: nat, i: nat, j: nat, buffer: int) {
    MaxInt(0, j - buffer) <= i < SliceStop(n, MinInt(n, j + buffer + 1))
  }

  predicate MarkedAny(n: nat, i: nat, test: seq<nat>, buffer: int) {
    exists k :: 0 <= k < |test| && Marks(n, i, test[k], buffer)
  }

  /** A buffer that is not negative marks exactly the indices within it. */
  lemma MarksNear(n: nat, i: nat, j: nat, buffer: nat)
    requires i < n
    ensures Marks(n, i, j, buffer) <==> Near(i, j, buffer)
    ensures Marks(n, i, j, buffer) <==> j - buffer <= i <= j + buffer
  {
  }

  /** A negative buffer marks nothing, unless the slice's end wraps past the start and counts from the far end. */
  lemma NegativeBufferMarks(n: nat, i: nat, j: nat, short: int)
    requires j < n && i < n && short > 0
    ensures Marks(n, i, j, -short) <==> j + 1 < short && j + short <= i < n + j + 1 - short
  {
  }

  /** The training side holds exactly the indices no test index marks, in order. */
  ghost predicate IsTrain(n: nat, test: seq<nat>, buffer: int, train: seq<nat>) {
    Increasing(train) && forall i: nat :: i in train <==> i < n && !MarkedAny(n, i, test, buffer)
  }

  method RangeOf(lo: nat, hi: nat) returns (r: seq<nat>)
    requires lo <= hi
    ensures Increasing(r) && forall i: nat :: i in r <==> lo <= i < hi
  {
    r := seq(hi - lo, i requires 0 <= i < hi - lo => lo + i);
    forall i: nat | lo <= i < hi ensures i in r {
      assert r[i - lo] == i;
    }
  }

  /** The chosen groups side by side; as the choice increases, sorting them would change nothing. */
  method TestIndices(n: nat, groups: nat, combo: seq<nat>) returns (test: seq<nat>)
    requires groups > 0 && IsCombo(combo, 0, groups, |combo|)
    ensures IsTest(n, groups, combo, test)
  {
    test := [];
    ghost var bound: nat := 0;
    for c := 0 to |combo|
      invariant IsTest(n, groups, combo[..c], test) && forall i :: i in test ==> i < bound
      invariant bound == if c == 0 then 0 else GroupStart(n, groups, combo[c - 1] + 1)
    {
      NextGroup(n, groups, combo, c);
      var lo, hi := GroupStart(n, groups, combo[c]), GroupStart(n, groups, combo[c] + 1);
      var part := RangeOf(lo, hi);
      AppendGroup(n, groups, combo[..c], combo[c], test, part);
      test, bound := test + part, hi;
      assert combo[..c + 1] == combo[..c] + [combo[c]];
    }
    assert combo[..|combo|] == combo;
  }

  lemma NextGroup(n: nat, groups: nat, combo: seq<nat>, c: nat)
    requires groups > 0 && IsCombo(combo, 0, groups, |combo|) && c < |combo|
    ensures GroupStart(n, groups, combo[c]) <= GroupStart(n, groups, combo[c] + 1) <= n
    ensures c > 0 ==> GroupStart(n, groups, combo[c - 1] + 1) <= GroupStart(n, groups, combo[c])
  {
    GroupEnds(n, groups);
    GroupStartMonotone(n, groups, combo[c], combo[c] + 1);
    GroupStartMonotone(n, groups, combo[c] + 1, groups);
    if c > 0 {
      assert combo[c - 1] < combo[c];
      GroupStartMonotone(n, groups, combo[c - 1] + 1, combo[c]);
    }
  }

  lemma AppendGroup(n: nat, groups: nat, combo: seq<nat>, g: nat, test: seq<nat>, part: seq<nat>)
    requires groups > 0 && IsTest(n, groups, combo, test) && Increasing(part)
    requires GroupStart(n, groups, g + 1) <= n
    requires forall i: nat :: i in part <==> InGroup(n, groups, g, i)
    requires forall i :: i in test ==> i < GroupStart(n, groups, g)
    ensures IsTest(n, groups, combo + [g], test + part)
  {
    var all := test + part;
    forall i, j | 0 <= i < j < |all| ensures all[i] < all[j] {
      if i < |test| <= j {
        assert test[i] in test && part[j - |test|] in part;
      }
    }
    forall i: nat ensures i in all <==> exists h :: h in combo + [g] && InGroup(n, groups, h, i) {
      if i in test {
        var h :| h in combo && InGroup(n, groups, h, i);
        assert h in combo + [g];
      } else if i in part {
        assert g in combo + [g];
      }
    }
  }

  /** Marks `excl[max(0, j-buffer) : min(n, j+buffer+1)]` for every test index j, then lists what is left. */
  method TrainIndices(n: nat, test: seq<nat>, buffer: int) returns (train: seq<nat>)
    ensures IsTrain(n, test, buffer, train)
  {
    var excl := new bool[n](_ => false);
    for t := 0 to |test|
      invariant forall i: nat :: i < n ==> (excl[i] <==> MarkedAny(n, i, test[..t], buffer))
    {
      var j := test[t];
      var lo, hi := MaxInt(0, j - buffer), SliceStop(n, MinInt(n, j + buffer + 1));
      ghost var was := excl[..];
      var i := lo;
      while i < hi
        invariant lo <= i && forall x: nat :: x < n ==> (excl[x] <==> was[x] || lo <= x < MinInt(i, hi))
      {
        excl[i] := true;
        i := i + 1;
      }
      forall x: nat | x < n ensures excl[x] <==> MarkedAny(n, x, test[..t + 1], buffer) {
        MarkedOneMore(n, x, test, t, buffer);
      }
    }
    assert test[..|test|] == test;
    train := [];
    for i := 0 to n
      invariant Increasing(train) && forall x :: x in train ==> x < i
      invariant forall x: nat :: x in train <==> x < i && !MarkedAny(n, x, test, buffer)
    {
      if !excl[i] {
        assert forall k :: 0 <= k < |train| ==> train[k] in train;
        train := train + [i];
      }
    }
  }

  lemma MarkedOneMore(n: nat, x: nat, test: seq<nat>, t: nat, buffer: int)
    requires t < |test|
    ensures MarkedAny(n, x, test[..t + 1], buffer)
       <==> MarkedAny(n, x, test[..t], buffer) || Marks(n, x, test[t], buffer)
  {
    var more, fewer := test[..t + 1], test[..t];
    assert forall k :: 0 <= k < t ==> more[k] == fewer[k];
    assert more[t] == test[t];
  }

  // ----- all splits -----

  datatype Split = Split(train: seq<nat>, test: seq<nat>)

  ghost predicate IsSplit(n: nat, groups: nat, combo: seq<nat>, buffer: int, s: Split)
    requires groups > 0
  {
    IsTest(n, groups, combo, s.test) && IsTrain(n, s.test, buffer, s.train)
  }

  ghost predicate AreSplits(n: nat, groups: nat, kTest: nat, buffer: int, splits: seq<Split>)
    requires groups > 0
  {
    && |splits| == |Combos(0, groups, kTest)|
    && forall c :: 0 <= c < |splits| ==> IsSplit(n, groups, Combos(0, groups, kTest)[c], buffer, splits[c])
  }

  /** `cpcv_splits`, collected. */
  method CpcvSplits(n: nat, groups: nat, kTest: nat, purge: int, embargo: int) returns (splits: seq<Split>)
    requires groups > 0 && kTest > 0
    ensures AreSplits(n, groups, kTest, purge + embargo, splits)
  {
    splits := [];
    var combos := Combos(0, groups, kTest);
    for c := 0 to |combos|
      invariant |splits| == c
      invariant forall d :: 0 <= d < c ==> IsSplit(n, groups, combos[d], purge + embargo, splits[d])
    {
      CombosSound(0, groups, kTest, c);
      var test := TestIndices(n, groups, combos[c]);
      var train := TrainIndices(n, test, purge + embargo);
      splits := splits + [Split(train, test)];
    }
  }

  function TestedIn(splits: seq<Split>, i: nat): nat {
    if splits == [] then 0 else TestedIn(splits[..|splits| - 1], i) + if i in splits[|splits| - 1].test then 1 else 0
  }

  lemma {:induction false} TestedInIsCount(n: nat, groups: nat, buffer: int, combos: seq<seq<nat>>, splits: seq<Split>,
                                           i: nat, g: nat)
    requires groups > 0 && |splits| == |combos| && InGroup(n, groups, g, i)
    requires forall c :: 0 <= c < |splits| ==> IsSplit(n, groups, combos[c], buffer, splits[c])
    ensures TestedIn(splits, i) == CountWith(combos, g)
    decreases |splits|
  {
    if splits != [] {
      var last := |splits| - 1;
      TestedInIsCount(n, groups, buffer, combos[..last], splits[..last], i, g);
      if i in splits[last].test {
        var h :| h in combos[last] && InGroup(n, groups, h, i);
        OneGroup(n, groups, i, g, h);
      }
    }
  }

  /** There are C(N, k) splits and every index is in the test side of exactly C(N-1, k-1) of them. */
  lemma SplitsAreBalanced(n: nat, groups: nat, kTest: nat, buffer: int, splits: seq<Split>, i: nat)
    requires groups > 0 && kTest > 0 && i < n && AreSplits(n, groups, kTest, buffer, splits)
    ensures |splits| == Choose(groups, kTest)
    ensures TestedIn(splits, i) == Choose(groups - 1, kTest - 1)
  {
    CombosCount(0, groups, kTest);
    GroupEnds(n, groups);
    var g := SomeGroup(n, groups, i, groups);
    TestedInIsCount(n, groups, buffer, Combos(0, groups, kTest), splits, i, g);
    CombosPerGroup(0, groups, kTest, g);
  }

  /** No leakage, and no index wasted: outside both sides lie only indices within the buffer of a test index. */
  lemma SplitSeparates(n: nat, groups: nat, combo: seq<nat>, buffer: nat, s: Split, i: nat)
    requires groups > 0 && i < n && IsSplit(n, groups, combo, buffer, s)
    ensures i in s.train ==> i !in s.test && forall j :: j in s.test ==> !Near(i, j, buffer)
    ensures i !in s.train && i !in s.test ==> exists j :: j in s.test && Near(i, j, buffer)
  {
    if i in s.train {
      forall j | j in s.test ensures !Near(i, j, buffer) {
        var k :| 0 <= k < |s.test| && s.test[k] == j;
        MarksNear(n, i, j, buffer);
      }
    } else {
      var k :| 0 <= k < |s.test| && Marks(n, i, s.test[k], buffer);
      MarksNear(n, i, s.test[k], buffer);
      assert s.test[k] in s.test;
    }
  }

  /** Nothing stops purge and embargo from being negative together; exactly then the two sides share an index. */
  lemma SidesDisjointIff(n: nat, groups: nat, combo: seq<nat>, buffer: int, s: Split)
    requires groups > 0 && IsSplit(n, groups, combo, buffer, s) && s.test != []
    ensures (forall i :: i in s.train ==> i !in s.test) <==> buffer >= 0
  {
    if buffer >= 0 {
      forall i | i in s.train ensures i !in s.test {
        SplitSeparates(n, groups, combo, buffer, s, i);
        assert Near(i, i, buffer);
      }
    } else {
      var i := s.test[0];
      assert i in s.test && !MarkedAny(n, i, s.test, buffer);
    }
  }
}

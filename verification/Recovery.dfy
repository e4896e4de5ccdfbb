/** Underwater spells: the recovery loop of gauntlet/forkb/p3.py and its older twin in gauntlet/forkb/carry_gate.py. */
module Recovery {
  import opened Arith

  ghost predicate IsRun(mask: seq<bool>, i: int, j: int) {
    0 <= i <= j <= |mask| && forall k :: i <= k < j ==> mask[k]
  }

  /** A spell that ends before the series does. */
  ghost predicate IsClosedRun(mask: seq<bool>, i: int, j: int) {
    IsRun(mask, i, j) && j < |mask| && !mask[j]
  }

  /** `n` is the length of the longest spell, open or closed. */
  ghost predicate IsLongest(mask: seq<bool>, n: nat) {
    && (exists i, j :: IsRun(mask, i, j) && j - i == n)
    && forall i, j :: IsRun(mask, i, j) ==> j - i <= n
  }

  /** `n` is the length of the longest closed spell, zero when there is none. */
  ghost predicate IsLongestClosed(mask: seq<bool>, n: nat) {
    && (n == 0 || exists i, j :: IsClosedRun(mask, i, j) && j - i == n)
    && forall i, j :: IsClosedRun(mask, i, j) ==> j - i <= n
  }

  /** The spell of length `n` that is still open at the end. */
  ghost predicate IsTrailing(mask: seq<bool>, n: nat) {
    n <= |mask| && IsRun(mask, |mask| - n, |mask|) && (n < |mask| ==> !mask[|mask| - n - 1])
  }

  lemma TrailingBounds(mask: seq<bool>, n: nat, i: int)
    requires IsTrailing(mask, n) && IsRun(mask, i, |mask|)
    ensures |mask| - i <= n
  {
  }

  lemma ExtendClosed(mask: seq<bool>, closed: nat, trailing: nat, under: bool)
    requires IsLongestClosed(mask, closed) && IsTrailing(mask, trailing)
    ensures under ==> IsTrailing(mask + [under], trailing + 1) && IsLongestClosed(mask + [under], closed)
    ensures !under ==> IsTrailing(mask + [under], 0) && IsLongestClosed(mask + [under], MaxInt(closed, trailing))
  {
    var next := mask + [under];
    assert forall k :: 0 <= k < |mask| ==> mask[k] == next[k];
    forall i, j | IsClosedRun(next, i, j)
      ensures if j < |mask| then IsClosedRun(mask, i, j) else j == |mask| && !under && IsRun(mask, i, j)
    {
    }
    forall i, j | IsClosedRun(mask, i, j) ensures IsClosedRun(next, i, j) {
    }
    if !under {
      assert IsClosedRun(next, |mask| - trailing, |mask|);
      forall i | IsRun(mask, i, |mask|) ensures |mask| - i <= trailing {
        TrailingBounds(mask, trailing, i);
      }
    }
  }

  lemma LongestFromParts(mask: seq<bool>, closed: nat, trailing: nat)
    requires IsLongestClosed(mask, closed) && IsTrailing(mask, trailing)
    ensures IsLongest(mask, MaxInt(closed, trailing))
  {
    forall i, j | IsRun(mask, i, j) ensures j - i <= MaxInt(closed, trailing) {
      RunBelow(mask, closed, trailing, i, j);
    }
    assert IsRun(mask, |mask| - trailing, |mask|);
    if closed > trailing {
      var i, j :| IsClosedRun(mask, i, j) && j - i == closed;
      assert IsRun(mask, i, j);
    }
  }

  lemma {:induction false} RunBelow(mask: seq<bool>, closed: nat, trailing: nat, i: int, j: int)
    requires IsLongestClosed(mask, closed) && IsTrailing(mask, trailing) && IsRun(mask, i, j)
    ensures j - i <= MaxInt(closed, trailing)
    decreases |mask| - j
  {
    if j == |mask| {
      TrailingBounds(mask, trailing, i);
    } else if mask[j] {
      RunBelow(mask, closed, trailing, i, j + 1);
    } else {
      assert IsClosedRun(mask, i, j);
    }
  }

  lemma ExtendLongest(mask: seq<bool>, longest: nat, trailing: nat, under: bool)
    requires IsLongest(mask, longest) && IsTrailing(mask, trailing)
    ensures under ==> IsTrailing(mask + [under], trailing + 1)
                      && IsLongest(mask + [under], MaxInt(longest, trailing + 1))
    ensures !under ==> IsTrailing(mask + [under], 0) && IsLongest(mask + [under], longest)
  {
    var next := mask + [under];
    assert forall k :: 0 <= k < |mask| ==> mask[k] == next[k];
    forall i, j | IsRun(next, i, j)
      ensures j <= |mask| ==> IsRun(mask, i, j)
      ensures j == |next| && i < j ==> under && IsRun(mask, i, |mask|)
    {
      if j == |next| && i < j {
        assert next[j - 1] == under;
      }
    }
    var a, b :| IsRun(mask, a, b) && b - a == longest;
    assert IsRun(next, a, b);
    if under {
      assert IsRun(next, |mask| - trailing, |mask| + 1);
      forall i | IsRun(mask, i, |mask|) ensures |mask| - i <= trailing {
        TrailingBounds(mask, trailing, i);
      }
    }
  }

  lemma {:induction false} SpellsExist(mask: seq<bool>) returns (closed: nat, trailing: nat)
    ensures IsLongestClosed(mask, closed) && IsTrailing(mask, trailing)
    decreases |mask|
  {
    closed, trailing := 0, 0;
    if mask != [] {
      var prefix, under := mask[..|mask| - 1], mask[|mask| - 1];
      closed, trailing := SpellsExist(prefix);
      ExtendClosed(prefix, closed, trailing, under);
      assert mask == prefix + [under];
      closed, trailing := if under then closed else MaxInt(closed, trailing), if under then trailing + 1 else 0;
    }
  }

  /** The longest spell, a property of the series alone. */
  ghost function LongestSpell(mask: seq<bool>): (n: nat)
    ensures IsLongest(mask, n)
  {
    assert exists n: nat :: IsLongest(mask, n) by {
      var closed, trailing := SpellsExist(mask);
      LongestFromParts(mask, closed, trailing);
    }
    var n: nat :| IsLongest(mask, n);
    n
  }

  ghost function LongestClosedSpell(mask: seq<bool>): (n: nat)
    ensures IsLongestClosed(mask, n)
  {
    assert exists n: nat :: IsLongestClosed(mask, n) by {
      var closed, trailing := SpellsExist(mask);
    }
    var n: nat :| IsLongestClosed(mask, n);
    n
  }

  lemma UniqueSpells(mask: seq<bool>, n: nat, closed: nat)
    requires IsLongest(mask, n) && IsLongestClosed(mask, closed)
    ensures n == LongestSpell(mask) && closed == LongestClosedSpell(mask)
  {
  }

  function Months(days: nat, ann: nat): real
    requires ann > 0
  {
    days as real / ann as real * 12.0
  }

  /** Days are turned into months at `ann` days a year. */
  lemma MonthsOutright(days: nat, ann: nat)
    requires ann > 0
    ensures Months(days, ann) * ann as real == days as real * 12.0
  {
    var q := days as real / ann as real;
    assert q * ann as real == days as real;
    assert q * 12.0 * ann as real == q * ann as real * 12.0;
  }

  /** The scan: the longest spell closed so far, and the length of the spell still open. */
  method ScanSpells(underwater: seq<bool>) returns (longestCompleted: nat, cur: nat)
    ensures IsLongestClosed(underwater, longestCompleted) && IsTrailing(underwater, cur)
  {
    longestCompleted, cur := 0, 0;
    for i := 0 to |underwater|
      invariant IsLongestClosed(underwater[..i], longestCompleted) && IsTrailing(underwater[..i], cur)
    {
      ExtendClosed(underwater[..i], longestCompleted, cur, underwater[i]);
      assert underwater[..i + 1] == underwater[..i] + [underwater[i]];
      if underwater[i] {
        cur := cur + 1;
      } else {
        longestCompleted := MaxInt(longestCompleted, cur);
        cur := 0;
      }
    }
    assert underwater[..|underwater|] == underwater;
  }

  /** `_maxdd_recovery_months`: the maximum is updated only when a spell closes. */
  method MaxddRecoveryMonths(underwater: seq<bool>, ann: nat)
    returns (months: real, censored: bool, completedMonths: real)
    requires ann > 0
    ensures months == Months(LongestSpell(underwater), ann)
    ensures months * ann as real == LongestSpell(underwater) as real * 12.0
    ensures completedMonths == Months(LongestClosedSpell(underwater), ann)
    ensures censored <==> underwater != [] && underwater[|underwater| - 1]
  {
    var longestCompleted, trailing := ScanSpells(underwater);
    LongestFromParts(underwater, longestCompleted, trailing);
    UniqueSpells(underwater, MaxInt(longestCompleted, trailing), longestCompleted);
    censored := trailing > 0;
    months := Months(MaxInt(longestCompleted, trailing), ann);
    completedMonths := Months(longestCompleted, ann);
    MonthsOutright(LongestSpell(underwater), ann);
  }

  datatype Duration = Within(months: real) | Unbounded

  /** The twin's scan: the maximum is updated inside the spell. */
  method ScanLongest(underwater: seq<bool>) returns (longest: nat)
    ensures longest == LongestSpell(underwater)
  {
    longest := 0;
    var cur: nat := 0;
    assert IsRun([], 0, 0);
    for i := 0 to |underwater|
      invariant IsLongest(underwater[..i], longest) && IsTrailing(underwater[..i], cur)
    {
      ExtendLongest(underwater[..i], longest, cur, underwater[i]);
      assert underwater[..i + 1] == underwater[..i] + [underwater[i]];
      if underwater[i] {
        cur := cur + 1;
        longest := MaxInt(longest, cur);
      } else {
        cur := 0;
      }
    }
    assert underwater[..|underwater|] == underwater;
  }

  /** The carry gate's `maxdd_recovery_months`: the maximum is updated inside the spell, and censoring is fatal. */
  method CarryRecoveryMonths(underwater: seq<bool>, ann: nat)
    returns (graded: Duration, censored: bool, months: real)
    requires ann > 0 && underwater != []
    ensures months == Months(LongestSpell(underwater), ann)
    ensures months * ann as real == LongestSpell(underwater) as real * 12.0
    ensures censored <==> underwater[|underwater| - 1]
    ensures graded == if censored then Unbounded else Within(months)
  {
    var longest := ScanLongest(underwater);
    censored := underwater[|underwater| - 1];
    months := Months(longest, ann);
    graded := if censored then Unbounded else Within(months);
    MonthsOutright(longest, ann);
  }

  /** More days under water never shorten the longest spell. */
  lemma LargerMaskLongerSpell(mask: seq<bool>, more: seq<bool>)
    requires |mask| == |more| && forall k :: 0 <= k < |mask| && mask[k] ==> more[k]
    ensures LongestSpell(mask) <= LongestSpell(more)
  {
    var m, n := LongestSpell(mask), LongestSpell(more);
    assert IsLongest(mask, m) && IsLongest(more, n);
    var i: int, j: int :| IsRun(mask, i, j) && j - i == m;
    assert IsRun(more, i, j);
  }
}

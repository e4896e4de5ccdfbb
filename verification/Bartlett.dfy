/**
 * The Bartlett long-run variance of gauntlet/forkb/blocks.py and gauntlet/forkb/factor_resid.py,
 * shown to be a scaled sum of squares of moving-window sums at every lag.
 */
module Bartlett {
  import opened Arith

  /** `np.dot(e[k:], e[:-k])`, empty from k = |e| on. */
  function Cross(e: seq<real>, k: nat): real {
    if k <= |e| then Dot(e[k..], e[..|e| - k]) else 0.0
  }

  /** The sum over k = 1..m of (top - k) Cross(k). */
  function Weighted(e: seq<real>, top: nat, m: nat): real {
    if m == 0 then 0.0 else Weighted(e, top, m - 1) + (top - m) as real * Cross(e, m)
  }

  function Scale(e: seq<real>, lag: nat): (r: real)
    ensures e != [] ==> r > 0.0
  {
    Times((lag + 1) as real, |e| as real)
  }

  /** (1/n) (Cross(0) + 2 sum over k = 1..lag of (1 - k/(lag+1)) Cross(k)), over the common denominator n(lag+1). */
  function LongRunVariance(e: seq<real>, lag: nat): real
    requires e != []
  {
    ((lag + 1) as real * Cross(e, 0) + 2.0 * Weighted(e, lag + 1, lag)) / Scale(e, lag)
  }

  // ----- moving-window sums as a sum of shifted copies -----

  function Zeros(n: nat): (z: seq<real>)
    ensures |z| == n
  {
    seq(n, _ => 0.0)
  }

  /** `e` delayed by `shift` inside a zero vector of length |e| + room. */
  function Shifted(e: seq<real>, shift: nat, room: nat): (v: seq<real>)
    requires shift <= room
    ensures |v| == |e| + room
  {
    Zeros(shift) + e + Zeros(room - shift)
  }

  lemma ShiftedAt(e: seq<real>, shift: nat, room: nat, s: nat)
    requires shift <= room && s < |e| + room
    ensures Shifted(e, shift, room)[s] == if shift <= s < shift + |e| then e[s - shift] else 0.0
  {
  }

  function Add(a: seq<real>, b: seq<real>): (c: seq<real>)
    requires |a| == |b|
    ensures |c| == |a|
  {
    seq(|a|, i requires 0 <= i < |a| => a[i] + b[i])
  }

  /** Entry s is e[s] + e[s-1] + ... + e[s-lag], reading zero outside the series. */
  function WindowSums(e: seq<real>, lag: nat, room: nat): (w: seq<real>)
    requires lag <= room
    ensures |w| == |e| + room
  {
    if lag == 0 then Shifted(e, 0, room) else Add(WindowSums(e, lag - 1, room), Shifted(e, lag, room))
  }

  // ----- bilinearity -----

  lemma {:induction false} DotSymmetric(a: seq<real>, b: seq<real>)
    requires |a| == |b|
    ensures Dot(a, b) == Dot(b, a)
  {
    if a != [] {
      DotSymmetric(a[..|a| - 1], b[..|b| - 1]);
    }
  }

  lemma {:induction false} DotAdd(a: seq<real>, b: seq<real>, c: seq<real>)
    requires |a| == |b| == |c|
    ensures Dot(Add(a, b), c) == Dot(a, c) + Dot(b, c)
  {
    if a != [] {
      var n := |a| - 1;
      DotAdd(a[..n], b[..n], c[..n]);
      assert Add(a, b)[..n] == Add(a[..n], b[..n]);
      assert (a[n] + b[n]) * c[n] == a[n] * c[n] + b[n] * c[n];
    }
  }

  lemma SquareOfSum(a: seq<real>, b: seq<real>)
    requires |a| == |b|
    ensures Dot(Add(a, b), Add(a, b)) == Dot(a, a) + 2.0 * Dot(a, b) + Dot(b, b)
  {
    var c := Add(a, b);
    DotAdd(a, b, c);
    DotSymmetric(a, c);
    DotSymmetric(b, c);
    DotAdd(a, b, a);
    DotAdd(a, b, b);
    DotSymmetric(b, a);
  }

  lemma {:induction false} DotConcat(a: seq<real>, b: seq<real>, c: seq<real>, d: seq<real>)
    requires |a| == |b| && |c| == |d|
    ensures Dot(a + c, b + d) == Dot(a, b) + Dot(c, d)
    decreases |c|
  {
    if c == [] {
      assert a + c == a && b + d == b;
    } else {
      var n := |c| - 1;
      DotConcat(a, b, c[..n], d[..n]);
      assert (a + c)[..|a + c| - 1] == a + c[..n];
      assert (b + d)[..|b + d| - 1] == b + d[..n];
    }
  }

  lemma {:induction false} DotZeros(n: nat, a: seq<real>)
    requires |a| == n
    ensures Dot(Zeros(n), a) == 0.0
  {
    if n > 0 {
      DotZeros(n - 1, a[..n - 1]);
      assert Zeros(n)[..n - 1] == Zeros(n - 1);
    }
  }

  // ----- shifted copies overlap in a lagged cross product -----

  lemma DotSplit(a: seq<real>, b: seq<real>, k: nat)
    requires k <= |a| == |b|
    ensures Dot(a, b) == Dot(a[..k], b[..k]) + Dot(a[k..], b[k..])
  {
    assert a == a[..k] + a[k..] && b == b[..k] + b[k..];
    DotConcat(a[..k], b[..k], a[k..], b[k..]);
  }

  /** Before the later copy starts it is zero; after the earlier copy ends that one is zero. */
  lemma OverlapOnly(a: seq<real>, b: seq<real>, lo: nat, hi: nat)
    requires lo <= hi <= |a| == |b|
    requires b[..lo] == Zeros(lo) && a[hi..] == Zeros(|a| - hi)
    ensures Dot(a, b) == Dot(a[lo..hi], b[lo..hi])
  {
    DotSplit(a, b, hi);
    DotSplit(a[..hi], b[..hi], lo);
    assert a[..hi][lo..] == a[lo..hi] && b[..hi][lo..] == b[lo..hi];
    assert a[..hi][..lo] == a[..lo] && b[..hi][..lo] == b[..lo];
    DotZeros(lo, a[..lo]);
    DotSymmetric(a[..lo], b[..lo]);
    DotZeros(|a| - hi, b[hi..]);
  }

  lemma ZeroBefore(e: seq<real>, shift: nat, room: nat)
    requires shift <= room
    ensures Shifted(e, shift, room)[..shift] == Zeros(shift)
  {
  }

  lemma ZeroAfter(e: seq<real>, shift: nat, room: nat, hi: nat)
    requires shift <= room && shift + |e| <= hi <= |e| + room
    ensures Shifted(e, shift, room)[hi..] == Zeros(|e| + room - hi)
  {
    forall s: nat | hi <= s < |e| + room ensures Shifted(e, shift, room)[s] == 0.0 {
      ShiftedAt(e, shift, room, s);
    }
  }

  lemma Middle(e: seq<real>, shift: nat, room: nat, lo: nat, hi: nat)
    requires shift <= room && shift <= lo <= hi <= shift + |e|
    ensures Shifted(e, shift, room)[lo..hi] == e[lo - shift..hi - shift]
  {
  }

  lemma ShiftedCross(e: seq<real>, i: nat, j: nat, room: nat)
    requires i <= j <= room
    ensures Dot(Shifted(e, i, room), Shifted(e, j, room)) == Cross(e, j - i)
  {
    var n := |e|;
    var hi := MaxInt(i + n, j);
    ZeroBefore(e, j, room);
    ZeroAfter(e, i, room, hi);
    OverlapOnly(Shifted(e, i, room), Shifted(e, j, room), j, hi);
    if j - i <= n {
      Middle(e, i, room, j, hi);
      Middle(e, j, room, j, hi);
      assert e[j - i..] == e[j - i..hi - i];
    }
  }

  /** Cross(1) + ... + Cross(m). */
  function CrossSum(e: seq<real>, m: nat): real {
    if m == 0 then 0.0 else CrossSum(e, m - 1) + Cross(e, m)
  }

  lemma OneMoreShift(e: seq<real>, j: nat, room: nat, c: seq<real>)
    requires j <= room && |c| == |e| + room
    ensures Dot(WindowSums(e, j, room), c)
         == (if j == 0 then 0.0 else Dot(WindowSums(e, j - 1, room), c)) + Dot(Shifted(e, j, room), c)
  {
    if j > 0 {
      DotAdd(WindowSums(e, j - 1, room), Shifted(e, j, room), c);
    }
  }

  lemma {:induction false} WindowTimesShifted(e: seq<real>, j: nat, lag: nat, room: nat)
    requires j < lag <= room
    ensures Dot(WindowSums(e, j, room), Shifted(e, lag, room)) == CrossSum(e, lag) - CrossSum(e, lag - j - 1)
  {
    var d := lag - j;
    OneMoreShift(e, j, room, Shifted(e, lag, room));
    ShiftedCross(e, j, lag, room);
    assert CrossSum(e, d) == CrossSum(e, d - 1) + Cross(e, d);
    if j > 0 {
      WindowTimesShifted(e, j - 1, lag, room);
    }
  }

  lemma {:induction false} RaiseTop(e: seq<real>, top: nat, m: nat)
    ensures Weighted(e, top + 1, m) == Weighted(e, top, m) + CrossSum(e, m)
  {
    if m > 0 {
      RaiseTop(e, top, m - 1);
      var c := Cross(e, m);
      assert (top + 1 - m) as real * c == (top - m) as real * c + c;
    }
  }

  /** (lag+1) Cross(0) + 2 sum over k of (lag+1-k) Cross(k), built lag by lag. */
  function Triangle(e: seq<real>, lag: nat): real {
    if lag == 0 then Cross(e, 0) else Triangle(e, lag - 1) + Cross(e, 0) + 2.0 * CrossSum(e, lag)
  }

  lemma {:induction false} WindowSquares(e: seq<real>, lag: nat, room: nat)
    requires lag <= room
    ensures Dot(WindowSums(e, lag, room), WindowSums(e, lag, room)) == Triangle(e, lag)
  {
    ShiftedCross(e, lag, lag, room);
    if lag > 0 {
      WindowSquares(e, lag - 1, room);
      SquareOfSum(WindowSums(e, lag - 1, room), Shifted(e, lag, room));
      WindowTimesShifted(e, lag - 1, lag, room);
    }
  }

  lemma {:induction false} TriangleIsWeighted(e: seq<real>, lag: nat, c: real, nc: real)
    requires c == Cross(e, 0) && nc == (lag + 1) as real * c
    ensures Triangle(e, lag) == nc + 2.0 * Weighted(e, lag + 1, lag)
  {
    if lag > 0 {
      OneLess(lag as real, c, nc);
      TriangleIsWeighted(e, lag - 1, c, nc - c);
      RaiseTop(e, lag, lag);
      LastWeightIsZero(e, lag);
    }
  }

  lemma OneLess(n: real, c: real, nc: real)
    requires nc == (n + 1.0) * c
    ensures n * c == nc - c
  {
  }

  lemma LastWeightIsZero(e: seq<real>, lag: nat)
    requires lag > 0
    ensures Weighted(e, lag, lag) == Weighted(e, lag, lag - 1)
  {
  }

  /** The long-run variance is, up to the factor n(lag+1), a sum of squared window sums. */
  lemma LongRunVarianceIsSumOfSquares(e: seq<real>, lag: nat)
    requires e != []
    ensures LongRunVariance(e, lag) == Dot(WindowSums(e, lag, lag), WindowSums(e, lag, lag)) / Scale(e, lag)
  {
    WindowSquares(e, lag, lag);
    TriangleIsWeighted(e, lag, Cross(e, 0), (lag + 1) as real * Cross(e, 0));
  }

  // ----- positivity -----

  lemma {:induction false} SquaresPositive(w: seq<real>, i: nat)
    requires i < |w| && w[i] != 0.0
    ensures Dot(w, w) > 0.0
    decreases |w|
  {
    var n := |w| - 1;
    SquaresNonNegative(w[..n]);
    if i < n {
      SquaresPositive(w[..n], i);
    } else {
      assert w[n] * w[n] == Square(w[n]);
    }
  }

  lemma {:induction false} SquaresNonNegative(w: seq<real>)
    ensures Dot(w, w) >= 0.0
  {
    if w != [] {
      SquaresNonNegative(w[..|w| - 1]);
      assert w[|w| - 1] * w[|w| - 1] == Square(w[|w| - 1]);
    }
  }

  lemma {:induction false} FirstNonZeroWindow(e: seq<real>, lag: nat, room: nat, t: nat)
    requires lag <= room && t < |e| && forall i :: 0 <= i < t ==> e[i] == 0.0
    ensures WindowSums(e, lag, room)[t] == e[t]
  {
    ShiftedAt(e, lag, room, t);
    if lag > 0 {
      FirstNonZeroWindow(e, lag - 1, room, t);
    }
  }

  lemma {:induction false} FirstNonZero(e: seq<real>, i: nat) returns (t: nat)
    requires i < |e| && e[i] != 0.0
    ensures t <= i && e[t] != 0.0 && forall j :: 0 <= j < t ==> e[j] == 0.0
    decreases i
  {
    t := i;
    if j: nat :| j < i && e[j] != 0.0 {
      t := FirstNonZero(e, j);
    }
  }

  ghost predicate IsZero(e: seq<real>) {
    forall i :: 0 <= i < |e| ==> e[i] == 0.0
  }

  /** At every lag the long-run variance is non-negative, and zero only for the zero series. */
  lemma LongRunVariancePositive(e: seq<real>, lag: nat)
    requires e != []
    ensures LongRunVariance(e, lag) >= 0.0
    ensures LongRunVariance(e, lag) == 0.0 <==> IsZero(e)
  {
    LongRunVarianceIsSumOfSquares(e, lag);
    WindowSquaresPositive(e, lag);
    SignOfQuotient(Dot(WindowSums(e, lag, lag), WindowSums(e, lag, lag)), Scale(e, lag));
  }

  lemma WindowSquaresPositive(e: seq<real>, lag: nat)
    ensures Dot(WindowSums(e, lag, lag), WindowSums(e, lag, lag)) >= 0.0
    ensures Dot(WindowSums(e, lag, lag), WindowSums(e, lag, lag)) == 0.0 <==> IsZero(e)
  {
    var w := WindowSums(e, lag, lag);
    SquaresNonNegative(w);
    if IsZero(e) {
      ZeroWindows(e, lag, lag);
      assert w == Zeros(|w|);
      DotZeros(|w|, w);
    } else {
      var i: nat :| i < |e| && e[i] != 0.0;
      var t := FirstNonZero(e, i);
      FirstNonZeroWindow(e, lag, lag, t);
      SquaresPositive(w, t);
    }
  }

  lemma {:induction false} ZeroWindows(e: seq<real>, lag: nat, room: nat)
    requires lag <= room && IsZero(e)
    ensures IsZero(WindowSums(e, lag, room))
  {
    forall s: nat | s < |e| + room ensures Shifted(e, lag, room)[s] == 0.0 {
      ShiftedAt(e, lag, room, s);
    }
    if lag > 0 {
      ZeroWindows(e, lag - 1, room);
    }
  }
}

/** Small shared vocabulary: minima, maxima, absolute values and finite sums over exact reals. */
module Arith {

  datatype Option<+T> = None | Some(value: T)

  function Min(x: real, y: real): (r: real)
    ensures r <= x && r <= y && (r == x || r == y)
  {
    if x <= y then x else y
  }

  function Max(x: real, y: real): (r: real)
    ensures x <= r && y <= r && (r == x || r == y)
  {
    if x <= y then y else x
  }

  function Abs(x: real): (r: real)
    ensures r >= 0.0 && (r == x || r == -x)
  {
    if x < 0.0 then -x else x
  }

  function AbsInt(x: int): (r: nat)
    ensures r == x || r == -x
  {
    if x < 0 then -x else x
  }

  function MaxInt(x: int, y: int): (r: int)
    ensures x <= r && y <= r && (r == x || r == y)
  {
    if x <= y then y else x
  }

  function MinInt(x: int, y: int): (r: int)
    ensures r <= x && r <= y && (r == x || r == y)
  {
    if x <= y then x else y
  }

  function Times(x: real, y: real): (r: real)
    ensures x > 0.0 && y > 0.0 ==> r > 0.0
    ensures x < 0.0 && y < 0.0 ==> r > 0.0
  {
    x * y
  }

  function Square(x: real): (r: real)
    ensures r >= 0.0
    ensures r == 0.0 ==> x == 0.0
  {
    Times(x, x)
  }

  function Pow(x: real, n: nat): real {
    if n == 0 then 1.0 else x * Pow(x, n - 1)
  }

  function Sum(s: seq<real>): real {
    if s == [] then 0.0 else Sum(s[..|s| - 1]) + s[|s| - 1]
  }

  function Product(s: seq<real>): real {
    if s == [] then 1.0 else Product(s[..|s| - 1]) * s[|s| - 1]
  }

  function Mean(s: seq<real>): real
    requires s != []
  {
    Sum(s) / |s| as real
  }

  function Dot(a: seq<real>, b: seq<real>): real
    requires |a| == |b|
  {
    if a == [] then 0.0 else Dot(a[..|a| - 1], b[..|b| - 1]) + a[|a| - 1] * b[|b| - 1]
  }

  /** A vector with one entry picks out that entry's product. */
  lemma {:induction false} DotSingle(a: seq<real>, b: seq<real>, j: nat)
    requires |a| == |b| && j < |a| && forall i :: 0 <= i < |b| && i != j ==> b[i] == 0.0
    ensures Dot(a, b) == a[j] * b[j]
    decreases |a|
  {
    var n := |a| - 1;
    if j < n {
      DotSingle(a[..n], b[..n], j);
    } else {
      DotWithZeros(a[..n], b[..n]);
    }
  }

  lemma {:induction false} DotWithZeros(a: seq<real>, b: seq<real>)
    requires |a| == |b| && forall i :: 0 <= i < |b| ==> b[i] == 0.0
    ensures Dot(a, b) == 0.0
  {
    if a != [] {
      DotWithZeros(a[..|a| - 1], b[..|b| - 1]);
    }
  }

  /** Weights that add up entry by entry earn the sum of what they earn apart. */
  lemma {:induction false} DotAdds(a: seq<real>, x: seq<real>, y: seq<real>, z: seq<real>)
    requires |a| == |x| == |y| == |z| && forall i :: 0 <= i < |z| ==> z[i] == x[i] + y[i]
    ensures Dot(a, z) == Dot(a, x) + Dot(a, y)
  {
    if a != [] {
      var n := |a| - 1;
      DotAdds(a[..n], x[..n], y[..n], z[..n]);
      assert a[n] * z[n] == a[n] * x[n] + a[n] * y[n];
    }
  }

  lemma ProductMonotone(a: real, b: real, x: real, y: real)
    requires 0.0 <= a <= b && 0.0 <= x <= y
    ensures 0.0 <= a * x <= b * y
  {
    assert a * x <= b * x;
  }

  predicate IsProduct(k: real, a: real, x: real) {
    k == a * x
  }

  lemma SignOfProduct(a: real, b: real, k: real)
    requires a >= 0.0 && b >= 0.0 && IsProduct(k, a, b)
    ensures k >= 0.0
    ensures a > 0.0 && b > 0.0 ==> k > 0.0
  {
  }

  /** Products by one non-negative factor keep their order. */
  lemma OrderedProducts(a: real, b: real, x: real, ax: real, bx: real)
    requires a <= b && x >= 0.0 && IsProduct(ax, a, x) && IsProduct(bx, b, x)
    ensures ax <= bx
    ensures a < b && x > 0.0 ==> ax < bx
  {
    var k := (b - a) * x;
    SignOfProduct(b - a, x, k);
    assert k == bx - ax;
  }

  lemma CancelFactor(a: real, b: real, x: real, ax: real, bx: real)
    requires x > 0.0 && IsProduct(ax, a, x) && IsProduct(bx, b, x) && ax <= bx
    ensures a <= b
  {
    if a > b {
      OrderedProducts(b, a, x, bx, ax);
    }
  }

  lemma SignOfQuotient(a: real, s: real)
    requires s > 0.0
    ensures a / s > 0.0 <==> a > 0.0
    ensures a / s >= 0.0 <==> a >= 0.0
  {
  }
}

/** The iterative single-name weight cap with pro-rata redistribution (gauntlet/forkb/harness.py). */
module CapWeights {
  import opened Arith

  const TINY := 0.000000000001
  const ROUNDS: nat := 100

  predicate Over(x: real, cap: real) {
    x > cap + TINY
  }

  predicate AnyOver(w: seq<real>, cap: real) {
    exists i :: 0 <= i < |w| && Over(w[i], cap)
  }

  function OverPart(x: real, cap: real): real {
    if Over(x, cap) then x - cap else 0.0
  }

  function UnderPart(x: real, cap: real): real {
    if Over(x, cap) then 0.0 else x
  }

  /** What the violators hold above the cap. */
  function Excess(w: seq<real>, cap: real): real {
    if w == [] then 0.0
    else Excess(w[..|w| - 1], cap) + OverPart(w[|w| - 1], cap)
  }

  /** What the others hold. */
  function UnderTotal(w: seq<real>, cap: real): real {
    if w == [] then 0.0
    else UnderTotal(w[..|w| - 1], cap) + UnderPart(w[|w| - 1], cap)
  }

  /** The fraction every under-cap weight grows by; zero when there is none to grow. */
  function Rate(w: seq<real>, cap: real): real {
    if UnderTotal(w, cap) <= 0.0 then 0.0 else Excess(w, cap) / UnderTotal(w, cap)
  }

  /** One weight after a round that grows the under-cap weights by `rate`. */
  function Share(x: real, cap: real, rate: real): real {
    if Over(x, cap) then cap else x + rate * x
  }

  function Spread(w: seq<real>, cap: real, rate: real): (v: seq<real>)
    ensures |v| == |w|
  {
    seq(|w|, i requires 0 <= i < |w| => Share(w[i], cap, rate))
  }

  /** One pass of the loop; both of its exits leave the weights as they are from then on. */
  function Round(w: seq<real>, cap: real): (v: seq<real>)
    ensures |v| == |w|
  {
    if AnyOver(w, cap) then Spread(w, cap, Rate(w, cap)) else w
  }

  function Iterate(w: seq<real>, cap: real, t: nat): (v: seq<real>)
    ensures |v| == |w|
  {
    if t == 0 then w else Round(Iterate(w, cap, t - 1), cap)
  }

  function Clipped(w: seq<real>): (v: seq<real>)
    ensures |v| == |w|
  {
    seq(|w|, i requires 0 <= i < |w| => Max(w[i], 0.0))
  }

  function Scaled(w: seq<real>, s: real): (v: seq<real>)
    requires s != 0.0
    ensures |v| == |w|
  {
    seq(|w|, i requires 0 <= i < |w| => w[i] / s)
  }

  function EqualWeights(n: nat): (v: seq<real>)
    ensures |v| == n
  {
    seq(n, _ => 1.0 / MaxInt(1, n) as real)
  }

  /** The input of the loop, or None where the code falls back to equal weights. */
  function Normalised(w: seq<real>, cap: real): Option<seq<real>> {
    var s := Sum(Clipped(w));
    if s <= 0.0 || w == [] || cap * |w| as real <= 1.0 then None else Some(Scaled(Clipped(w), s))
  }

  function Capped(w: seq<real>, cap: real): (v: seq<real>)
    ensures |v| == |w|
  {
    match Normalised(w, cap)
    case None => EqualWeights(|w|)
    case Some(v) => Iterate(v, cap, ROUNDS)
  }

  // ----- one round -----

  ghost predicate NonNegative(w: seq<real>) {
    forall i :: 0 <= i < |w| ==> w[i] >= 0.0
  }

  lemma SpreadPrefix(w: seq<real>, cap: real, rate: real)
    requires w != []
    ensures var n := |w| - 1;
            && Spread(w, cap, rate)[..n] == Spread(w[..n], cap, rate)
            && Spread(w, cap, rate)[n] == Share(w[n], cap, rate)
  {
  }

  function HandedOne(x: real, cap: real, rate: real): real {
    if Over(x, cap) then 0.0 else rate * x
  }

  /** What a round hands out. */
  function Handed(w: seq<real>, cap: real, rate: real): real {
    if w == [] then 0.0
    else Handed(w[..|w| - 1], cap, rate) + HandedOne(w[|w| - 1], cap, rate)
  }

  lemma Distribute(r: real, x: real, y: real)
    ensures r * (x + y) == r * x + r * y
  {
  }

  lemma {:induction false} HandedIsProRata(w: seq<real>, cap: real, rate: real)
    ensures Handed(w, cap, rate) == rate * UnderTotal(w, cap)
  {
    if w != [] {
      HandedIsProRata(w[..|w| - 1], cap, rate);
      Distribute(rate, UnderTotal(w[..|w| - 1], cap), UnderPart(w[|w| - 1], cap));
    }
  }

  /** Moving the excess pro rata changes the total by what is handed out less what is taken. */
  lemma {:induction false} SpreadTotal(w: seq<real>, cap: real, rate: real)
    ensures Sum(Spread(w, cap, rate)) == Sum(w) - Excess(w, cap) + Handed(w, cap, rate)
  {
    if w != [] {
      SpreadTotal(w[..|w| - 1], cap, rate);
      SpreadPrefix(w, cap, rate);
    }
  }

  /** Total weight above the cap. */
  function Overshoot(w: seq<real>, cap: real): real {
    if w == [] then 0.0 else Overshoot(w[..|w| - 1], cap) + Max(w[|w| - 1] - cap, 0.0)
  }

  lemma OvershootSplits(w: seq<real>, cap: real, rate: real)
    requires w != []
    ensures var n := |w| - 1;
            Overshoot(Spread(w, cap, rate), cap)
            == Overshoot(Spread(w[..n], cap, rate), cap) + Max(Share(w[n], cap, rate) - cap, 0.0)
  {
    SpreadPrefix(w, cap, rate);
  }

  /** What a weight below the cap can absorb without adding to the overshoot. */
  function Absorbed(x: real, cap: real, rate: real): real {
    Min(rate * x, cap - x)
  }

  lemma ShareOvershoot(x: real, cap: real, rate: real)
    requires rate >= 0.0 && x >= 0.0
    ensures Max(Share(x, cap, rate) - cap, 0.0) <= Max(x - cap, 0.0) - OverPart(x, cap) + HandedOne(x, cap, rate)
    ensures x <= cap ==> Max(Share(x, cap, rate) - cap, 0.0) <= HandedOne(x, cap, rate) - Absorbed(x, cap, rate)
  {
    assert rate * x >= 0.0;
  }

  lemma {:induction false} SpreadOvershoot(w: seq<real>, cap: real, rate: real)
    requires rate >= 0.0 && NonNegative(w)
    ensures Overshoot(Spread(w, cap, rate), cap) <= Overshoot(w, cap) - Excess(w, cap) + Handed(w, cap, rate)
  {
    if w != [] {
      SpreadOvershoot(w[..|w| - 1], cap, rate);
      OvershootSplits(w, cap, rate);
      ShareOvershoot(w[|w| - 1], cap, rate);
    }
  }

  /** A weight j below the cap makes the round lose at least what it absorbs. */
  lemma {:induction false} SpreadOvershootLoss(w: seq<real>, cap: real, rate: real, j: nat)
    requires rate >= 0.0 && NonNegative(w) && j < |w| && w[j] <= cap
    ensures Overshoot(Spread(w, cap, rate), cap)
         <= Overshoot(w, cap) - Excess(w, cap) + Handed(w, cap, rate) - Absorbed(w[j], cap, rate)
    decreases |w|
  {
    OvershootSplits(w, cap, rate);
    ShareOvershoot(w[|w| - 1], cap, rate);
    if j < |w| - 1 {
      SpreadOvershootLoss(w[..|w| - 1], cap, rate, j);
    } else {
      SpreadOvershoot(w[..|w| - 1], cap, rate);
    }
  }

  function Positives(w: seq<real>): nat {
    if w == [] then 0 else Positives(w[..|w| - 1]) + if w[|w| - 1] > 0.0 then 1 else 0
  }

  /** Some positive weight is no larger than the average over the positive ones. */
  lemma SmallestIsBelowAverage(w: seq<real>) returns (j: nat)
    requires NonNegative(w) && Sum(w) == 1.0
    ensures Positives(w) > 0
    ensures j < |w| && 0.0 < w[j] <= 1.0 / Positives(w) as real
  {
    SumAbove(w, 0.0, 0.0);
    var m := Positives(w);
    var bar := 1.0 / m as real;
    assert m as real * bar == 1.0;
    if forall i :: 0 <= i < |w| && w[i] > 0.0 ==> w[i] > bar {
      SumAbove(w, bar, 1.0);
      assert false;
    }
    j :| 0 <= j < |w| && w[j] > 0.0 && !(w[j] > bar);
  }

  lemma {:induction false} SumAbove(w: seq<real>, bar: real, held: real)
    requires NonNegative(w) && bar >= 0.0 && held == Positives(w) as real * bar
    requires forall i :: 0 <= i < |w| && w[i] > 0.0 ==> w[i] > bar
    ensures if Positives(w) > 0 then Sum(w) > held else Sum(w) == held == 0.0
  {
    if w != [] {
      var n := |w| - 1;
      if w[n] > 0.0 {
        OneLessBar(Positives(w[..n]) as real, bar, held);
        SumAbove(w[..n], bar, held - bar);
      } else {
        SumAbove(w[..n], bar, held);
      }
    }
  }

  lemma OneLessBar(m: real, bar: real, held: real)
    requires held == (m + 1.0) * bar
    ensures held - bar == m * bar
  {
  }

  // ----- every round, when the positive names can carry the whole weight under the cap -----

  /** The most the positive names can hold within the cap. */
  function Capacity(w: seq<real>, cap: real): real {
    Positives(w) as real * cap
  }

  /** The state of the loop: a weighting whose positive names can hold total one within the cap. */
  ghost predicate Carriable(w: seq<real>, cap: real) {
    NonNegative(w) && Sum(w) == 1.0 && Capacity(w, cap) >= 1.0
  }

  /** No positive weight is smaller than `floor`, itself within the cap. */
  ghost predicate FlooredAt(w: seq<real>, cap: real, floor: real) {
    0.0 < floor <= cap && forall i :: 0 <= i < |w| && w[i] > 0.0 ==> w[i] >= floor
  }

  lemma AverageBelowCap(m: nat, cap: real)
    requires m > 0 && m as real * cap >= 1.0
    ensures 1.0 / m as real <= cap && cap > 0.0
  {
    InverseBelow(m as real, cap, m as real * cap);
  }

  lemma InverseBelow(m: real, cap: real, k: real)
    requires m > 0.0 && k == m * cap && k >= 1.0
    ensures 1.0 / m <= cap && cap > 0.0
    ensures k > 1.0 ==> 1.0 / m < cap
  {
    assert m * (cap - 1.0 / m) == k - 1.0;
  }

  lemma {:induction false} UnderTotalAtLeast(w: seq<real>, cap: real, j: nat)
    requires NonNegative(w) && j < |w| && !Over(w[j], cap)
    ensures UnderTotal(w, cap) >= w[j]
    decreases |w|
  {
    var n := |w| - 1;
    if j < n {
      UnderTotalAtLeast(w[..n], cap, j);
    } else {
      UnderTotalNonNegative(w[..n], cap);
    }
  }

  lemma {:induction false} UnderTotalNonNegative(w: seq<real>, cap: real)
    requires NonNegative(w)
    ensures UnderTotal(w, cap) >= 0.0
  {
    if w != [] {
      UnderTotalNonNegative(w[..|w| - 1], cap);
    }
  }

  lemma {:induction false} ExcessBounds(w: seq<real>, cap: real)
    requires cap >= 0.0
    ensures 0.0 <= Excess(w, cap) <= Overshoot(w, cap) <= Excess(w, cap) + |w| as real * TINY
    ensures NonNegative(w) ==> Excess(w, cap) + UnderTotal(w, cap) <= Sum(w)
  {
    if w != [] {
      ExcessBounds(w[..|w| - 1], cap);
    }
  }

  lemma {:induction false} ExcessPositive(w: seq<real>, cap: real, i: nat)
    requires cap >= 0.0 && i < |w| && Over(w[i], cap)
    ensures Excess(w, cap) > TINY
    decreases |w|
  {
    ExcessBounds(w[..|w| - 1], cap);
    if i < |w| - 1 {
      ExcessPositive(w[..|w| - 1], cap, i);
    }
  }

  /** The redistribution always has someone to give to. */
  lemma SomeoneUnderCap(w: seq<real>, cap: real) returns (j: nat)
    requires Carriable(w, cap)
    ensures j < |w| && Positives(w) > 0 && 0.0 < w[j] <= 1.0 / Positives(w) as real <= cap
    ensures UnderTotal(w, cap) > 0.0
  {
    j := SmallestIsBelowAverage(w);
    AverageBelowCap(Positives(w), cap);
    UnderTotalAtLeast(w, cap, j);
  }

  /** With someone under the cap, a round hands out exactly the excess. */
  lemma RateIsExact(w: seq<real>, cap: real)
    requires UnderTotal(w, cap) > 0.0 && Excess(w, cap) >= 0.0
    ensures Rate(w, cap) >= 0.0 && Handed(w, cap, Rate(w, cap)) == Excess(w, cap)
    ensures UnderTotal(w, cap) <= 1.0 ==> Rate(w, cap) >= Excess(w, cap)
  {
    HandedIsProRata(w, cap, Rate(w, cap));
    QuotientCancels(Excess(w, cap), UnderTotal(w, cap));
  }

  lemma QuotientCancels(e: real, u: real)
    requires u > 0.0 && e >= 0.0
    ensures e / u >= 0.0 && e / u * u == e
    ensures u <= 1.0 ==> e / u >= e
  {
    var r := e / u;
    assert r * u == e;
    assert r >= 0.0;
    if u <= 1.0 {
      assert r * (1.0 - u) >= 0.0;
    }
  }

  lemma SameSupport(w: seq<real>, v: seq<real>)
    requires |v| == |w| && forall i :: 0 <= i < |w| ==> (v[i] > 0.0 <==> w[i] > 0.0)
    ensures Positives(v) == Positives(w)
  {
    if w != [] {
      SameSupport(w[..|w| - 1], v[..|w| - 1]);
    }
  }

  lemma ShareKeepsSign(x: real, cap: real, rate: real)
    requires x >= 0.0 && rate >= 0.0 && cap > 0.0
    ensures Share(x, cap, rate) >= 0.0
    ensures Share(x, cap, rate) > 0.0 <==> x > 0.0
    ensures Share(x, cap, rate) >= Min(x, cap)
  {
    assert rate * x >= 0.0;
  }

  /** In a carriable state the round hands out exactly what it takes. */
  lemma ExactRound(w: seq<real>, cap: real)
    requires Carriable(w, cap)
    ensures UnderTotal(w, cap) > 0.0 && cap > 0.0
    ensures Handed(w, cap, Rate(w, cap)) == Excess(w, cap) && 0.0 <= Excess(w, cap) <= 1.0
    ensures Rate(w, cap) >= Excess(w, cap)
  {
    var j := SomeoneUnderCap(w, cap);
    ExcessBounds(w, cap);
    RateIsExact(w, cap);
  }

  lemma SpreadKeepsSigns(w: seq<real>, cap: real, rate: real)
    requires NonNegative(w) && rate >= 0.0 && cap > 0.0
    ensures NonNegative(Spread(w, cap, rate)) && Positives(Spread(w, cap, rate)) == Positives(w)
    ensures forall i :: 0 <= i < |w| ==> (Spread(w, cap, rate)[i] > 0.0 <==> w[i] > 0.0)
    ensures forall i :: 0 <= i < |w| ==> Spread(w, cap, rate)[i] >= Min(w[i], cap)
  {
    var v := Spread(w, cap, rate);
    forall i | 0 <= i < |w| ensures v[i] >= 0.0 && (v[i] > 0.0 <==> w[i] > 0.0) && v[i] >= Min(w[i], cap) {
      ShareKeepsSign(w[i], cap, rate);
    }
    SameSupport(w, v);
  }

  lemma SameNamesCarry(w: seq<real>, v: seq<real>, cap: real)
    requires Carriable(w, cap) && NonNegative(v) && Sum(v) == 1.0 && Positives(v) == Positives(w)
    ensures Carriable(v, cap)
  {
  }

  lemma SpreadKeepsWeighting(w: seq<real>, cap: real, r: real)
    requires Carriable(w, cap) && r == Rate(w, cap)
    ensures NonNegative(Spread(w, cap, r)) && Positives(Spread(w, cap, r)) == Positives(w)
    ensures Sum(Spread(w, cap, r)) == 1.0
    ensures forall i :: 0 <= i < |w| ==> (Spread(w, cap, r)[i] > 0.0 <==> w[i] > 0.0)
    ensures forall i :: 0 <= i < |w| ==> Spread(w, cap, r)[i] >= Min(w[i], cap)
  {
    ExactRound(w, cap);
    SpreadTotal(w, cap, r);
    SpreadKeepsSigns(w, cap, r);
  }

  /** A round keeps the weights non-negative with total one, on the same names and above the same floor. */
  lemma RoundKeepsWeighting(w: seq<real>, cap: real)
    requires Carriable(w, cap)
    ensures Carriable(Round(w, cap), cap) && Positives(Round(w, cap)) == Positives(w)
    ensures forall i :: 0 <= i < |w| ==> (Round(w, cap)[i] > 0.0 <==> w[i] > 0.0)
    ensures forall i :: 0 <= i < |w| ==> Round(w, cap)[i] >= Min(w[i], cap)
  {
    if AnyOver(w, cap) {
      SpreadKeepsWeighting(w, cap, Rate(w, cap));
      SameNamesCarry(w, Round(w, cap), cap);
    }
  }

  lemma RoundKeepsFloor(w: seq<real>, cap: real, floor: real)
    requires Carriable(w, cap) && FlooredAt(w, cap, floor)
    ensures FlooredAt(Round(w, cap), cap, floor)
  {
    RoundKeepsWeighting(w, cap);
  }

  /** What the positive names can still take within the cap. */
  function Room(w: seq<real>, cap: real): real {
    if w == [] then 0.0
    else Room(w[..|w| - 1], cap) + if w[|w| - 1] > 0.0 then Max(cap - w[|w| - 1], 0.0) else 0.0
  }

  /** Room exceeds the overshoot by the spare capacity. */
  lemma {:induction false} RoomBalance(w: seq<real>, cap: real, k: real)
    requires NonNegative(w) && cap > 0.0 && k == Capacity(w, cap)
    ensures Room(w, cap) - Overshoot(w, cap) == k - Sum(w)
  {
    if w != [] {
      var n := |w| - 1;
      if w[n] > 0.0 {
        OneLessBar(Positives(w[..n]) as real, cap, k);
        RoomBalance(w[..n], cap, k - cap);
      } else {
        RoomBalance(w[..n], cap, k);
      }
    }
  }

  lemma {:induction false} RoomBelowBar(w: seq<real>, cap: real, bar: real, held: real)
    requires held == Positives(w) as real * bar
    requires forall i :: 0 <= i < |w| && w[i] > 0.0 ==> Max(cap - w[i], 0.0) < bar
    ensures if Positives(w) > 0 then Room(w, cap) < held else Room(w, cap) == held == 0.0
  {
    if w != [] {
      var n := |w| - 1;
      if w[n] > 0.0 {
        OneLessBar(Positives(w[..n]) as real, bar, held);
        RoomBelowBar(w[..n], cap, bar, held - bar);
      } else {
        RoomBelowBar(w[..n], cap, bar, held);
      }
    }
  }

  /** Some positive name has room for its even share of the excess. */
  lemma SomeoneHasRoom(w: seq<real>, cap: real, e: real, share: real) returns (j: nat)
    requires Carriable(w, cap) && cap > 0.0 && Positives(w) > 0 && e == Excess(w, cap) && e > 0.0
    requires share > 0.0 && e == Positives(w) as real * share
    ensures j < |w| && w[j] > 0.0 && cap - w[j] >= share
  {
    RoomBalance(w, cap, Capacity(w, cap));
    ExcessBounds(w, cap);
    if forall i :: 0 <= i < |w| && w[i] > 0.0 ==> Max(cap - w[i], 0.0) < share {
      RoomBelowBar(w, cap, share, e);
      assert false;
    }
    j :| 0 <= j < |w| && w[j] > 0.0 && !(Max(cap - w[j], 0.0) < share);
  }

  /** The floor is no larger than the average. */
  lemma FloorBelowAverage(w: seq<real>, cap: real, floor: real)
    requires NonNegative(w) && Sum(w) == 1.0 && FlooredAt(w, cap, floor)
    ensures Positives(w) > 0 && floor <= 1.0 / Positives(w) as real
  {
    var j := SmallestIsBelowAverage(w);
    assert w[j] >= floor;
  }

  /** Each violating round takes at least the floor's part of the excess off the total overshoot. */
  lemma RoundShrinksOvershoot(w: seq<real>, cap: real, floor: real, r: real, e: real, loss: real)
    requires Carriable(w, cap) && FlooredAt(w, cap, floor) && AnyOver(w, cap)
    requires r == Rate(w, cap) && e == Excess(w, cap) && IsProduct(loss, floor, e)
    ensures Overshoot(Spread(w, cap, r), cap) <= Overshoot(w, cap) - loss
  {
    ExactRound(w, cap);
    ViolationHasExcess(w, cap);
    FloorBelowAverage(w, cap, floor);
    var m := Positives(w);
    var inverse, share := 1.0 / m as real, e / m as real;
    EvenShare(e, m as real, inverse, share);
    var j := SomeoneHasRoom(w, cap, e, share);
    SpreadOvershootLoss(w, cap, r, j);
    AbsorbsEnough(e, r, w[j], floor, cap, inverse, share, loss);
  }

  lemma EvenShare(e: real, m: real, inverse: real, share: real)
    requires e > 0.0 && m > 0.0 && inverse == 1.0 / m && share == e / m
    ensures share > 0.0 && e == m * share && IsProduct(share, inverse, e)
  {
    assert share * m == e;
  }

  lemma AbsorbsEnough(e: real, r: real, x: real, floor: real, cap: real, inverse: real, share: real, loss: real)
    requires 0.0 < e && e <= r && 0.0 < floor <= x && floor <= inverse && cap - x >= share
    requires IsProduct(share, inverse, e) && IsProduct(loss, floor, e)
    ensures Absorbed(x, cap, r) >= loss
  {
    OrderedProducts(floor, inverse, e, loss, share);
    OrderedProducts(floor, x, e, loss, e * x);
    OrderedProducts(e, r, x, e * x, r * x);
  }

  // ----- the whole loop -----

  /** If the positive names can carry the weight, a violating round strictly lowers the overshoot. */
  lemma ViolationStrictlyShrinks(w: seq<real>, cap: real)
    requires Carriable(w, cap) && AnyOver(w, cap)
    ensures Overshoot(Round(w, cap), cap) < Overshoot(w, cap)
  {
    SomePositive(w, cap);
    ViolationHasExcess(w, cap);
    var floor := FloorExists(w, cap);
    var e := Excess(w, cap);
    SignOfProduct(floor, e, floor * e);
    RoundShrinksOvershoot(w, cap, floor, Rate(w, cap), e, floor * e);
  }

  /** The smallest positive weight, or the cap if that is smaller, is a floor. */
  lemma {:induction false} FloorExists(w: seq<real>, cap: real) returns (floor: real)
    requires cap > 0.0
    ensures FlooredAt(w, cap, floor)
  {
    floor := cap;
    if w != [] {
      var n := |w| - 1;
      floor := FloorExists(w[..n], cap);
      if 0.0 < w[n] < floor {
        floor := w[n];
      }
    }
  }

  lemma SomePositive(w: seq<real>, cap: real)
    requires Carriable(w, cap)
    ensures Positives(w) > 0 && cap > 0.0
  {
    var j := SomeoneUnderCap(w, cap);
  }

  lemma ViolationHasExcess(w: seq<real>, cap: real)
    requires AnyOver(w, cap) && cap >= 0.0
    ensures Excess(w, cap) > TINY
  {
    var i :| 0 <= i < |w| && Over(w[i], cap);
    ExcessPositive(w, cap, i);
  }

  lemma ViolationOvershoots(w: seq<real>, cap: real)
    requires AnyOver(w, cap) && cap >= 0.0
    ensures Overshoot(w, cap) > 0.0
  {
    ViolationHasExcess(w, cap);
    ExcessBounds(w, cap);
  }

  /** Every round, whatever the capacity, keeps the weights non-negative and on the same names. */
  lemma {:induction false} IterateKeepsSigns(w: seq<real>, cap: real, t: nat)
    requires NonNegative(w) && cap > 0.0
    ensures NonNegative(Iterate(w, cap, t)) && Positives(Iterate(w, cap, t)) == Positives(w)
    ensures forall i :: 0 <= i < |w| ==> (Iterate(w, cap, t)[i] > 0.0 <==> w[i] > 0.0)
    decreases t
  {
    if t > 0 {
      var v := Iterate(w, cap, t - 1);
      IterateKeepsSigns(w, cap, t - 1);
      RateNonNegative(v, cap);
      SpreadKeepsSigns(v, cap, Rate(v, cap));
    }
  }

  lemma RateNonNegative(w: seq<real>, cap: real)
    requires cap >= 0.0
    ensures Rate(w, cap) >= 0.0
  {
    ExcessBounds(w, cap);
    if UnderTotal(w, cap) > 0.0 {
      QuotientCancels(Excess(w, cap), UnderTotal(w, cap));
    }
  }

  lemma {:induction false} IterateKeeps(w: seq<real>, cap: real, floor: real, t: nat)
    requires Carriable(w, cap) && FlooredAt(w, cap, floor)
    ensures Carriable(Iterate(w, cap, t), cap) && FlooredAt(Iterate(w, cap, t), cap, floor)
    ensures Positives(Iterate(w, cap, t)) == Positives(w)
    decreases t
  {
    if t > 0 {
      IterateKeeps(w, cap, floor, t - 1);
      RoundKeepsWeighting(Iterate(w, cap, t - 1), cap);
      RoundKeepsFloor(Iterate(w, cap, t - 1), cap, floor);
    }
  }

  // ----- a fixed share of the excess lost every round -----

  ghost predicate Weighting(w: seq<real>) {
    NonNegative(w) && Sum(w) == 1.0
  }

  /** A violating round from `w` takes at least the share `c` of the excess off the overshoot. */
  ghost predicate Loses(w: seq<real>, cap: real, c: real) {
    AnyOver(w, cap) ==> Overshoot(Round(w, cap), cap) <= Overshoot(w, cap) - c * Excess(w, cap)
  }

  ghost predicate AlwaysLoses(w: seq<real>, cap: real, c: real, n: nat) {
    forall t: nat :: t < n ==> Loses(Iterate(w, cap, t), cap, c)
  }

  /** What weights between the cap and the tolerance can add to the overshoot. */
  function Slack(cap: real): real
    requires cap > 0.0
  {
    TINY / cap
  }

  /** The names' shares of `s`. */
  function Shares(w: seq<real>, s: real): real {
    if w == [] then 0.0 else Shares(w[..|w| - 1], s) + s * w[|w| - 1]
  }

  lemma {:induction false} SharesAddUp(w: seq<real>, s: real)
    ensures Shares(w, s) == s * Sum(w)
  {
    if w != [] {
      SharesAddUp(w[..|w| - 1], s);
      Distribute(s, Sum(w[..|w| - 1]), w[|w| - 1]);
    }
  }

  lemma {:induction false} ToleratedPart(w: seq<real>, cap: real, s: real)
    requires NonNegative(w) && cap > 0.0 && s == Slack(cap)
    ensures Overshoot(w, cap) <= Excess(w, cap) + Shares(w, s)
  {
    if w != [] {
      ToleratedPart(w[..|w| - 1], cap, s);
      ToleratedOne(w[|w| - 1], cap, s, s * w[|w| - 1]);
    }
  }

  /** A weight within the tolerance exceeds the cap by at most its own share of the slack. */
  lemma ToleratedOne(x: real, cap: real, s: real, k: real)
    requires cap > 0.0 && x >= 0.0 && s == Slack(cap) && k == s * x
    ensures Max(x - cap, 0.0) <= OverPart(x, cap) + k
  {
    var y := s * cap;
    assert y == TINY;
    assert k >= 0.0 by { ScaleUp(s, 0.0, x); }
    if cap < x {
      assert y <= k by { ScaleUp(s, cap, x); }
    }
  }

  lemma OvershootWithinSlack(w: seq<real>, cap: real)
    requires Weighting(w) && cap > 0.0
    ensures Overshoot(w, cap) <= Excess(w, cap) + Slack(cap)
  {
    SharesAddUp(w, Slack(cap));
    ToleratedPart(w, cap, Slack(cap));
  }

  /** Either nobody violates the cap or the overshoot is within the slack and `p`. */
  ghost predicate Settling(v: seq<real>, cap: real, p: real)
    requires cap > 0.0
  {
    AnyOver(v, cap) ==> Overshoot(v, cap) <= Slack(cap) + p
  }

  /** While the guard still fires after t rounds, the overshoot beyond the slack has shrunk geometrically. */
  lemma {:induction false} Converges(w: seq<real>, cap: real, c: real, q: real, t: nat, n: nat)
    requires Weighting(w) && cap > 0.0 && !AllOver(w, cap)
    requires 0.0 <= c <= 1.0 && q == 1.0 - c && AlwaysLoses(w, cap, c, n) && t <= n
    ensures Settling(Iterate(w, cap, t), cap, Pow(q, t))
    decreases t
  {
    if t == 0 {
      ConvergeStart(w, cap);
    } else {
      Converges(w, cap, c, q, t - 1, n);
      ConvergesNext(w, cap, c, q, t - 1, Pow(q, t - 1), Pow(q, t));
    }
  }

  lemma ConvergesNext(w: seq<real>, cap: real, c: real, q: real, t: nat, p: real, next: real)
    requires Weighting(w) && cap > 0.0 && !AllOver(w, cap)
    requires 0.0 <= c <= 1.0 && q == 1.0 - c && Loses(Iterate(w, cap, t), cap, c)
    requires Settling(Iterate(w, cap, t), cap, p) && next == q * p
    ensures Settling(Iterate(w, cap, t + 1), cap, next)
  {
    TotalKeptIff(w, cap, t);
    ConvergeStep(Iterate(w, cap, t), cap, c, q, p, next);
  }

  lemma ConvergeStart(w: seq<real>, cap: real)
    requires Weighting(w) && cap > 0.0
    ensures Settling(w, cap, 1.0)
  {
    OvershootBelowTotal(w, cap);
    assert Slack(cap) > 0.0;
  }

  lemma ConvergeStep(v: seq<real>, cap: real, c: real, q: real, p: real, next: real)
    requires Weighting(v) && cap > 0.0 && 0.0 <= c <= 1.0 && q == 1.0 - c && Loses(v, cap, c)
    requires Settling(v, cap, p) && next == q * p
    ensures Settling(Round(v, cap), cap, next)
  {
    if AnyOver(v, cap) {
      OvershootWithinSlack(v, cap);
      ShrinkStep(Overshoot(v, cap), Overshoot(Round(v, cap), cap), Excess(v, cap), c, q, Slack(cap), p, next);
    }
  }

  lemma ShrinkStep(o: real, after: real, e: real, c: real, q: real, slack: real, p: real, next: real)
    requires after <= o - c * e && o <= e + slack && o <= slack + p && 0.0 <= c <= 1.0
    requires c == 1.0 - q && next == q * p
    ensures after <= slack + next
  {
    ConvexBound(c, q, o - slack, e, p, c * e, next);
  }

  lemma ConvexBound(c: real, q: real, gap: real, e: real, p: real, ce: real, qp: real)
    requires 0.0 <= c <= 1.0 && q == 1.0 - c && gap <= e && gap <= p && ce == c * e && qp == q * p
    ensures gap <= ce + qp
  {
    var cg, qg := c * gap, q * gap;
    assert cg <= ce by { ScaleUp(c, gap, e); }
    assert qg <= qp by { ScaleUp(q, gap, p); }
    assert cg + qg == gap;
  }

  lemma ScaleUp(c: real, x: real, y: real)
    requires c >= 0.0 && x <= y
    ensures c * x <= c * y
  {
  }

  /** Every violating round among the first n takes more than `step` off the overshoot. */
  ghost predicate StepsDown(w: seq<real>, cap: real, step: real, n: nat) {
    forall t: nat :: t < n && AnyOver(Iterate(w, cap, t), cap) ==>
                       Overshoot(Iterate(w, cap, t + 1), cap) <= Overshoot(Iterate(w, cap, t), cap) - step
  }

  /** A share of the excess is at least that share of the tolerance. */
  lemma LosingStepsDown(w: seq<real>, cap: real, c: real, n: nat, step: real)
    requires cap > 0.0 && c >= 0.0 && AlwaysLoses(w, cap, c, n) && step == c * TINY
    ensures StepsDown(w, cap, step, n)
  {
    forall t: nat | t < n && AnyOver(Iterate(w, cap, t), cap)
      ensures Overshoot(Iterate(w, cap, t + 1), cap) <= Overshoot(Iterate(w, cap, t), cap) - step {
      SteadyRound(Iterate(w, cap, t), cap, c, step);
    }
  }

  lemma SteadyRound(v: seq<real>, cap: real, c: real, step: real)
    requires cap > 0.0 && c >= 0.0 && Loses(v, cap, c) && AnyOver(v, cap) && step == c * TINY
    ensures Overshoot(Round(v, cap), cap) <= Overshoot(v, cap) - step
  {
    ViolationHasExcess(v, cap);
    SteadyStep(Overshoot(v, cap), Overshoot(Round(v, cap), cap), c, Excess(v, cap), step);
  }

  lemma {:induction false} LosesSteadily(w: seq<real>, cap: real, t0: nat, k: nat, step: real, total: real)
    requires StepsDown(w, cap, step, t0 + k) && total == WornOff(k, step)
    requires AnyOver(Iterate(w, cap, t0 + k), cap)
    ensures Overshoot(Iterate(w, cap, t0 + k), cap) <= Overshoot(Iterate(w, cap, t0), cap) - total
    decreases k
  {
    if k > 0 {
      var t := t0 + (k - 1);
      OneLessBar((k - 1) as real, step, total);
      LosesSteadily(w, cap, t0, k - 1, step, total - step);
      assert t0 + k == t + 1;
    }
  }

  lemma SteadyStep(before: real, after: real, c: real, e: real, step: real)
    requires after <= before - c * e && e > TINY && c >= 0.0 && step == c * TINY
    ensures after <= before - step
  {
    ScaleUp(c, TINY, e);
  }

  /** What k steady rounds take off the overshoot at least. */
  function WornOff(k: nat, step: real): real {
    k as real * step
  }

  /** After t0 rounds of geometric decay the remaining rounds can wear off the slack. */
  ghost predicate RoundsSuffice(t0: nat, c: real, cap: real, rounds: nat)
    requires cap > 0.0
  {
    t0 <= rounds && Pow(1.0 - c, t0) + Slack(cap) <= WornOff(rounds - t0, c * TINY)
  }

  /** Then nobody is above the cap when the loop ends. */
  lemma Settles(w: seq<real>, cap: real, c: real, t0: nat, rounds: nat)
    requires Weighting(w) && cap > 0.0 && !AllOver(w, cap)
    requires 0.0 <= c <= 1.0 && AlwaysLoses(w, cap, c, rounds) && RoundsSuffice(t0, c, cap, rounds)
    ensures !AnyOver(Iterate(w, cap, rounds), cap)
  {
    SettlesAt(w, cap, c, t0, rounds - t0, c * TINY, Pow(1.0 - c, t0), WornOff(rounds - t0, c * TINY));
  }

  lemma SettlesAt(w: seq<real>, cap: real, c: real, t0: nat, k: nat, step: real, p: real, worn: real)
    requires Weighting(w) && cap > 0.0 && !AllOver(w, cap)
    requires 0.0 <= c <= 1.0 && AlwaysLoses(w, cap, c, t0 + k)
    requires step == c * TINY && p == Pow(1.0 - c, t0) && worn == WornOff(k, step) && p + Slack(cap) <= worn
    ensures !AnyOver(Iterate(w, cap, t0 + k), cap)
  {
    var v := Iterate(w, cap, t0 + k);
    if AnyOver(v, cap) {
      Converges(w, cap, c, 1.0 - c, t0, t0 + k);
      LosingStepsDown(w, cap, c, t0 + k, step);
      EndBound(w, cap, t0, k, step, p, worn);
      ViolationOvershoots(v, cap);
      assert false;
    }
  }

  lemma EndBound(w: seq<real>, cap: real, t0: nat, k: nat, step: real, p: real, worn: real)
    requires cap > 0.0 && StepsDown(w, cap, step, t0 + k) && Settling(Iterate(w, cap, t0), cap, p)
    requires AnyOver(Iterate(w, cap, t0 + k), cap) && worn == WornOff(k, step)
    ensures Overshoot(Iterate(w, cap, t0 + k), cap) <= Slack(cap) + p - worn
  {
    if !AnyOver(Iterate(w, cap, t0), cap) {
      SettledStays(w, cap, t0, t0 + k);
    }
    LosesSteadily(w, cap, t0, k, step, worn);
  }

  lemma {:induction false} OvershootBelowTotal(w: seq<real>, cap: real)
    requires NonNegative(w) && cap >= 0.0
    ensures 0.0 <= Overshoot(w, cap) <= Sum(w)
  {
    if w != [] {
      OvershootBelowTotal(w[..|w| - 1], cap);
    }
  }

  lemma {:induction false} WeightBelowOvershoot(w: seq<real>, cap: real, i: nat)
    requires i < |w|
    ensures w[i] <= cap + Overshoot(w, cap)
    decreases |w|
  {
    OvershootNonNegative(w[..|w| - 1], cap);
    if i < |w| - 1 {
      WeightBelowOvershoot(w[..|w| - 1], cap, i);
    }
  }

  lemma {:induction false} OvershootNonNegative(w: seq<real>, cap: real)
    ensures Overshoot(w, cap) >= 0.0
  {
    if w != [] {
      OvershootNonNegative(w[..|w| - 1], cap);
    }
  }

  ghost predicate BoundedWeighting(r: seq<real>, limit: real) {
    Weighting(r) && forall i :: 0 <= i < |r| ==> r[i] <= limit
  }

  lemma IterateBounded(w: seq<real>, cap: real, c: real, n: nat)
    requires Weighting(w) && cap > 0.0 && !AllOver(w, cap)
    requires 0.0 <= c <= 1.0 && AlwaysLoses(w, cap, c, n)
    ensures BoundedWeighting(Iterate(w, cap, n), cap + Slack(cap) + Pow(1.0 - c, n))
  {
    var r, p := Iterate(w, cap, n), Pow(1.0 - c, n);
    Converges(w, cap, c, 1.0 - c, n, n);
    TotalKeptIff(w, cap, n);
    PowNonNegative(1.0 - c, n);
    SlackAboveTolerance(cap, r);
    forall i | 0 <= i < |r| ensures r[i] <= cap + Slack(cap) + p {
      WeightBelowOvershoot(r, cap, i);
      assert AnyOver(r, cap) || !Over(r[i], cap);
    }
  }

  /** Nobody in a weighting can be tolerated above the slack. */
  lemma SlackAboveTolerance(cap: real, r: seq<real>)
    requires Weighting(r) && cap > 0.0
    ensures forall i :: 0 <= i < |r| && !Over(r[i], cap) ==> r[i] <= cap + Slack(cap)
  {
    forall i | 0 <= i < |r| && !Over(r[i], cap) ensures r[i] <= cap + Slack(cap) {
      assert Slack(cap) > 0.0;
      var s := Slack(cap);
      var k := s * r[i];
      PartBelowTotal(r, i);
      ToleratedOne(r[i], cap, s, k);
      OrderedProducts(r[i], 1.0, s, k, s);
    }
  }

  lemma {:induction false} PartBelowTotal(w: seq<real>, i: nat)
    requires NonNegative(w) && i < |w|
    ensures w[i] <= Sum(w)
    decreases |w|
  {
    if i < |w| - 1 {
      PartBelowTotal(w[..|w| - 1], i);
    } else {
      OvershootBelowTotal(w[..|w| - 1], 0.0);
    }
  }

  // ----- when the positive names can carry the weight -----

  lemma CarriableRoundLoses(v: seq<real>, cap: real, floor: real)
    requires Carriable(v, cap) && FlooredAt(v, cap, floor)
    ensures Loses(v, cap, floor)
  {
    if AnyOver(v, cap) {
      var r, e := Rate(v, cap), Excess(v, cap);
      var loss := floor * e;
      RoundShrinksOvershoot(v, cap, floor, r, e, loss);
      LosesWhenSpreadDoes(v, cap, floor, r, e, loss);
    }
  }

  lemma LosesWhenSpreadDoes(v: seq<real>, cap: real, c: real, r: real, e: real, loss: real)
    requires r == Rate(v, cap) && e == Excess(v, cap) && loss == c * e
    requires Overshoot(Spread(v, cap, r), cap) <= Overshoot(v, cap) - loss
    ensures Loses(v, cap, c)
  {
  }

  lemma CarriableLoses(w: seq<real>, cap: real, floor: real, n: nat)
    requires Carriable(w, cap) && FlooredAt(w, cap, floor)
    ensures AlwaysLoses(w, cap, floor, n)
  {
    forall t: nat | t < n ensures Loses(Iterate(w, cap, t), cap, floor) {
      IterateKeeps(w, cap, floor, t);
      CarriableRoundLoses(Iterate(w, cap, t), cap, floor);
    }
  }

  lemma FloorAtMostOne(w: seq<real>, cap: real, floor: real)
    requires Carriable(w, cap) && FlooredAt(w, cap, floor)
    ensures floor <= 1.0
  {
    var j := SmallestIsBelowAverage(w);
    PartBelowTotal(w, j);
  }

  lemma CarriableHasRoom(w: seq<real>, cap: real)
    requires Carriable(w, cap)
    ensures !AllOver(w, cap)
  {
    var j := SomeoneUnderCap(w, cap);
  }

  /**
   * What the code returns when the positive names can carry the whole weight within the cap: a weighting on the same
   * names with total one, no weight further above the cap than the slack and a geometric remainder, and nobody above
   * the cap at all if the rounds suffice to wear that remainder off.
   * `floor` is any lower bound, within the cap, on the positive names' share of the total.
   */
  lemma CappedWeighting(w: seq<real>, cap: real, floor: real)
    requires HasCapacity(w, cap) && FlooredShare(w, cap, floor)
    ensures var r := Capped(w, cap);
            && BoundedWeighting(r, cap + Slack(cap) + Pow(1.0 - floor, ROUNDS))
            && (forall i :: 0 <= i < |w| ==> (r[i] > 0.0 <==> w[i] > 0.0))
            && ((exists t0 :: RoundsSuffice(t0, floor, cap, ROUNDS)) ==> !AnyOver(r, cap))
  {
    var v := LoopInput(w, cap);
    FloorSurvivesScaling(w, cap, v, floor);
    CappedLoop(w, v, cap, floor, ROUNDS);
  }

  /** The positive names can hold the total within the cap, and so can the whole leg with room to spare. */
  ghost predicate HasCapacity(w: seq<real>, cap: real) {
    cap > 0.0 && Capacity(w, cap) >= 1.0 && cap * |w| as real > 1.0
  }

  ghost predicate FlooredShare(w: seq<real>, cap: real, floor: real) {
    0.0 < floor <= cap && forall i :: 0 <= i < |w| && w[i] > 0.0 ==> w[i] >= floor * Sum(Clipped(w))
  }

  lemma CappedLoop(w: seq<real>, v: seq<real>, cap: real, floor: real, n: nat)
    requires Normalised(w, cap) == Some(v) && cap > 0.0 && Carriable(v, cap) && FlooredAt(v, cap, floor)
    ensures var r := Iterate(v, cap, n);
            && |r| == |w| && BoundedWeighting(r, cap + Slack(cap) + Pow(1.0 - floor, n))
            && (forall i :: 0 <= i < |w| ==> (r[i] > 0.0 <==> w[i] > 0.0))
            && ((exists t0 :: RoundsSuffice(t0, floor, cap, n)) ==> !AnyOver(r, cap))
  {
    CarriableHasRoom(v, cap);
    FloorAtMostOne(v, cap, floor);
    CarriableLoses(v, cap, floor, n);
    NormalisedSupport(w, cap, v);
    IterateKeepsSigns(v, cap, n);
    LoopResult(v, cap, floor, n);
  }

  lemma LoopResult(v: seq<real>, cap: real, c: real, rounds: nat)
    requires Weighting(v) && cap > 0.0 && !AllOver(v, cap)
    requires 0.0 <= c <= 1.0 && AlwaysLoses(v, cap, c, rounds)
    ensures BoundedWeighting(Iterate(v, cap, rounds), cap + Slack(cap) + Pow(1.0 - c, rounds))
    ensures (exists t0 :: RoundsSuffice(t0, c, cap, rounds)) ==> !AnyOver(Iterate(v, cap, rounds), cap)
  {
    IterateBounded(v, cap, c, rounds);
    if t0 :| RoundsSuffice(t0, c, cap, rounds) {
      Settles(v, cap, c, t0, rounds);
    }
  }

  // ----- when the small names leave room -----

  /** What the names hold that start at or below `theta`. */
  function SmallTotal(start: seq<real>, w: seq<real>, theta: real): real
    requires |start| == |w|
  {
    if w == [] then 0.0
    else
      var n := |w| - 1;
      SmallTotal(start[..n], w[..n], theta) + if start[n] <= theta then w[n] else 0.0
  }

  /** What the other names never fall below. */
  function BigFloor(start: seq<real>, cap: real, theta: real): real {
    if start == [] then 0.0
    else
      var n := |start| - 1;
      BigFloor(start[..n], cap, theta) + if start[n] <= theta then 0.0 else Min(start[n], cap)
  }

  /** Even if the small names took all that the big ones cannot hold, none would pass half the cap. */
  ghost predicate RoomBelow(start: seq<real>, cap: real, theta: real) {
    && SmallTotal(start, start, theta) > 0.0 && theta > 0.0
    && Fits(theta, 1.0 - BigFloor(start, cap, theta), SmallTotal(start, start, theta), cap)
  }

  /** Names up to `theta` that hold `mu` together stay within half the cap if they grow to hold `left`. */
  predicate Fits(theta: real, left: real, mu: real, cap: real) {
    2.0 * theta * left <= mu * cap
  }

  predicate GrownAt(x0: real, x: real, cap: real, theta: real, factor: real) {
    if x0 <= theta then IsProduct(x, factor, x0) else x >= Min(x0, cap)
  }

  /** All small names have grown by one factor, and the big ones stand above their floors. */
  ghost predicate GrownBySame(start: seq<real>, w: seq<real>, cap: real, theta: real, factor: real) {
    && |start| == |w| && factor >= 1.0
    && forall i :: 0 <= i < |w| ==> GrownAt(start[i], w[i], cap, theta, factor)
  }

  lemma ProductsAdd(p: real, q: real, k: real, a: real, b: real)
    requires IsProduct(p, k, a) && IsProduct(q, k, b)
    ensures IsProduct(p + q, k, a + b)
  {
  }

  /** Multiplying the small names' holdings multiplies their total. */
  lemma {:induction false} SmallTotalScales(start: seq<real>, w: seq<real>, v: seq<real>, theta: real, k: real)
    requires |start| == |w| == |v|
    requires forall i :: 0 <= i < |w| && start[i] <= theta ==> IsProduct(v[i], k, w[i])
    ensures IsProduct(SmallTotal(start, v, theta), k, SmallTotal(start, w, theta))
    decreases |w|
  {
    if w != [] {
      var n := |w| - 1;
      SmallTotalScales(start[..n], w[..n], v[..n], theta, k);
      if start[n] <= theta {
        ProductsAdd(SmallTotal(start[..n], v[..n], theta), v[n], k, SmallTotal(start[..n], w[..n], theta), w[n]);
      }
    }
  }

  lemma {:induction false} SmallPlusBig(start: seq<real>, w: seq<real>, cap: real, theta: real)
    requires |start| == |w| && forall i :: 0 <= i < |w| && start[i] > theta ==> w[i] >= Min(start[i], cap)
    ensures Sum(w) >= SmallTotal(start, w, theta) + BigFloor(start, cap, theta)
    decreases |w|
  {
    if w != [] {
      SmallPlusBig(start[..|w| - 1], w[..|w| - 1], cap, theta);
    }
  }

  /** So the common factor is bounded... */
  lemma RoomBoundsFactor(start: seq<real>, w: seq<real>, cap: real, theta: real, factor: real, top: real)
    requires RoomBelow(start, cap, theta) && GrownBySame(start, w, cap, theta, factor) && Sum(w) == 1.0
    requires IsProduct(top, theta, factor)
    ensures top <= cap / 2.0
    ensures SmallTotal(start, w, theta) >= SmallTotal(start, start, theta)
  {
    var mu, nu, held := SmallTotal(start, start, theta), BigFloor(start, cap, theta), SmallTotal(start, w, theta);
    assert IsProduct(held, factor, mu) && held <= 1.0 - nu by { SmallHeld(start, w, cap, theta, factor, mu, nu, held); }
    FactorBound(factor, mu, nu, theta, cap, held, top);
  }

  lemma SmallHeld(start: seq<real>, w: seq<real>, cap: real, theta: real, factor: real, mu: real, nu: real, held: real)
    requires GrownBySame(start, w, cap, theta, factor) && Sum(w) == 1.0
    requires mu == SmallTotal(start, start, theta) && nu == BigFloor(start, cap, theta)
    requires held == SmallTotal(start, w, theta)
    ensures IsProduct(held, factor, mu) && held <= 1.0 - nu
  {
    forall i | 0 <= i < |w|
      ensures if start[i] <= theta then IsProduct(w[i], factor, start[i]) else w[i] >= Min(start[i], cap) {
      assert GrownAt(start[i], w[i], cap, theta, factor);
    }
    SmallTotalScales(start, start, w, theta, factor);
    SmallPlusBig(start, w, cap, theta);
  }

  lemma FactorBound(factor: real, mu: real, nu: real, theta: real, cap: real, held: real, top: real)
    requires factor >= 1.0 && mu > 0.0 && theta > 0.0 && IsProduct(held, factor, mu) && held <= 1.0 - nu
    requires Fits(theta, 1.0 - nu, mu, cap) && IsProduct(top, theta, factor)
    ensures top <= cap / 2.0 && held >= mu
  {
    OrderedProducts(1.0, factor, mu, mu, held);
    TopBound(factor, mu, theta, cap, held, top, 1.0 - nu, 2.0 * theta * (1.0 - nu), mu * cap);
  }

  lemma TopBound(factor: real, mu: real, theta: real, cap: real, held: real, top: real,
                 left: real, need: real, have: real)
    requires mu > 0.0 && theta > 0.0 && IsProduct(held, factor, mu) && held <= left
    requires need == 2.0 * theta * left && have == mu * cap && need <= have && IsProduct(top, theta, factor)
    ensures top <= cap / 2.0
  {
    var used := held * theta;
    OrderedProducts(held, left, theta, used, left * theta);
    assert used == top * mu;
    CancelFactor(2.0 * top, cap, mu, 2.0 * used, have);
  }

  /** ...and no small name ever passes half the cap. */
  lemma SmallStaySmall(start: seq<real>, w: seq<real>, cap: real, theta: real, factor: real)
    requires NonNegative(start) && RoomBelow(start, cap, theta)
    requires GrownBySame(start, w, cap, theta, factor) && Sum(w) == 1.0
    ensures forall i :: 0 <= i < |w| && start[i] <= theta ==> start[i] <= w[i] <= cap / 2.0
  {
    var top := theta * factor;
    RoomBoundsFactor(start, w, cap, theta, factor, top);
    SmallWithin(start, w, cap, theta, factor, top);
  }

  lemma SmallWithin(start: seq<real>, w: seq<real>, cap: real, theta: real, factor: real, top: real)
    requires NonNegative(start) && GrownBySame(start, w, cap, theta, factor) && IsProduct(top, theta, factor)
    ensures forall i :: 0 <= i < |w| && start[i] <= theta ==> start[i] <= w[i] <= top
  {
    forall i | 0 <= i < |w| && start[i] <= theta ensures start[i] <= w[i] <= top {
      assert GrownAt(start[i], w[i], cap, theta, factor);
      GrownSmall(start[i], w[i], theta, factor, top);
    }
  }

  lemma GrownSmall(x0: real, x: real, theta: real, factor: real, top: real)
    requires 0.0 <= x0 <= theta && factor >= 1.0 && IsProduct(x, factor, x0) && IsProduct(top, theta, factor)
    ensures x0 <= x <= top
  {
    OrderedProducts(1.0, factor, x0, x0, x);
    OrderedProducts(x0, theta, factor, x, top);
  }

  /** A name with at least its own weight of room absorbs its share of the excess. */
  lemma HalfAbsorbs(x: real, cap: real, rate: real, e: real, k: real)
    requires 0.0 <= x <= cap / 2.0 && 0.0 <= e <= 1.0 && e <= rate && IsProduct(k, e, x)
    ensures x <= cap && k <= Absorbed(x, cap, rate)
  {
    OrderedProducts(e, rate, x, k, rate * x);
    OrderedProducts(e, 1.0, x, k, x);
  }

  /** What the small names absorb, `ks`, is missing from the overshoot after the round. */
  lemma {:induction false} SmallAbsorb(start: seq<real>, w: seq<real>, cap: real, rate: real, theta: real,
                                       ks: seq<real>)
    requires |start| == |w| == |ks| && NonNegative(w) && rate >= 0.0
    requires forall i :: 0 <= i < |w| && start[i] <= theta ==> w[i] <= cap && ks[i] <= Absorbed(w[i], cap, rate)
    ensures Overshoot(Spread(w, cap, rate), cap)
         <= Overshoot(w, cap) - Excess(w, cap) + Handed(w, cap, rate) - SmallTotal(start, ks, theta)
    decreases |w|
  {
    if w != [] {
      var n := |w| - 1;
      SmallAbsorb(start[..n], w[..n], cap, rate, theta, ks[..n]);
      OvershootSplits(w, cap, rate);
      OneAbsorbs(start[n], w[n], cap, rate, theta, ks[n]);
    }
  }

  lemma OneAbsorbs(x0: real, x: real, cap: real, rate: real, theta: real, k: real)
    requires x >= 0.0 && rate >= 0.0 && (x0 <= theta ==> x <= cap && k <= Absorbed(x, cap, rate))
    ensures Max(Share(x, cap, rate) - cap, 0.0)
         <= Max(x - cap, 0.0) - OverPart(x, cap) + HandedOne(x, cap, rate) - (if x0 <= theta then k else 0.0)
  {
    ShareOvershoot(x, cap, rate);
  }

  lemma GrownAtStep(x0: real, x: real, cap: real, theta: real, factor: real, r: real, next: real)
    requires GrownAt(x0, x, cap, theta, factor) && x >= 0.0 && r >= 0.0 && cap > 0.0 && next == factor + r * factor
    requires x0 <= theta ==> x <= cap / 2.0
    ensures GrownAt(x0, Share(x, cap, r), cap, theta, next)
  {
    if x0 <= theta {
      GrowProduct(factor, r, x0, x, next);
    } else {
      ShareKeepsSign(x, cap, r);
    }
  }

  lemma GrowProduct(factor: real, r: real, x: real, y: real, next: real)
    requires IsProduct(y, factor, x) && next == factor + r * factor
    ensures IsProduct(y + r * y, next, x)
  {
  }

  lemma GrownBySameStep(start: seq<real>, w: seq<real>, cap: real, theta: real, factor: real) returns (next: real)
    requires NonNegative(start) && RoomBelow(start, cap, theta) && cap > 0.0
    requires Weighting(w) && GrownBySame(start, w, cap, theta, factor)
    ensures GrownBySame(start, Round(w, cap), cap, theta, next)
  {
    next := factor;
    if AnyOver(w, cap) {
      var r := Rate(w, cap);
      RateNonNegative(w, cap);
      SmallStaySmall(start, w, cap, theta, factor);
      next := factor + r * factor;
      assert next >= factor by { SignOfProduct(r, factor, r * factor); }
      forall i | 0 <= i < |w| ensures GrownAt(start[i], Spread(w, cap, r)[i], cap, theta, next) {
        GrownAtStep(start[i], w[i], cap, theta, factor, r, next);
      }
    }
  }

  lemma {:induction false} SmallGrowTogether(start: seq<real>, cap: real, theta: real, t: nat) returns (factor: real)
    requires Weighting(start) && RoomBelow(start, cap, theta) && cap > 0.0 && !AllOver(start, cap)
    ensures GrownBySame(start, Iterate(start, cap, t), cap, theta, factor)
    decreases t
  {
    if t == 0 {
      factor := 1.0;
    } else {
      factor := SmallGrowTogether(start, cap, theta, t - 1);
      TotalKeptIff(start, cap, t - 1);
      factor := GrownBySameStep(start, Iterate(start, cap, t - 1), cap, theta, factor);
    }
  }

  lemma {:induction false} SomeSmall(start: seq<real>, cap: real, theta: real) returns (j: nat)
    requires SmallTotal(start, start, theta) > 0.0
    ensures j < |start| && 0.0 < start[j] <= theta
    decreases |start|
  {
    var n := |start| - 1;
    if 0.0 < start[n] <= theta {
      j := n;
    } else {
      j := SomeSmall(start[..n], cap, theta);
    }
  }

  /** Some small name is always there to receive. */
  lemma SmallLeaveRoom(start: seq<real>, w: seq<real>, cap: real, theta: real, factor: real)
    requires NonNegative(start) && RoomBelow(start, cap, theta) && cap > 0.0
    requires Weighting(w) && GrownBySame(start, w, cap, theta, factor)
    ensures !AllOver(w, cap) && UnderTotal(w, cap) > 0.0
  {
    var j := SomeSmall(start, cap, theta);
    SmallStaySmall(start, w, cap, theta, factor);
    assert !Over(w[j], cap) && w[j] > 0.0;
    UnderTotalAtLeast(w, cap, j);
  }

  /** Every violating round leaves at least their starting share of the excess with the small names. */
  lemma SmallRoundLoses(start: seq<real>, w: seq<real>, cap: real, theta: real, factor: real, mu: real)
    requires NonNegative(start) && RoomBelow(start, cap, theta) && cap > 0.0 && mu == SmallTotal(start, start, theta)
    requires Weighting(w) && GrownBySame(start, w, cap, theta, factor)
    ensures Loses(w, cap, mu) && mu <= 1.0
  {
    var held := SmallTotal(start, w, theta);
    SmallLeaveRoom(start, w, cap, theta, factor);
    SmallStaySmall(start, w, cap, theta, factor);
    RoomBoundsFactor(start, w, cap, theta, factor, theta * factor);
    SmallBelowTotal(start, w, theta);
    RoundWithRoom(start, w, cap, theta, Rate(w, cap), Excess(w, cap), held, mu);
  }

  lemma RoundWithRoom(start: seq<real>, w: seq<real>, cap: real, theta: real, r: real, e: real, held: real, mu: real)
    requires |start| == |w| && Weighting(w) && cap > 0.0 && UnderTotal(w, cap) > 0.0
    requires r == Rate(w, cap) && e == Excess(w, cap) && held == SmallTotal(start, w, theta) && mu <= held
    requires forall i :: 0 <= i < |w| && start[i] <= theta ==> w[i] <= cap / 2.0
    ensures Loses(w, cap, mu)
  {
    RoundHandsOut(w, cap, r, e);
    var absorbed := e * held;
    SmallShareAbsorbed(start, w, cap, theta, r, e, held, absorbed);
    LosesWhenAbsorbed(w, cap, mu, r, e, held, absorbed);
  }

  /** With someone to receive, a round hands out exactly the excess. */
  lemma RoundHandsOut(w: seq<real>, cap: real, r: real, e: real)
    requires Weighting(w) && cap > 0.0 && UnderTotal(w, cap) > 0.0 && r == Rate(w, cap) && e == Excess(w, cap)
    ensures Handed(w, cap, r) == e && 0.0 <= e <= 1.0 && e <= r
  {
    ExcessBounds(w, cap);
    RateIsExact(w, cap);
  }

  lemma SmallShareAbsorbed(start: seq<real>, w: seq<real>, cap: real, theta: real, r: real, e: real, held: real,
                           absorbed: real)
    requires |start| == |w| && NonNegative(w) && 0.0 <= e <= 1.0 && e <= r
    requires held == SmallTotal(start, w, theta) && IsProduct(absorbed, e, held)
    requires forall i :: 0 <= i < |w| && start[i] <= theta ==> w[i] <= cap / 2.0
    ensures Overshoot(Spread(w, cap, r), cap) <= Overshoot(w, cap) - Excess(w, cap) + Handed(w, cap, r) - absorbed
  {
    var ks := SharesOf(w, e);
    forall i | 0 <= i < |w| && start[i] <= theta ensures w[i] <= cap && ks[i] <= Absorbed(w[i], cap, r) {
      assert IsProduct(ks[i], e, w[i]);
      HalfAbsorbs(w[i], cap, r, e, ks[i]);
    }
    SmallAbsorb(start, w, cap, r, theta, ks);
    SmallTotalScales(start, w, ks, theta, e);
  }

  lemma SharesOf(w: seq<real>, e: real) returns (ks: seq<real>)
    ensures |ks| == |w| && forall i :: 0 <= i < |w| ==> IsProduct(ks[i], e, w[i])
  {
    ks := seq(|w|, i requires 0 <= i < |w| => e * w[i]);
  }

  lemma LosesWhenAbsorbed(w: seq<real>, cap: real, mu: real, r: real, e: real, held: real, absorbed: real)
    requires r == Rate(w, cap) && e == Excess(w, cap) && e >= 0.0 && mu <= held && IsProduct(absorbed, e, held)
    requires Overshoot(Spread(w, cap, r), cap) <= Overshoot(w, cap) - absorbed
    ensures Loses(w, cap, mu)
  {
    var loss := mu * e;
    OrderedProducts(mu, held, e, loss, absorbed);
    LosesWhenSpreadDoes(w, cap, mu, r, e, loss);
  }

  lemma {:induction false} SmallBelowTotal(start: seq<real>, w: seq<real>, theta: real)
    requires |start| == |w| && NonNegative(w)
    ensures SmallTotal(start, w, theta) <= Sum(w)
    decreases |w|
  {
    if w != [] {
      SmallBelowTotal(start[..|w| - 1], w[..|w| - 1], theta);
    }
  }

  /**
   * The documented result in full, from a condition on the input alone: some threshold leaves the names at or below it
   * room to take all the others cannot hold without passing half the cap, and the share they start with is large
   * enough for the hundred rounds. Then the result has total one and nobody above the cap.
   */
  lemma PromiseKept(w: seq<real>, cap: real, theta: real, t0: nat)
    requires cap > 0.0 && Normalised(w, cap).Some? && RoomBelow(Normalised(w, cap).value, cap, theta)
    requires var v := Normalised(w, cap).value; RoundsSuffice(t0, SmallTotal(v, v, theta), cap, ROUNDS)
    ensures Weighting(Capped(w, cap)) && !AnyOver(Capped(w, cap), cap)
    ensures forall i :: 0 <= i < |w| ==> 0.0 <= Capped(w, cap)[i] <= cap + 0.000000000001
  {
    var v := Normalised(w, cap).value;
    NormalisedIsWeighting(w, cap, v);
    LoopKeepsPromise(v, cap, theta, SmallTotal(v, v, theta), t0, ROUNDS);
  }

  lemma LoopKeepsPromise(v: seq<real>, cap: real, theta: real, mu: real, t0: nat, rounds: nat)
    requires Weighting(v) && cap > 0.0 && RoomBelow(v, cap, theta) && mu == SmallTotal(v, v, theta)
    requires RoundsSuffice(t0, mu, cap, rounds)
    ensures Weighting(Iterate(v, cap, rounds)) && !AnyOver(Iterate(v, cap, rounds), cap)
  {
    SmallRoundLoses(v, v, cap, theta, 1.0, mu);
    SmallLeaveRoom(v, v, cap, theta, 1.0);
    forall t: nat | t < rounds ensures Loses(Iterate(v, cap, t), cap, mu) {
      var factor := SmallGrowTogether(v, cap, theta, t);
      TotalKeptIff(v, cap, t);
      SmallRoundLoses(v, Iterate(v, cap, t), cap, theta, factor, mu);
    }
    TotalKeptIff(v, cap, rounds);
    Settles(v, cap, mu, t0, rounds);
  }

  lemma {:induction false} PowAdd(x: real, m: nat, n: nat)
    ensures Pow(x, m + n) == Pow(x, m) * Pow(x, n)
    decreases m
  {
    if m > 0 {
      PowAdd(x, m - 1, n);
      var a, b := Pow(x, m - 1), Pow(x, n);
      assert x * (a * b) == (x * a) * b;
    }
  }

  lemma PowDouble(x: real, n: nat, m: nat, p: real, q: real)
    requires x >= 0.0 && Pow(x, n) <= p && p * p <= q && m == n + n
    ensures Pow(x, m) <= q
  {
    PowAdd(x, n, n);
    PowNonNegative(x, n);
    ProductMonotone(Pow(x, n), p, Pow(x, n), p);
  }

  lemma SixtyFourRounds(n: nat)
    requires n == 64
    ensures Pow(0.52, n) <= 0.00000000000001
  {
    assert Pow(0.52, 1) == 0.52 * Pow(0.52, 0);
    PowDouble(0.52, 1, 2, 0.52, 0.2704);
    PowDouble(0.52, 2, 4, 0.2704, 0.08);
    PowDouble(0.52, 4, 8, 0.08, 0.0064);
    PowDouble(0.52, 8, 16, 0.0064, 0.00005);
    PowDouble(0.52, 16, 32, 0.00005, 0.0000000025);
    PowDouble(0.52, 32, n, 0.0000000025, 0.00000000000001);
  }

  /** Such inputs exist: one name just above a cap of one half, four sharing the rest. */
  lemma PromiseReached()
    ensures var w := [0.52, 0.12, 0.12, 0.12, 0.12];
            AnyOver(w, 0.5) && Weighting(Capped(w, 0.5)) && !AnyOver(Capped(w, 0.5), 0.5)
  {
    var w := [0.52, 0.12, 0.12, 0.12, 0.12];
    assert w[..4] == [0.52, 0.12, 0.12, 0.12] && w[..4][..3] == [0.52, 0.12, 0.12];
    assert w[..4][..3][..2] == [0.52, 0.12] && w[..4][..3][..2][..1] == [0.52];
    assert Sum([0.52]) == 0.52 && BigFloor([0.52], 0.5, 0.12) == 0.5 && SmallTotal([0.52], [0.52], 0.12) == 0.0;
    assert Sum([0.52, 0.12]) == 0.64 && Sum([0.52, 0.12, 0.12]) == 0.76 && Sum(w) == 1.0;
    assert BigFloor([0.52, 0.12, 0.12], 0.5, 0.12) == 0.5 && BigFloor(w, 0.5, 0.12) == 0.5;
    assert SmallTotal([0.52, 0.12, 0.12], [0.52, 0.12, 0.12], 0.12) == 0.24 && SmallTotal(w, w, 0.12) == 0.48;
    assert Over(w[0], 0.5);
    assert Clipped(w) == w && Scaled(w, 1.0) == w;
    SixtyFourRounds(64);
    PromiseKept(w, 0.5, 0.12, 64);
  }

  lemma FloorSurvivesScaling(w: seq<real>, cap: real, v: seq<real>, floor: real)
    requires Normalised(w, cap) == Some(v) && FlooredShare(w, cap, floor)
    ensures FlooredAt(v, cap, floor)
  {
    NormalisedSupport(w, cap, v);
    forall i | 0 <= i < |v| && v[i] > 0.0 ensures v[i] >= floor {
      QuotientAtLeast(w[i], Sum(Clipped(w)), floor);
    }
  }

  lemma QuotientAtLeast(a: real, s: real, floor: real)
    requires s > 0.0 && a >= floor * s
    ensures a / s >= floor
  {
    assert a / s * s == a;
    assert (a / s - floor) * s >= 0.0;
  }

  /** Enough capacity means the equal-weight fallback is not taken. */
  lemma LoopInput(w: seq<real>, cap: real) returns (v: seq<real>)
    requires HasCapacity(w, cap)
    ensures Normalised(w, cap) == Some(v) && Carriable(v, cap) && Positives(v) == Positives(w) > 0
  {
    PositiveTotal(w);
    v := Scaled(Clipped(w), Sum(Clipped(w)));
    NormalisedIsWeighting(w, cap, v);
  }

  lemma {:induction false} PositiveTotal(w: seq<real>)
    ensures Sum(Clipped(w)) >= 0.0
    ensures Positives(w) > 0 ==> Sum(Clipped(w)) > 0.0
  {
    if w != [] {
      var n := |w| - 1;
      PositiveTotal(w[..n]);
      assert Clipped(w)[..n] == Clipped(w[..n]);
    }
  }

  lemma {:induction false} PowNonNegative(x: real, n: nat)
    requires x >= 0.0
    ensures Pow(x, n) >= 0.0
  {
    if n > 0 {
      PowNonNegative(x, n - 1);
      assert x * Pow(x, n - 1) >= 0.0;
    }
  }

  lemma NormalisedSupport(w: seq<real>, cap: real, v: seq<real>)
    requires Normalised(w, cap) == Some(v)
    ensures |v| == |w| && forall i :: 0 <= i < |w| ==> (v[i] > 0.0 <==> w[i] > 0.0)
  {
    var s := Sum(Clipped(w));
    forall i | 0 <= i < |w| ensures v[i] > 0.0 <==> w[i] > 0.0 {
      SignOfQuotient(Clipped(w)[i], s);
    }
  }

  /** The loop's input is a weighting: non-negative with total one. */
  lemma NormalisedIsWeighting(w: seq<real>, cap: real, v: seq<real>)
    requires Normalised(w, cap) == Some(v)
    ensures NonNegative(v) && Sum(v) == 1.0 && Positives(v) == Positives(w)
  {
    NormalisedSupport(w, cap, v);
    SameSupport(w, v);
    NormalisedTotal(Clipped(w), Sum(Clipped(w)));
  }

  lemma NormalisedTotal(w: seq<real>, s: real)
    requires s == Sum(w) && s > 0.0 && NonNegative(w)
    ensures NonNegative(Scaled(w, s)) && Sum(Scaled(w, s)) == 1.0
  {
    forall i | 0 <= i < |w| ensures Scaled(w, s)[i] >= 0.0 {
      SignOfQuotient(w[i], s);
    }
    SumOfScaled(w, s);
    assert s / s == 1.0;
  }

  lemma {:induction false} SumOfScaled(w: seq<real>, s: real)
    requires s > 0.0
    ensures Sum(Scaled(w, s)) == Sum(w) / s
  {
    if w != [] {
      var n := |w| - 1;
      SumOfScaled(w[..n], s);
      assert Scaled(w, s)[..n] == Scaled(w[..n], s);
      assert Sum(w[..n]) / s + w[n] / s == (Sum(w[..n]) + w[n]) / s;
    }
  }

  // ----- the method -----

  function MaskedSum(v: seq<real>, over: seq<bool>): real
    requires |v| == |over|
  {
    if v == [] then 0.0
    else MaskedSum(v[..|v| - 1], over[..|v| - 1]) + if over[|v| - 1] then 0.0 else v[|v| - 1]
  }

  lemma {:induction false} MaskedOthers(w: seq<real>, v: seq<real>, over: seq<bool>, cap: real)
    requires |w| == |v| == |over|
    requires forall i :: 0 <= i < |w| ==> over[i] == Over(w[i], cap) && (!over[i] ==> v[i] == w[i])
    ensures MaskedSum(v, over) == UnderTotal(w, cap)
    decreases |w|
  {
    if w != [] {
      var n := |w| - 1;
      MaskedOthers(w[..n], v[..n], over[..n], cap);
    }
  }

  function CappedAt(w: seq<real>, over: seq<bool>, cap: real): (v: seq<real>)
    requires |over| == |w|
    ensures |v| == |w|
  {
    seq(|w|, k requires 0 <= k < |w| => if over[k] then cap else w[k])
  }

  function Grown(x: real, excess: real, u: real): real
    requires u != 0.0
  {
    x + excess * x / u
  }

  function GrownBy(w: seq<real>, over: seq<bool>, excess: real, u: real): (v: seq<real>)
    requires |over| == |w| && u != 0.0
    ensures |v| == |w|
  {
    seq(|w|, k requires 0 <= k < |w| => if over[k] then w[k] else Grown(w[k], excess, u))
  }

  /** `w[over] = cap`. */
  method CapViolators(v: array<real>, over: seq<bool>, cap: real)
    requires |over| == v.Length
    modifies v
    ensures v[..] == CappedAt(old(v[..]), over, cap)
  {
    for i := 0 to v.Length
      invariant forall k :: 0 <= k < v.Length ==> v[k] == if k < i && over[k] then cap else old(v[k])
    {
      if over[i] {
        v[i] := cap;
      }
    }
  }

  /** `w[under] = w[under] + excess * w[under] / u`. */
  method GrowOthers(v: array<real>, over: seq<bool>, excess: real, u: real)
    requires |over| == v.Length && u > 0.0
    modifies v
    ensures v[..] == GrownBy(old(v[..]), over, excess, u)
  {
    for i := 0 to v.Length
      invariant forall k :: 0 <= k < v.Length ==>
                  v[k] == if k < i && !over[k] then Grown(old(v[k]), excess, u) else old(v[k])
    {
      if !over[i] {
        v[i] := Grown(v[i], excess, u);
      }
    }
  }

  ghost predicate IsMask(w: seq<real>, over: seq<bool>, cap: real) {
    |over| == |w| && forall i :: 0 <= i < |w| ==> over[i] == Over(w[i], cap)
  }

  /** The loop body: cap the violators in place, then grow the others; false at either exit. */
  method RoundInPlace(v: array<real>, cap: real) returns (again: bool)
    modifies v
    ensures v[..] == Round(old(v[..]), cap)
    ensures !again ==> !AnyOver(v[..], cap)
  {
    ghost var w := v[..];
    var over := seq(v.Length, i requires 0 <= i < v.Length reads v => Over(v[i], cap));
    assert IsMask(w, over, cap);
    if true !in over {
      assert !AnyOver(w, cap);
      return false;
    }
    var excess := Excess(v[..], cap);
    CapViolators(v, over, cap);
    var u := MaskedSum(v[..], over);
    MaskedIsUnderTotal(w, over, cap);
    if u <= 0.0 {
      NobodyToGrow(w, over, cap);
      return false;
    }
    GrowOthers(v, over, excess, u);
    OthersGrown(w, over, cap, excess, u);
    again := true;
  }

  lemma MaskedIsUnderTotal(w: seq<real>, over: seq<bool>, cap: real)
    requires IsMask(w, over, cap)
    ensures MaskedSum(CappedAt(w, over, cap), over) == UnderTotal(w, cap)
  {
    MaskedOthers(w, CappedAt(w, over, cap), over, cap);
  }

  lemma NobodyToGrow(w: seq<real>, over: seq<bool>, cap: real)
    requires IsMask(w, over, cap) && true in over && UnderTotal(w, cap) <= 0.0
    ensures CappedAt(w, over, cap) == Round(w, cap) && !AnyOver(Round(w, cap), cap)
  {
    var bad :| 0 <= bad < |w| && over[bad];
    assert Over(w[bad], cap);
    assert CappedAt(w, over, cap) == Spread(w, cap, 0.0);
  }

  lemma OthersGrown(w: seq<real>, over: seq<bool>, cap: real, excess: real, u: real)
    requires IsMask(w, over, cap) && true in over && u == UnderTotal(w, cap) && u > 0.0 && excess == Excess(w, cap)
    ensures GrownBy(CappedAt(w, over, cap), over, excess, u) == Round(w, cap)
  {
    var bad :| 0 <= bad < |w| && over[bad];
    assert Over(w[bad], cap);
    GrownIsSpread(w, over, cap, excess, u, excess / u);
  }

  lemma GrownIsSpread(w: seq<real>, over: seq<bool>, cap: real, excess: real, u: real, rate: real)
    requires IsMask(w, over, cap) && u > 0.0 && rate == excess / u
    ensures GrownBy(CappedAt(w, over, cap), over, excess, u) == Spread(w, cap, rate)
  {
    forall k | 0 <= k < |w| ensures GrownBy(CappedAt(w, over, cap), over, excess, u)[k] == Share(w[k], cap, rate) {
      SpreadAsCoded(excess, w[k], u, rate);
    }
  }

  lemma SpreadAsCoded(excess: real, x: real, u: real, rate: real)
    requires u > 0.0 && rate == excess / u
    ensures excess * x / u == rate * x
  {
  }

  lemma {:induction false} SettledStays(w: seq<real>, cap: real, t: nat, n: nat)
    requires t <= n && !AnyOver(Iterate(w, cap, t), cap)
    ensures Iterate(w, cap, n) == Iterate(w, cap, t)
    decreases n
  {
    if t < n {
      SettledStays(w, cap, t, n - 1);
    }
  }

  /** What the positive names weigh together. */
  function PositiveSum(w: seq<real>): real {
    if w == [] then 0.0
    else PositiveSum(w[..|w| - 1]) + if w[|w| - 1] > 0.0 then w[|w| - 1] else 0.0
  }

  lemma {:induction false} PositiveSumIsClippedSum(w: seq<real>)
    ensures PositiveSum(w) == Sum(Clipped(w))
    ensures PositiveSum(w) >= 0.0
    ensures PositiveSum(w) > 0.0 <==> exists i :: 0 <= i < |w| && w[i] > 0.0
  {
    if w != [] {
      var n := |w| - 1;
      PositiveSumIsClippedSum(w[..n]);
      assert Clipped(w)[..n] == Clipped(w[..n]);
      assert forall i :: 0 <= i < n ==> w[..n][i] == w[i];
    }
  }

  /** Without a positive name, or with too tight a cap, every name gets the same weight. */
  lemma FallbackIsEven(w: seq<real>, cap: real)
    requires (forall i :: 0 <= i < |w| ==> w[i] <= 0.0) || cap * |w| as real <= 1.0
    ensures forall i :: 0 <= i < |w| ==> Capped(w, cap)[i] == 1.0 / |w| as real
  {
    PositiveSumIsClippedSum(w);
  }

  /** With nobody above the cap at the start, the result is every name's share of the positive total. */
  lemma NothingToCap(w: seq<real>, cap: real, total: real, limit: real)
    requires cap > 0.0 && cap * |w| as real > 1.0 && total == PositiveSum(w) && total > 0.0
    requires IsProduct(limit, cap + 0.000000000001, total) && forall k :: 0 <= k < |w| ==> w[k] <= limit
    ensures forall i :: 0 <= i < |w| ==> Capped(w, cap)[i] == Max(w[i], 0.0) / total
  {
    NoFallback(w, cap);
    var v := Normalised(w, cap).value;
    SharesOfTotal(w, cap, total);
    NobodyOver(v, w, cap, total, limit);
    StaysPut(v, cap, ROUNDS);
    CappedRuns(w, cap, v);
  }

  /** With a positive name and room for the total the rounds run, a hundred at most. */
  lemma NoFallback(w: seq<real>, cap: real)
    requires PositiveSum(w) > 0.0 && cap * |w| as real > 1.0
    ensures Normalised(w, cap).Some? && |Normalised(w, cap).value| == |w|
    ensures Capped(w, cap) == Iterate(Normalised(w, cap).value, cap, 100)
    ensures forall k :: 0 <= k < |w| ==> Normalised(w, cap).value[k] == Max(w[k], 0.0) / PositiveSum(w)
  {
    PositiveSumIsClippedSum(w);
  }

  lemma CappedRuns(w: seq<real>, cap: real, v: seq<real>)
    requires Normalised(w, cap) == Some(v)
    ensures Capped(w, cap) == Iterate(v, cap, ROUNDS)
  {
  }

  lemma NobodyOver(v: seq<real>, w: seq<real>, cap: real, total: real, limit: real)
    requires |v| == |w| && cap > 0.0 && total > 0.0 && IsProduct(limit, cap + 0.000000000001, total)
    requires forall k :: 0 <= k < |w| ==> w[k] <= limit && v[k] == Max(w[k], 0.0) / total
    ensures forall k :: 0 <= k < |v| ==> !Over(v[k], cap)
  {
    forall k | 0 <= k < |w| ensures !Over(v[k], cap) {
      WithinTolerance(Max(w[k], 0.0), total, cap + TINY, limit, v[k]);
    }
  }

  lemma SharesOfTotal(w: seq<real>, cap: real, total: real)
    requires Normalised(w, cap).Some? && total == PositiveSum(w) && total > 0.0
    ensures |Normalised(w, cap).value| == |w|
    ensures forall k :: 0 <= k < |w| ==> Normalised(w, cap).value[k] == Max(w[k], 0.0) / total
  {
    PositiveSumIsClippedSum(w);
  }

  lemma StaysPut(v: seq<real>, cap: real, n: nat)
    requires forall k :: 0 <= k < |v| ==> !Over(v[k], cap)
    ensures Iterate(v, cap, n) == v
  {
    SettledStays(v, cap, 0, n);
  }

  lemma WithinTolerance(x: real, total: real, top: real, limit: real, v: real)
    requires total > 0.0 && top > 0.0 && IsProduct(limit, top, total) && x <= Max(limit, 0.0) && v == x / total
    ensures v <= top
  {
    SignOfProduct(top, total, limit);
    TimesBack(x, total);
    CancelFactor(v, top, total, x, limit);
  }

  lemma TimesBack(x: real, total: real)
    requires total > 0.0
    ensures x / total * total == x
  {
  }

  /** `_cap_weights`, and what it returns when it falls back. */
  method CapWeights(w: seq<real>, cap: real) returns (r: seq<real>)
    ensures r == Capped(w, cap)
    ensures |r| == |w|
    ensures (forall i :: 0 <= i < |w| ==> w[i] <= 0.0) || cap * |w| as real <= 1.0 ==>
              forall i :: 0 <= i < |w| ==> r[i] == 1.0 / |w| as real
  {
    r := CapOrSpread(w, cap);
    if (forall i :: 0 <= i < |w| ==> w[i] <= 0.0) || cap * |w| as real <= 1.0 {
      FallbackIsEven(w, cap);
    }
  }

  /** Clip, normalise, and cap in place for at most a hundred rounds. */
  method CapOrSpread(w: seq<real>, cap: real) returns (r: seq<real>)
    ensures r == Capped(w, cap)
  {
    var clipped := Clipped(w);
    var s := Sum(clipped);
    if s <= 0.0 || |w| == 0 {
      return EqualWeights(|w|);
    }
    var start := Scaled(clipped, s);
    if cap * |w| as real <= 1.0 {
      return EqualWeights(|w|);
    }
    var v := new real[|w|](i requires 0 <= i < |w| => start[i]);
    assert v[..] == start;
    var t, again := 0, true;
    while t < ROUNDS && again
      invariant t <= ROUNDS && v[..] == Iterate(start, cap, t)
      invariant !again ==> !AnyOver(v[..], cap)
      decreases ROUNDS - t, again
    {
      again := RoundInPlace(v, cap);
      t := t + 1;
    }
    if t < ROUNDS {
      SettledStays(start, cap, t, ROUNDS);
    }
    r := v[..];
  }

  // ----- exactly when the total stays one -----

  /** Every positive name is above the cap: nobody is left to receive the excess. */
  ghost predicate AllOver(w: seq<real>, cap: real) {
    forall i :: 0 <= i < |w| && w[i] > 0.0 ==> Over(w[i], cap)
  }

  lemma {:induction false} NobodyUnder(w: seq<real>, cap: real)
    requires NonNegative(w) && AllOver(w, cap)
    ensures UnderTotal(w, cap) == 0.0
  {
    if w != [] {
      NobodyUnder(w[..|w| - 1], cap);
    }
  }

  /** A round keeps the total at one unless every positive name is above the cap; then it stops below one. */
  lemma RoundKeepsTotalIff(w: seq<real>, cap: real)
    requires NonNegative(w) && Sum(w) == 1.0 && cap > 0.0
    ensures NonNegative(Round(w, cap))
    ensures if AllOver(w, cap) then Sum(Round(w, cap)) < 1.0 && !AnyOver(Round(w, cap), cap)
            else Sum(Round(w, cap)) == 1.0
  {
    var j := SmallestIsBelowAverage(w);
    ExcessBounds(w, cap);
    if AllOver(w, cap) {
      assert AnyOver(w, cap) by { assert Over(w[j], cap); }
      NobodyUnder(w, cap);
      ViolationHasExcess(w, cap);
      HandedIsProRata(w, cap, 0.0);
      SpreadTotal(w, cap, 0.0);
      SpreadKeepsSigns(w, cap, 0.0);
    } else if AnyOver(w, cap) {
      var k :| 0 <= k < |w| && w[k] > 0.0 && !Over(w[k], cap);
      UnderTotalAtLeast(w, cap, k);
      RateIsExact(w, cap);
      SpreadTotal(w, cap, Rate(w, cap));
      SpreadKeepsSigns(w, cap, Rate(w, cap));
    }
  }

  /** One round in full: a name above the tolerated cap comes down to it, the others grow and keep their proportions. */
  lemma RoundOutright(w: seq<real>, cap: real, i: nat, j: nat)
    requires NonNegative(w) && cap > 0.0 && i < |w| && j < |w|
    ensures w[i] > cap + 0.000000000001 ==> Round(w, cap)[i] == cap
    ensures w[i] <= cap + 0.000000000001 ==> Round(w, cap)[i] >= w[i]
    ensures w[i] <= cap + 0.000000000001 && w[j] <= cap + 0.000000000001 ==>
              Round(w, cap)[i] * w[j] == Round(w, cap)[j] * w[i]
  {
    if AnyOver(w, cap) {
      var r := Rate(w, cap);
      RateNonNegative(w, cap);
      ShareOutright(w[i], w[j], cap, r);
    }
  }

  lemma ShareOutright(x: real, y: real, cap: real, r: real)
    requires x >= 0.0 && r >= 0.0
    ensures !Over(x, cap) ==> Share(x, cap, r) >= x
    ensures !Over(x, cap) && !Over(y, cap) ==> Share(x, cap, r) * y == Share(y, cap, r) * x
  {
    SignOfProduct(r, x, r * x);
    ProRata(x, y, r);
  }

  lemma ProRata(x: real, y: real, r: real)
    ensures (x + r * x) * y == (y + r * y) * x
  {
  }

  /** Violators leave a round at the cap, so no later round finds everybody above it. */
  lemma NotAllOverAgain(w: seq<real>, cap: real)
    requires Weighting(w) && cap > 0.0
    ensures !AllOver(Round(w, cap), cap)
  {
    var j := SmallestIsBelowAverage(w);
    if AnyOver(w, cap) {
      var i :| 0 <= i < |w| && Over(w[i], cap);
      assert Round(w, cap)[i] == cap;
    } else {
      assert !Over(w[j], cap);
    }
  }

  /** A total below one that no round can change any more. */
  ghost predicate StoppedShort(w: seq<real>, cap: real) {
    Sum(w) < 1.0 && !AnyOver(w, cap)
  }

  /** The total stays one for good unless every positive name starts above the cap; then one round loses it for good. */
  lemma {:induction false} TotalKeptIff(w: seq<real>, cap: real, n: nat)
    requires Weighting(w) && cap > 0.0
    ensures NonNegative(Iterate(w, cap, n))
    ensures if n > 0 && AllOver(w, cap) then StoppedShort(Iterate(w, cap, n), cap) else Sum(Iterate(w, cap, n)) == 1.0
    ensures n > 0 && !AllOver(w, cap) ==> !AllOver(Iterate(w, cap, n), cap)
    decreases n
  {
    if n > 0 {
      var v := Iterate(w, cap, n - 1);
      TotalKeptIff(w, cap, n - 1);
      if Sum(v) == 1.0 {
        RoundKeepsTotalIff(v, cap);
        NotAllOverAgain(v, cap);
      }
    }
  }

  /** A non-empty leg totals one exactly when equal weights are used or some positive name starts within the cap. */
  lemma TotalIsOneIff(w: seq<real>, cap: real)
    requires w != []
    ensures Sum(Capped(w, cap)) == 1.0
       <==> Normalised(w, cap).None? || !AllOver(Normalised(w, cap).value, cap)
  {
    match Normalised(w, cap)
    case None => EqualWeightsTotal(|w|);
    case Some(v) =>
      NormalisedIsWeighting(w, cap, v);
      CapIsPositive(cap, |w| as real, cap * |w| as real);
      TotalKeptIff(v, cap, ROUNDS);
  }

  lemma CapIsPositive(cap: real, n: real, k: real)
    requires n > 0.0 && k == cap * n && k > 1.0
    ensures cap > 0.0
  {
  }

  /** The documented result needs the capacity: with nobody above the cap the names hold no more than it. */
  lemma {:induction false} PromiseNeedsCapacity(r: seq<real>, cap: real, held: real)
    requires NonNegative(r) && !AnyOver(r, cap) && held == Capacity(r, cap + TINY)
    ensures Sum(r) <= held
  {
    if r != [] {
      var n := |r| - 1;
      assert !AnyOver(r[..n], cap);
      assert !Over(r[n], cap);
      if r[n] > 0.0 {
        OneLessBar(Positives(r[..n]) as real, cap + TINY, held);
        PromiseNeedsCapacity(r[..n], cap, held - (cap + TINY));
      } else {
        PromiseNeedsCapacity(r[..n], cap, held);
      }
    }
  }

  /**
   * Once the loop is entered, the documented result, total one with nobody above the cap, is out of reach unless some
   * positive name starts within the cap and the positive names can hold the total within the tolerated cap:
   * without that room somebody ends above the cap.
   */
  lemma SomebodyEndsOver(w: seq<real>, cap: real)
    requires Normalised(w, cap).Some? && !AllOver(Normalised(w, cap).value, cap) && Capacity(w, cap + TINY) < 1.0
    ensures Sum(Capped(w, cap)) == 1.0 && AnyOver(Capped(w, cap), cap)
  {
    var v := Normalised(w, cap).value;
    NormalisedIsWeighting(w, cap, v);
    CapIsPositive(cap, |w| as real, cap * |w| as real);
    TotalKeptIff(v, cap, ROUNDS);
    IterateKeepsSigns(v, cap, ROUNDS);
    SameCapacity(w, Iterate(v, cap, ROUNDS), cap + TINY);
    if !AnyOver(Capped(w, cap), cap) {
      PromiseNeedsCapacity(Capped(w, cap), cap, Capacity(w, cap + TINY));
    }
  }

  lemma SameCapacity(w: seq<real>, v: seq<real>, cap: real)
    requires Positives(v) == Positives(w)
    ensures Capacity(v, cap) == Capacity(w, cap)
  {
  }

  /** The equal-weight fallback sums to one on any non-empty leg. */
  lemma EqualWeightsTotal(n: nat)
    requires n > 0
    ensures Sum(EqualWeights(n)) == 1.0
  {
    SumOfEqual(EqualWeights(n), 1.0 / n as real, n as real * (1.0 / n as real));
    QuotientCancels(1.0, n as real);
  }

  lemma {:induction false} SumOfEqual(w: seq<real>, x: real, total: real)
    requires (forall i :: 0 <= i < |w| ==> w[i] == x) && total == |w| as real * x
    ensures Sum(w) == total
  {
    if w != [] {
      var n := |w| - 1;
      OneLessBar(n as real, x, total);
      SumOfEqual(w[..n], x, total - x);
    }
  }

  // ----- where the documented result is not reached -----

  lemma TwoNames(w: seq<real>, cap: real)
    requires |w| == 2
    ensures Sum(w) == w[0] + w[1]
    ensures Excess(w, cap) == OverPart(w[0], cap) + OverPart(w[1], cap)
    ensures UnderTotal(w, cap) == UnderPart(w[0], cap) + UnderPart(w[1], cap)
    ensures Positives(w) == (if w[0] > 0.0 then 1 else 0) + (if w[1] > 0.0 then 1 else 0)
  {
    var p := w[..1];
    assert p[..0] == [];
    assert Positives(p) == if w[0] > 0.0 then 1 else 0;
    assert Sum(p) == w[0] && Excess(p, cap) == OverPart(w[0], cap) && UnderTotal(p, cap) == UnderPart(w[0], cap);
  }

  lemma ThreeNames(w: seq<real>, cap: real)
    requires |w| == 3
    ensures Sum(w) == w[0] + w[1] + w[2]
    ensures Excess(w, cap) == OverPart(w[0], cap) + OverPart(w[1], cap) + OverPart(w[2], cap)
    ensures UnderTotal(w, cap) == UnderPart(w[0], cap) + UnderPart(w[1], cap) + UnderPart(w[2], cap)
    ensures Positives(w)
         == (if w[0] > 0.0 then 1 else 0) + (if w[1] > 0.0 then 1 else 0) + (if w[2] > 0.0 then 1 else 0)
  {
    TwoNames(w[..2], cap);
  }

  /** A single positive name in a larger leg: the excess has nowhere to go and the total drops to the cap. */
  lemma LoneNameLosesWeight(x: real, cap: real)
    requires x > 0.0 && 0.5 < cap < 1.0 - TINY
    ensures Capped([x, 0.0], cap) == [cap, 0.0]
  {
    var w, v := [x, 0.0], [1.0, 0.0];
    assert Clipped(w) == w;
    TwoNames(w, cap);
    assert x / x == 1.0;
    assert Scaled(w, x) == v;
    TwoNames(v, cap);
    assert Over(v[0], cap);
    assert Round(v, cap) == [cap, 0.0];
    assert Iterate(v, cap, 0) == v;
    assert Iterate(v, cap, 1) == [cap, 0.0];
    SettledStays(v, cap, 1, ROUNDS);
  }

  /** The total can stay one where the names cannot hold it: two names trade places above the cap for ever. */
  lemma TotalWithoutCapacity()
    ensures Round([0.4, 0.6, 0.0], 0.4) == [0.6, 0.4, 0.0] && Round([0.6, 0.4, 0.0], 0.4) == [0.4, 0.6, 0.0]
    ensures Capacity([0.4, 0.6, 0.0], 0.4 + TINY) < 1.0
    ensures Sum(Capped([0.4, 0.6, 0.0], 0.4)) == 1.0 && AnyOver(Capped([0.4, 0.6, 0.0], 0.4), 0.4)
  {
    var a, b := [0.4, 0.6, 0.0], [0.6, 0.4, 0.0];
    ThreeNames(a, 0.4);
    ThreeNames(b, 0.4);
    assert Over(a[1], 0.4) && Over(b[0], 0.4);
    assert Rate(a, 0.4) == 0.5 && Rate(b, 0.4) == 0.5;
    assert Spread(a, 0.4, 0.5) == b && Spread(b, 0.4, 0.5) == a;
    assert Clipped(a) == a && Scaled(a, 1.0) == a;
    assert !Over(a[0], 0.4);
    SomebodyEndsOver(a, 0.4);
  }

  /** Two names trading places above a cap of 0.4 while a third climbs by less than half each round. */
  function Seesaw(e: real, flipped: bool): seq<real> {
    if flipped then [0.6 - e, 0.4, e] else [0.4, 0.6 - e, e]
  }

  lemma SeesawRound(e: real, flipped: bool) returns (next: real)
    requires 0.0 < e <= 0.1
    ensures 0.0 < next <= 1.5 * e
    ensures Round(Seesaw(e, flipped), 0.4) == Seesaw(next, !flipped)
  {
    var w := Seesaw(e, flipped);
    ThreeNames(w, 0.4);
    assert Over(w[if flipped then 0 else 1], 0.4);
    assert Excess(w, 0.4) == 0.2 - e && UnderTotal(w, 0.4) == 0.4 + e;
    var rate := Rate(w, 0.4);
    next := e + rate * e;
    SeesawGrowth(e, rate, rate * e);
    SeesawSpread(e, flipped, rate, next);
  }

  lemma SeesawSpread(e: real, flipped: bool, rate: real, next: real)
    requires 0.0 < e <= 0.1 && next == e + rate * e && 0.4 + rate * 0.4 == 0.6 - next
    ensures Spread(Seesaw(e, flipped), 0.4, rate) == Seesaw(next, !flipped)
  {
    var w := Seesaw(e, flipped);
    var s, t := Spread(w, 0.4, rate), Seesaw(next, !flipped);
    assert s[0] == Share(w[0], 0.4, rate) && s[1] == Share(w[1], 0.4, rate) && s[2] == Share(w[2], 0.4, rate);
    if flipped {
      assert w[0] == 0.6 - e && w[1] == 0.4 && w[2] == e;
      assert s[0] == t[0] && s[1] == t[1] && s[2] == t[2];
    } else {
      assert s[0] == t[0] && s[1] == t[1] && s[2] == t[2];
    }
    assert |s| == 3 && |t| == 3;
  }

  lemma SeesawGrowth(e: real, rate: real, re: real)
    requires 0.0 < e <= 0.1 && rate == (0.2 - e) / (0.4 + e) && re == rate * e
    ensures 0.0 < rate <= 0.5
    ensures 0.4 + rate * 0.4 == 0.6 - (e + re)
    ensures 0.0 < e + re <= 1.5 * e
  {
    assert rate * (0.4 + e) == 0.2 - e;
    HalfBound(e, rate);
    assert re <= 0.5 * e;
  }

  lemma HalfBound(e: real, rate: real)
    requires e > 0.0 && rate * (0.4 + e) == 0.2 - e && e <= 0.1
    ensures 0.0 < rate <= 0.5
  {
    assert (0.5 - rate) * (0.4 + e) == 1.5 * e;
  }

  lemma {:induction false} SeesawRuns(e: real, t: nat, top: real) returns (last: real, flipped: bool)
    requires e > 0.0 && IsProduct(top, e, Pow(1.5, t)) && top <= 0.1
    ensures 0.0 < last <= top
    ensures Iterate(Seesaw(e, false), 0.4, t) == Seesaw(last, flipped) && (flipped <==> t % 2 == 1)
    decreases t
  {
    if t == 0 {
      last, flipped := e, false;
    } else {
      var below := BelowTop(e, t, top);
      last, flipped := SeesawRuns(e, t - 1, below);
      var next := SeesawRound(last, flipped);
      last, flipped := next, !flipped;
    }
  }

  lemma BelowTop(e: real, t: nat, top: real) returns (below: real)
    requires e > 0.0 && t > 0 && IsProduct(top, e, Pow(1.5, t))
    ensures IsProduct(below, e, Pow(1.5, t - 1)) && top == 1.5 * below && below > 0.0
  {
    below := e * Pow(1.5, t - 1);
    PowAtLeastOne(t - 1);
    SignOfProduct(e, Pow(1.5, t - 1), below);
  }

  /**
   * The hundred-round bound is real: three names that could be held within 0.4 each, one of them tiny,
   * come back with a weight of at least 0.5.
   */
  lemma BoundStopsShort(e: real)
    requires e > 0.0 && e * Pow(1.5, 100) <= 0.1
    ensures Capacity(Seesaw(e, false), 0.4) > 1.0
    ensures Capped(Seesaw(e, false), 0.4)[0] == 0.4 && Capped(Seesaw(e, false), 0.4)[1] >= 0.5
  {
    var w := Seesaw(e, false);
    PowAtLeastOne(ROUNDS);
    assert e <= 0.1 by { ScaleUp(e, 1.0, Pow(1.5, ROUNDS)); }
    assert Clipped(w) == w;
    ThreeNames(w, 0.4);
    assert Scaled(w, 1.0) == w;
    var last, flipped := SeesawRuns(e, ROUNDS, e * Pow(1.5, 100));
    var r := Capped(w, 0.4);
    assert r == Seesaw(last, flipped);
    assert !flipped;
  }

  lemma {:induction false} PowAtLeastOne(n: nat)
    ensures Pow(1.5, n) >= 1.0
  {
    if n > 0 {
      PowAtLeastOne(n - 1);
    }
  }
}

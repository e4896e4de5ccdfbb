/** Per-currency exposure baskets (correlation-gate/src/basket.py, models.py). */
module Baskets {
  import opened Arith
  import opened Directional
  import Permutations

  datatype NetDirection = NetLong | NetShort | Neutral

  datatype Level = Low | Medium | High | Critical

  datatype Exposure = Exposure(
    longCount: nat, shortCount: nat, longNotional: real, shortNotional: real,
    netDirection: NetDirection, netCount: nat, netNotional: real, grossNotional: real, level: Level)

  function Empty(): Exposure {
    Exposure(0, 0, 0.0, 0.0, Neutral, 0, 0.0, 0.0, Low)
  }

  function LevelOf(netCount: nat): Level {
    if netCount <= 1 then Low else if netCount == 2 then Medium else if netCount == 3 then High else Critical
  }

  /** `BasketExposure.finalize`. */
  function Finalised(e: Exposure): Exposure {
    var net := AbsInt(e.longCount - e.shortCount);
    e.(netDirection := if e.longCount > e.shortCount then NetLong
                       else if e.shortCount > e.longCount then NetShort else Neutral,
       netCount := net,
       netNotional := Abs(e.longNotional - e.shortNotional),
       grossNotional := e.longNotional + e.shortNotional,
       level := LevelOf(net))
  }

  // ----- the declarative sums -----

  function CountOf(p: Position, c: Currency, s: Side): nat {
    if SideOn(p, c) == Some(s) then 1 else 0
  }

  function NotionalOf(p: Position, spot: map<string, real>, c: Currency, s: Side): real {
    if SideOn(p, c) == Some(s) then UsdNotional(p, spot) else 0.0
  }

  /** Positions on side s of currency c. */
  function Count(ps: seq<Position>, c: Currency, s: Side): nat {
    if ps == [] then 0 else Count(ps[..|ps| - 1], c, s) + CountOf(ps[|ps| - 1], c, s)
  }

  /** Their USD notional. */
  function Notional(ps: seq<Position>, spot: map<string, real>, c: Currency, s: Side): real {
    if ps == [] then 0.0
    else Notional(ps[..|ps| - 1], spot, c, s) + NotionalOf(ps[|ps| - 1], spot, c, s)
  }

  function Gross(ps: seq<Position>, spot: map<string, real>, c: Currency): real {
    Notional(ps, spot, c, Long) + Notional(ps, spot, c, Short)
  }

  function NetCount(ps: seq<Position>, c: Currency): nat {
    AbsInt(Count(ps, c, Long) - Count(ps, c, Short))
  }

  function NetNotional(ps: seq<Position>, spot: map<string, real>, c: Currency): real {
    Abs(Notional(ps, spot, c, Long) - Notional(ps, spot, c, Short))
  }

  predicate AllRecognised(ps: seq<Position>) {
    forall i :: 0 <= i < |ps| ==> ps[i].instrument.Pair?
  }

  predicate Touched(ps: seq<Position>, c: Currency) {
    exists i :: 0 <= i < |ps| && SideOn(ps[i], c).Some?
  }

  /** The reference: what the baskets of a list of positions are. */
  ghost predicate AreBaskets(ps: seq<Position>, spot: map<string, real>, baskets: map<Currency, Exposure>) {
    && (forall c :: c in baskets <==> Touched(ps, c))
    && (forall c :: c in baskets ==> baskets[c] == Summary(ps, spot, c))
  }

  function Raw(ps: seq<Position>, spot: map<string, real>, c: Currency): Exposure {
    Empty().(longCount := Count(ps, c, Long), shortCount := Count(ps, c, Short),
             longNotional := Notional(ps, spot, c, Long), shortNotional := Notional(ps, spot, c, Short))
  }

  function Summary(ps: seq<Position>, spot: map<string, real>, c: Currency): Exposure {
    Finalised(Raw(ps, spot, c))
  }

  // ----- the aggregation loop -----

  /** One contribution: counts and notional of the side it lands on. */
  function Contribute(e: Exposure, s: Side, notional: real): Exposure {
    if s == Long then e.(longCount := e.longCount + 1, longNotional := e.longNotional + notional)
    else e.(shortCount := e.shortCount + 1, shortNotional := e.shortNotional + notional)
  }

  /** What the dict holds while positions are being added. */
  ghost predicate Accumulates(ps: seq<Position>, spot: map<string, real>, baskets: map<Currency, Exposure>) {
    && (forall c :: c in baskets <==> Touched(ps, c))
    && (forall c :: c in baskets ==> baskets[c] == Raw(ps, spot, c))
  }

  lemma TouchedAppend(ps: seq<Position>, p: Position, c: Currency)
    ensures Touched(ps + [p], c) <==> Touched(ps, c) || SideOn(p, c).Some?
  {
    var all := ps + [p];
    assert forall i :: 0 <= i < |ps| ==> all[i] == ps[i];
    assert all[|ps|] == p;
  }

  lemma SumsAppend(ps: seq<Position>, p: Position, spot: map<string, real>, c: Currency, s: Side)
    ensures Count(ps + [p], c, s) == Count(ps, c, s) + CountOf(p, c, s)
    ensures Notional(ps + [p], spot, c, s) == Notional(ps, spot, c, s) + NotionalOf(p, spot, c, s)
  {
    assert (ps + [p])[..|ps|] == ps;
  }

  lemma {:induction false} UntouchedIsEmpty(ps: seq<Position>, spot: map<string, real>, c: Currency)
    requires !Touched(ps, c)
    ensures Raw(ps, spot, c) == Empty()
  {
    if ps != [] {
      var last := ps[|ps| - 1];
      assert SideOn(last, c).None?;
      assert !Touched(ps[..|ps| - 1], c) by {
        assert forall i :: 0 <= i < |ps| - 1 ==> ps[..|ps| - 1][i] == ps[i];
      }
      UntouchedIsEmpty(ps[..|ps| - 1], spot, c);
    }
  }

  /** Adding one leg of a position to the dict. */
  function AddLeg(baskets: map<Currency, Exposure>, c: Currency, s: Side, notional: real): map<Currency, Exposure> {
    var e := if c in baskets then baskets[c] else Empty();
    baskets[c := Contribute(e, s, notional)]
  }

  lemma RawAppend(ps: seq<Position>, p: Position, spot: map<string, real>, c: Currency)
    requires p.instrument.Pair?
    ensures Raw(ps + [p], spot, c)
         == match SideOn(p, c)
            case None => Raw(ps, spot, c)
            case Some(s) => Contribute(Raw(ps, spot, c), s, UsdNotional(p, spot))
  {
    var v := UsdNotional(p, spot);
    SumsAppend(ps, p, spot, c, Long);
    SumsAppend(ps, p, spot, c, Short);
    RawMatches(ps, ps + [p], p, spot, c, v);
  }

  lemma RawMatches(ps: seq<Position>, more: seq<Position>, p: Position, spot: map<string, real>, c: Currency, v: real)
    requires forall s :: Count(more, c, s) == Count(ps, c, s) + if SideOn(p, c) == Some(s) then 1 else 0
    requires forall s :: Notional(more, spot, c, s)
                         == Notional(ps, spot, c, s) + if SideOn(p, c) == Some(s) then v else 0.0
    ensures Raw(more, spot, c)
         == match SideOn(p, c)
            case None => Raw(ps, spot, c)
            case Some(s) => Contribute(Raw(ps, spot, c), s, v)
  {
  }

  /** The two legs of one position, added in order, extend the dict by exactly that position. */
  lemma AddPosition(ps: seq<Position>, p: Position, spot: map<string, real>, before: map<Currency, Exposure>,
                    after: map<Currency, Exposure>)
    requires p.instrument.Pair? && Accumulates(ps, spot, before)
    requires forall c :: c in after <==> c in before || SideOn(p, c).Some?
    requires forall c :: c in after ==>
               after[c] == match SideOn(p, c)
                           case None => before[c]
                           case Some(s) =>
                             Contribute(if c in before then before[c] else Empty(), s, UsdNotional(p, spot))
    ensures Accumulates(ps + [p], spot, after)
  {
    forall c: Currency
      ensures (c in after <==> Touched(ps + [p], c)) && (c in after ==> after[c] == Raw(ps + [p], spot, c)) {
      TouchedAppend(ps, p, c);
      RawAppend(ps, p, spot, c);
      if c !in before {
        UntouchedIsEmpty(ps, spot, c);
      }
    }
  }

  /** The base leg unless both legs are one currency, then the quote leg. */
  method AddLegs(baskets: map<Currency, Exposure>, p: Position, spot: map<string, real>, ghost ps: seq<Position>)
    returns (after: map<Currency, Exposure>)
    requires p.instrument.Pair? && Accumulates(ps, spot, baskets)
    ensures Accumulates(ps + [p], spot, after)
  {
    var notional := UsdNotional(p, spot);
    var base, quote := p.instrument.base, p.instrument.quote;
    after := baskets;
    if base != quote {
      after := AddLeg(after, base, p.side, notional);
    }
    after := AddLeg(after, quote, Opposite(p.side), notional);
    AddPosition(ps, p, spot, baskets, after);
  }

  /** `calculate_basket_exposure`: one dict of baskets, updated leg by leg; an unreadable instrument raises. */
  method CalculateBasketExposure(positions: seq<Position>, spot: map<string, real>)
    returns (r: Option<map<Currency, Exposure>>)
    ensures r.Some? <==> AllRecognised(positions)
    ensures r.Some? ==> AreBaskets(positions, spot, r.value)
  {
    var baskets: map<Currency, Exposure> := map[];
    for i := 0 to |positions|
      invariant AllRecognised(positions[..i])
      invariant Accumulates(positions[..i], spot, baskets)
    {
      var p := positions[i];
      if p.instrument.Unrecognised? {
        return None;
      }
      baskets := AddLegs(baskets, p, spot, positions[..i]);
      assert positions[..i + 1] == positions[..i] + [p];
    }
    assert positions[..|positions|] == positions;
    r := Some(map c | c in baskets :: Finalised(baskets[c]));
  }

  // ----- laws -----

  lemma {:induction false} SumsConcat(a: seq<Position>, b: seq<Position>, spot: map<string, real>, c: Currency, s: Side)
    ensures Count(a + b, c, s) == Count(a, c, s) + Count(b, c, s)
    ensures Notional(a + b, spot, c, s) == Notional(a, spot, c, s) + Notional(b, spot, c, s)
    decreases |b|
  {
    if b == [] {
      assert a + b == a;
    } else {
      var n := |b| - 1;
      SumsConcat(a, b[..n], spot, c, s);
      SumsAppend(a + b[..n], b[n], spot, c, s);
      assert a + b == (a + b[..n]) + [b[n]];
    }
  }

  lemma SumsWithout(ps: seq<Position>, i: nat, spot: map<string, real>, c: Currency, s: Side)
    requires i < |ps|
    ensures Count(ps, c, s) == Count(ps[..i] + ps[i + 1..], c, s) + CountOf(ps[i], c, s)
    ensures Notional(ps, spot, c, s) == Notional(ps[..i] + ps[i + 1..], spot, c, s) + NotionalOf(ps[i], spot, c, s)
  {
    assert ps == (ps[..i] + [ps[i]]) + ps[i + 1..];
    SumsConcat(ps[..i] + [ps[i]], ps[i + 1..], spot, c, s);
    SumsAppend(ps[..i], ps[i], spot, c, s);
    SumsConcat(ps[..i], ps[i + 1..], spot, c, s);
  }

  /** Exposure depends on which positions there are, not on their order. */
  lemma {:induction false} OrderIrrelevant(a: seq<Position>, b: seq<Position>, spot: map<string, real>, c: Currency,
                                           s: Side)
    requires multiset(a) == multiset(b)
    ensures Count(a, c, s) == Count(b, c, s) && Notional(a, spot, c, s) == Notional(b, spot, c, s)
    decreases |a|
  {
    if a == [] {
      assert |multiset(b)| == 0;
    } else {
      var i := Permutations.RemoveShared(a, b);
      OrderIrrelevant(a[..|a| - 1], b[..i] + b[i + 1..], spot, c, s);
      SumsWithout(b, i, spot, c, s);
    }
  }

  const ALL_CURRENCIES: seq<Currency> := [USD, EUR, GBP, JPY, CHF, AUD, CAD, NZD, XAU]

  /** A count summed over all currencies. */
  function TotalCount(ps: seq<Position>, s: Side): nat {
    Count(ps, USD, s) + Count(ps, EUR, s) + Count(ps, GBP, s) + Count(ps, JPY, s) + Count(ps, CHF, s)
    + Count(ps, AUD, s) + Count(ps, CAD, s) + Count(ps, NZD, s) + Count(ps, XAU, s)
  }

  function TotalNotional(ps: seq<Position>, spot: map<string, real>, s: Side): real {
    Notional(ps, spot, USD, s) + Notional(ps, spot, EUR, s) + Notional(ps, spot, GBP, s) + Notional(ps, spot, JPY, s)
    + Notional(ps, spot, CHF, s) + Notional(ps, spot, AUD, s) + Notional(ps, spot, CAD, s) + Notional(ps, spot, NZD, s)
    + Notional(ps, spot, XAU, s)
  }

  /** Positions in a self-pair, on the given side. */
  function SelfPairs(ps: seq<Position>, s: Side): nat {
    if ps == [] then 0
    else SelfPairs(ps[..|ps| - 1], s)
         + (var p := ps[|ps| - 1];
            if p.instrument.Pair? && p.instrument.base == p.instrument.quote && p.side == s then 1 else 0)
  }

  /** Every position is long one currency and short another, a self-pair losing the leg it overwrites. */
  lemma {:induction false} CountsConserve(ps: seq<Position>, s: Side)
    requires AllRecognised(ps)
    ensures TotalCount(ps, s) + SelfPairs(ps, s) == |ps|
    decreases |ps|
  {
    if ps != [] {
      CountsConserve(ps[..|ps| - 1], s);
      OneLegPerSide(ps[|ps| - 1], s);
    }
  }

  lemma OneLegPerSide(p: Position, s: Side)
    requires p.instrument.Pair?
    ensures TotalCount([p], s) == if p.instrument.base == p.instrument.quote && p.side == s then 0 else 1
    ensures CountOf(p, USD, s) + CountOf(p, EUR, s) + CountOf(p, GBP, s) + CountOf(p, JPY, s) + CountOf(p, CHF, s)
            + CountOf(p, AUD, s) + CountOf(p, CAD, s) + CountOf(p, NZD, s) + CountOf(p, XAU, s)
         == if p.instrument.base == p.instrument.quote && p.side == s then 0 else 1
  {
    assert [p][..0] == [];
    assert forall c :: Count([p], c, s) == CountOf(p, c, s);
  }

  /** Without self-pairs, long and short notional balance across the whole book. */
  lemma {:induction false} NotionalsConserve(ps: seq<Position>, spot: map<string, real>)
    requires AllRecognised(ps) && forall i :: 0 <= i < |ps| ==> ps[i].instrument.base != ps[i].instrument.quote
    ensures TotalNotional(ps, spot, Long) == TotalNotional(ps, spot, Short)
    decreases |ps|
  {
    if ps != [] {
      var p := ps[|ps| - 1];
      NotionalsConserve(ps[..|ps| - 1], spot);
      LegsBalance(p, spot, Long);
      LegsBalance(p, spot, Short);
    }
  }

  lemma LegsBalance(p: Position, spot: map<string, real>, s: Side)
    requires p.instrument.Pair? && p.instrument.base != p.instrument.quote
    ensures NotionalOf(p, spot, USD, s) + NotionalOf(p, spot, EUR, s) + NotionalOf(p, spot, GBP, s)
            + NotionalOf(p, spot, JPY, s) + NotionalOf(p, spot, CHF, s) + NotionalOf(p, spot, AUD, s)
            + NotionalOf(p, spot, CAD, s) + NotionalOf(p, spot, NZD, s) + NotionalOf(p, spot, XAU, s)
         == UsdNotional(p, spot)
  {
  }

  predicate PricesNonNegative(ps: seq<Position>, spot: map<string, real>) {
    (forall i :: 0 <= i < |ps| ==> ps[i].entryPrice >= 0.0) && (XAU_USD in spot ==> spot[XAU_USD] >= 0.0)
  }

  lemma LegNonNegative(p: Position, spot: map<string, real>, c: Currency, s: Side)
    requires p.entryPrice >= 0.0 && (XAU_USD in spot ==> spot[XAU_USD] >= 0.0)
    ensures NotionalOf(p, spot, c, s) >= 0.0
  {
    if p.instrument.Pair? {
      var u := p.units as real;
      assert u * p.entryPrice >= 0.0;
      if XAU_USD in spot {
        assert u * spot[XAU_USD] >= 0.0;
      }
    }
  }

  /** Directional exposure never exceeds volume exposure. */
  lemma {:induction false} NetWithinGross(ps: seq<Position>, spot: map<string, real>, c: Currency)
    requires PricesNonNegative(ps, spot)
    ensures Notional(ps, spot, c, Long) >= 0.0 && Notional(ps, spot, c, Short) >= 0.0
    ensures NetNotional(ps, spot, c) <= Gross(ps, spot, c)
    decreases |ps|
  {
    if ps != [] {
      NetWithinGross(ps[..|ps| - 1], spot, c);
      LegNonNegative(ps[|ps| - 1], spot, c, Long);
      LegNonNegative(ps[|ps| - 1], spot, c, Short);
    }
  }

  /** A new position moves the net count of every currency it touches by exactly one, and of no other. */
  lemma NetCountMovesByOne(ps: seq<Position>, p: Position, c: Currency)
    ensures NetCount(ps + [p], c)
         == match SideOn(p, c)
            case None => NetCount(ps, c)
            case Some(s) =>
              if Count(ps, c, s) >= Count(ps, c, Opposite(s)) then NetCount(ps, c) + 1 else NetCount(ps, c) - 1
  {
    SumsAppend(ps, p, map[], c, Long);
    SumsAppend(ps, p, map[], c, Short);
  }

  // ----- what the sums are, position by position -----

  /** Being long a pair is long its base and short its quote; a self-pair keeps the quote leg only. */
  ghost predicate HasLeg(p: Position, c: Currency, s: Side) {
    && p.instrument.Pair?
    && ((c == p.instrument.quote && s != p.side) || (c == p.instrument.base != p.instrument.quote && s == p.side))
  }

  ghost function LegTest(c: Currency, s: Side): Position -> bool {
    p => HasLeg(p, c, s)
  }

  /** The indices of the positions that pass a test. */
  ghost function Where(ps: seq<Position>, f: Position -> bool): set<int> {
    set i | 0 <= i < |ps| && f(ps[i])
  }

  lemma WhereStep(ps: seq<Position>, init: seq<Position>, f: Position -> bool)
    requires ps != [] && init == ps[..|ps| - 1]
    ensures |Where(ps, f)| == |Where(init, f)| + if f(ps[|ps| - 1]) then 1 else 0
  {
    var n := |ps| - 1;
    assert n !in Where(init, f);
    assert Where(ps, f) == Where(init, f) + if f(ps[n]) then {n} else {};
  }

  lemma LegIsCounted(p: Position, c: Currency, s: Side)
    ensures CountOf(p, c, s) == if HasLeg(p, c, s) then 1 else 0
  {
  }

  /** A count is how many positions have such a leg. */
  lemma {:induction false} CountIsCardinality(ps: seq<Position>, c: Currency, s: Side)
    ensures Count(ps, c, s) == |Where(ps, LegTest(c, s))|
    decreases |ps|
  {
    if ps == [] {
      assert Where(ps, LegTest(c, s)) == {};
    } else {
      CountIsCardinality(ps[..|ps| - 1], c, s);
      WhereStep(ps, ps[..|ps| - 1], LegTest(c, s));
      LegIsCounted(ps[|ps| - 1], c, s);
    }
  }

  /** One leg is worth gold at a known spot, dollars at face value, and anything else at its entry price. */
  lemma LegValue(p: Position, spot: map<string, real>, c: Currency, s: Side)
    requires CountOf(p, c, s) == 1
    ensures var units := p.units as real;
            && (p.instrument.base == XAU && "XAU_USD" in spot ==> Notional([p], spot, c, s) == units * spot["XAU_USD"])
            && (p.instrument.base == USD ==> Notional([p], spot, c, s) == units)
            && (p.instrument.base != USD && (p.instrument.base == XAU ==> "XAU_USD" !in spot) ==>
                  Notional([p], spot, c, s) == units * p.entryPrice)
  {
    SumsAppend([], p, spot, c, s);
    assert [] + [p] == [p];
  }

  /** A position without a leg on the side adds nothing. */
  lemma NoLegNoValue(p: Position, spot: map<string, real>, c: Currency, s: Side)
    requires CountOf(p, c, s) == 0
    ensures Notional([p], spot, c, s) == 0.0
  {
    SumsAppend([], p, spot, c, s);
    assert [] + [p] == [p];
  }

  /** Every derived field of a basket, from the sums of its two sides. */
  lemma BasketFields(ps: seq<Position>, spot: map<string, real>, baskets: map<Currency, Exposure>, c: Currency)
    requires AreBaskets(ps, spot, baskets) && c in baskets
    ensures var e := baskets[c];
            && e.longCount == Count(ps, c, Long) && e.shortCount == Count(ps, c, Short)
            && e.longNotional == Notional(ps, spot, c, Long) && e.shortNotional == Notional(ps, spot, c, Short)
            && (e.netDirection == NetLong <==> e.longCount > e.shortCount)
            && (e.netDirection == NetShort <==> e.shortCount > e.longCount)
            && e.netCount == MaxInt(e.longCount, e.shortCount) - MinInt(e.longCount, e.shortCount)
            && e.netNotional == Max(e.longNotional, e.shortNotional) - Min(e.longNotional, e.shortNotional)
            && e.grossNotional == e.longNotional + e.shortNotional
            && (e.level == Low <==> e.netCount <= 1) && (e.level == Medium <==> e.netCount == 2)
            && (e.level == High <==> e.netCount == 3) && (e.level == Critical <==> e.netCount >= 4)
  {
  }
}

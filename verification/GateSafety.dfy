/** What admission guarantees, and for how long, over whole runs of the gate (correlation-gate/src/gate.py). */
module GateSafety {
  import opened Arith
  import opened Directional
  import opened Baskets
  import opened GateCore

  // ----- the limits hold at the moment of admission -----

  lemma SamePositionsSameBreach(cfg: Config, a: seq<Position>, b: seq<Position>, spot: map<string, real>, c: Currency)
    requires multiset(a) == multiset(b)
    ensures HardBreach(cfg, a, spot, c) <==> HardBreach(cfg, b, spot, c)
  {
    OrderIrrelevant(a, b, spot, c, Long);
    OrderIrrelevant(a, b, spot, c, Short);
    SameSumsSameBreach(cfg, a, b, spot, c);
  }

  lemma SameSumsSameBreach(cfg: Config, a: seq<Position>, b: seq<Position>, spot: map<string, real>, c: Currency)
    requires Count(a, c, Long) == Count(b, c, Long) && Count(a, c, Short) == Count(b, c, Short)
    requires Notional(a, spot, c, Long) == Notional(b, spot, c, Long)
    requires Notional(a, spot, c, Short) == Notional(b, spot, c, Short)
    ensures HardBreach(cfg, a, spot, c) <==> HardBreach(cfg, b, spot, c)
  {
  }

  lemma AdmitTracks(r: Core, s: Admissible, v: Verdict, expiresAt: real)
    ensures Tracked(Admit(r, s, v, expiresAt)) == Tracked(r) + [AsPosition(s)]
  {
    AsPositionsAppend(r.pending, Pending(r.nextId, s, v, expiresAt));
  }

  /** After an admission the gate tracks the live exposure and the signal, which is what was judged. */
  lemma AdmittedShape(cfg: Config, g: Core, s: Signal, env: Env)
    requires EvaluateLocked(cfg, g, s, env).1.pendingId.Some?
    ensures var r := Purged(Refreshed(g, env).0, env.now);
            && Tracked(EvaluateLocked(cfg, g, s, env).0) == Tracked(r) + [AsPosition(s)]
            && EvaluateLocked(cfg, g, s, env).0.spot == r.spot
            && Judge(cfg, Projection(r, s), r.spot, Affected(s.instrument)).0 != HardBlock
  {
    var r := Purged(Refreshed(g, env).0, env.now);
    var v := Judge(cfg, Projection(r, s), r.spot, Affected(s.instrument)).0;
    assert EvaluateLocked(cfg, g, s, env) == Conclude(cfg, r, s, env.now);
    ConcludeShape(cfg, r, s, env.now);
    AdmitTracks(r, s, v, env.now + cfg.pendingTimeout);
  }

  /** Right after an admission the tracked exposure of every affected currency is below all three hard limits. */
  lemma AdmissionRespectsLimits(cfg: Config, g: Core, s: Signal, env: Env, c: Currency)
    requires EvaluateLocked(cfg, g, s, env).1.pendingId.Some? && c in Affected(s.instrument)
    ensures var after := EvaluateLocked(cfg, g, s, env).0;
            !HardBreach(cfg, Tracked(after), after.spot, c)
  {
    var r := Purged(Refreshed(g, env).0, env.now);
    AdmittedShape(cfg, g, s, env);
    JudgeMeaning(cfg, Projection(r, s), r.spot, Affected(s.instrument));
    assert Tracked(r) + [AsPosition(s)] == r.positions + AsPositions(r.pending) + [AsPosition(s)];
    SamePositionsSameBreach(cfg, Projection(r, s), Tracked(r) + [AsPosition(s)], r.spot, c);
  }

  // ----- dropping pendings only lowers gross exposure and one-sided counts -----

  lemma SumsOfTracked(positions: seq<Position>, ps: seq<Pending>, spot: map<string, real>, c: Currency, s: Side)
    ensures Count(positions + AsPositions(ps), c, s) == Count(positions, c, s) + Count(AsPositions(ps), c, s)
    ensures Notional(positions + AsPositions(ps), spot, c, s)
         == Notional(positions, spot, c, s) + Notional(AsPositions(ps), spot, c, s)
  {
    SumsConcat(positions, AsPositions(ps), spot, c, s);
  }

  predicate SpotNonNegative(spot: map<string, real>) {
    XAU_USD in spot ==> spot[XAU_USD] >= 0.0
  }

  lemma {:induction false} KeepLowers(ps: seq<Pending>, f: Pending -> bool, spot: map<string, real>, c: Currency,
                                      s: Side)
    requires SpotNonNegative(spot)
    ensures Count(AsPositions(Keep(ps, f)), c, s) <= Count(AsPositions(ps), c, s)
    ensures Notional(AsPositions(Keep(ps, f)), spot, c, s) <= Notional(AsPositions(ps), spot, c, s)
    decreases |ps|
  {
    if ps != [] {
      var rest, last := ps[..|ps| - 1], ps[|ps| - 1];
      KeepLowers(rest, f, spot, c, s);
      LegNonNegative(AsPosition(last.signal), spot, c, s);
      SumsAppend(AsPositions(rest), AsPosition(last.signal), spot, c, s);
      KeepLast(ps, f);
      if f(last) {
        AsPositionsAppend(Keep(rest, f), last);
        SumsAppend(AsPositions(Keep(rest, f)), AsPosition(last.signal), spot, c, s);
      }
    }
  }

  /** A request that left the cached positions and the spot prices as they were. */
  predicate Undisturbed(before: Core, after: Core) {
    after.positions == before.positions && after.spot == before.spot
  }

  /** `after` tracks no more than `before` on currency c. */
  predicate TracksNoMore(before: Core, after: Core, c: Currency) {
    && (forall s :: Count(Tracked(after), c, s) <= Count(Tracked(before), c, s))
    && Gross(Tracked(after), after.spot, c) <= Gross(Tracked(before), before.spot, c)
  }

  lemma KeepTracksNoMore(g: Core, after: Core, f: Pending -> bool, c: Currency)
    requires SpotNonNegative(g.spot) && Undisturbed(g, after) && after.pending == Keep(g.pending, f)
    ensures TracksNoMore(g, after, c)
  {
    forall s: Side ensures Count(Tracked(after), c, s) <= Count(Tracked(g), c, s)
                    && Notional(Tracked(after), g.spot, c, s) <= Notional(Tracked(g), g.spot, c, s) {
      KeepLowers(g.pending, f, g.spot, c, s);
      SumsOfTracked(g.positions, g.pending, g.spot, c, s);
      SumsOfTracked(g.positions, after.pending, g.spot, c, s);
    }
  }

  /** An evaluation either tracks no more than before on c, or admitted a signal that was checked on c. */
  lemma EvaluationTracks(cfg: Config, g: Core, s: Signal, env: Env, c: Currency)
    requires SpotNonNegative(g.spot) && Undisturbed(g, EvaluateLocked(cfg, g, s, env).0)
    ensures var (after, d) := EvaluateLocked(cfg, g, s, env);
            TracksNoMore(g, after, c)
            || (d.pendingId.Some? && c in Affected(s.instrument) && !HardBreach(cfg, Tracked(after), after.spot, c))
  {
    var (after, d) := EvaluateLocked(cfg, g, s, env);
    var r := Purged(Refreshed(g, env).0, env.now);
    if d.pendingId.Some? {
      if c in Affected(s.instrument) {
        AdmissionRespectsLimits(cfg, g, s, env, c);
      } else {
        KeepTracksNoMore(g, r, LiveAt(env.now), c);
        AdmittedElsewhere(r, after, s, c);
      }
    } else if after.pending != g.pending {
      KeepTracksNoMore(g, after, LiveAt(env.now), c);
    }
  }

  lemma AdmittedElsewhere(r: Core, after: Core, s: Admissible, c: Currency)
    requires c !in Affected(s.instrument) && Undisturbed(r, after)
    requires |after.pending| == |r.pending| + 1 && after.pending[..|r.pending|] == r.pending
    requires after.pending[|r.pending|].signal == s
    ensures TracksNoMore(r, after, c)
  {
    var p := after.pending[|r.pending|];
    assert after.pending == r.pending + [p];
    AsPositionsAppend(r.pending, p);
    assert Tracked(after) == Tracked(r) + [AsPosition(s)];
    AffectedAreTouched(AsPosition(s), c);
    forall side: Side ensures Count(Tracked(after), c, side) == Count(Tracked(r), c, side)
                       && Notional(Tracked(after), r.spot, c, side) == Notional(Tracked(r), r.spot, c, side) {
      SumsAppend(Tracked(r), AsPosition(s), r.spot, c, side);
    }
  }

  /** The same for every request. */
  lemma StepTracks(cfg: Config, g: Core, req: Request, env: Env, c: Currency)
    requires SpotNonNegative(g.spot) && Undisturbed(g, Step(cfg, g, req, env).0)
    ensures var after := Step(cfg, g, req, env).0;
            TracksNoMore(g, after, c)
            || (Admits(cfg, g, req, env) && c in Affected(req.signal.instrument)
                && !HardBreach(cfg, Tracked(after), after.spot, c))
  {
    var after := Step(cfg, g, req, env).0;
    match req
    case Evaluate(s) => EvaluationTracks(cfg, g, s, env, c);
    case Confirm(id) => KeepTracksNoMore(g, after, OtherThan(id), c);
    case Cancel(id) => KeepTracksNoMore(g, after, OtherThan(id), c);
    case Handshake(active) => KeepTracksNoMore(g, after, ActiveIn(active), c);
    case Refresh =>
    case Initialize =>
    case UpdateSpot(prices) =>
  }

  ghost predicate Admits(cfg: Config, g: Core, req: Request, env: Env) {
    req.Evaluate? && EvaluateLocked(cfg, g, req.signal, env).1.pendingId.Some?
  }

  // ----- bounds over runs -----

  /** Every state of the run has the positions and prices it started with. */
  ghost predicate UndisturbedRun(cfg: Config, g: Core, log: seq<(Request, Env)>) {
    forall k :: 0 <= k <= |log| ==> Undisturbed(g, Run(cfg, g, log[..k]).0)
  }

  lemma RunPrefixUndisturbed(cfg: Config, g: Core, log: seq<(Request, Env)>)
    requires log != [] && UndisturbedRun(cfg, g, log)
    ensures UndisturbedRun(cfg, g, log[..|log| - 1])
    ensures Undisturbed(g, Run(cfg, g, log[..|log| - 1]).0) && Undisturbed(g, Run(cfg, g, log).0)
  {
    var n := |log| - 1;
    assert log[..|log|] == log;
    forall k | 0 <= k <= n ensures Undisturbed(g, Run(cfg, g, log[..n][..k]).0) {
      assert log[..n][..k] == log[..k];
    }
  }

  predicate GrossBelowLimit(cfg: Config, g: Core, c: Currency) {
    Gross(Tracked(g), g.spot, c) < ThresholdsFor(cfg, c).hardGross
  }

  /** A tracked gross notional below its hard limit stays below it through every run that leaves the data alone. */
  lemma {:induction false} GrossStaysBelowLimit(cfg: Config, g: Core, log: seq<(Request, Env)>, c: Currency)
    requires SpotNonNegative(g.spot) && UndisturbedRun(cfg, g, log) && GrossBelowLimit(cfg, g, c)
    ensures GrossBelowLimit(cfg, Run(cfg, g, log).0, c)
    decreases |log|
  {
    if log != [] {
      RunPrefixUndisturbed(cfg, g, log);
      GrossStaysBelowLimit(cfg, g, log[..|log| - 1], c);
      StepTracks(cfg, Run(cfg, g, log[..|log| - 1]).0, log[|log| - 1].0, log[|log| - 1].1, c);
    }
  }

  /** Everything tracked on c is on one side, within the slot limit. */
  predicate SlotsWithinLimit(cfg: Config, g: Core, c: Currency, side: Side) {
    && Count(Tracked(g), c, Opposite(side)) == 0
    && Count(Tracked(g), c, side) <= ThresholdsFor(cfg, c).hardCount - 1
  }

  /** No request of the run admits a signal on the other side of c. */
  ghost predicate OneSidedAdmissions(cfg: Config, g: Core, log: seq<(Request, Env)>, c: Currency, side: Side) {
    forall k :: 0 <= k < |log| && Admits(cfg, Run(cfg, g, log[..k]).0, log[k].0, log[k].1) ==>
                  SignalSide(log[k].0.signal, c) != Some(Opposite(side))
  }

  function SignalSide(s: Signal, c: Currency): Option<Side> {
    if Convertible(s) then SideOn(AsPosition(s), c) else None
  }

  lemma SlotsStep(cfg: Config, g: Core, req: Request, env: Env, c: Currency, side: Side)
    requires SpotNonNegative(g.spot) && Undisturbed(g, Step(cfg, g, req, env).0)
    requires SlotsWithinLimit(cfg, g, c, side)
    requires Admits(cfg, g, req, env) ==> SignalSide(req.signal, c) != Some(Opposite(side))
    ensures SlotsWithinLimit(cfg, Step(cfg, g, req, env).0, c, side)
  {
    StepTracks(cfg, g, req, env, c);
    var after := Step(cfg, g, req, env).0;
    if !TracksNoMore(g, after, c) {
      AdmittedOneSide(cfg, g, req.signal, env, c, side);
    }
  }

  lemma AdmittedOneSide(cfg: Config, g: Core, s: Signal, env: Env, c: Currency, side: Side)
    requires SpotNonNegative(g.spot) && Undisturbed(g, EvaluateLocked(cfg, g, s, env).0)
    requires EvaluateLocked(cfg, g, s, env).1.pendingId.Some? && SignalSide(s, c) != Some(Opposite(side))
    requires Count(Tracked(g), c, Opposite(side)) == 0
    ensures Count(Tracked(EvaluateLocked(cfg, g, s, env).0), c, Opposite(side)) == 0
  {
    var after := EvaluateLocked(cfg, g, s, env).0;
    var r := Purged(Refreshed(g, env).0, env.now);
    KeepTracksNoMore(g, r, LiveAt(env.now), c);
    AdmittedShape(cfg, g, s, env);
    SumsAppend(Tracked(r), AsPosition(s), r.spot, c, Opposite(side));
  }

  /** On a one-sided currency, positions and live slots never pass hard_block_count - 1 while the data stands still. */
  lemma {:induction false} SlotsStayWithinLimit(cfg: Config, g: Core, log: seq<(Request, Env)>, c: Currency, side: Side)
    requires SpotNonNegative(g.spot) && UndisturbedRun(cfg, g, log) && OneSidedAdmissions(cfg, g, log, c, side)
    requires SlotsWithinLimit(cfg, g, c, side)
    ensures SlotsWithinLimit(cfg, Run(cfg, g, log).0, c, side)
    decreases |log|
  {
    if log != [] {
      var n := |log| - 1;
      RunPrefixUndisturbed(cfg, g, log);
      forall k | 0 <= k < n && Admits(cfg, Run(cfg, g, log[..n][..k]).0, log[..n][k].0, log[..n][k].1)
        ensures SignalSide(log[..n][k].0.signal, c) != Some(Opposite(side)) {
        assert log[..n][..k] == log[..k];
      }
      SlotsStayWithinLimit(cfg, g, log[..n], c, side);
      SlotsStep(cfg, Run(cfg, g, log[..n]).0, log[n].0, log[n].1, c, side);
    }
  }

  /** From an admission on c onwards, whatever was tracked there before it. */
  lemma SlotsWithinLimitFromAdmission(cfg: Config, g: Core, s: Signal, env: Env, log: seq<(Request, Env)>,
                                      c: Currency, side: Side)
    requires EvaluateLocked(cfg, g, s, env).1.pendingId.Some? && c in Affected(s.instrument)
    requires var admitted := EvaluateLocked(cfg, g, s, env).0;
             && SpotNonNegative(admitted.spot) && Count(Tracked(admitted), c, Opposite(side)) == 0
             && UndisturbedRun(cfg, admitted, log) && OneSidedAdmissions(cfg, admitted, log, c, side)
    ensures SlotsWithinLimit(cfg, Run(cfg, EvaluateLocked(cfg, g, s, env).0, log).0, c, side)
  {
    AdmissionRespectsLimits(cfg, g, s, env, c);
    SlotsStayWithinLimit(cfg, EvaluateLocked(cfg, g, s, env).0, log, c, side);
  }

  // ----- what confirming or cancelling can undo -----

  lemma {:induction false} KeepOthers(ps: seq<Pending>, i: nat)
    requires i < |ps| && forall j, k :: 0 <= j < k < |ps| ==> ps[j].id != ps[k].id
    ensures Keep(ps, OtherThan(ps[i].id)) == ps[..i] + ps[i + 1..]
    decreases |ps|
  {
    var n := |ps| - 1;
    var id := ps[i].id;
    KeepLast(ps, OtherThan(id));
    if i == n {
      KeepAll(ps[..n], id);
    } else {
      KeepOthers(ps[..n], i);
      WithoutOne(ps, i);
    }
  }

  lemma WithoutOne(ps: seq<Pending>, i: nat)
    requires i < |ps| - 1
    ensures var n := |ps| - 1; ps[..i] + ps[i + 1..] == ps[..n][..i] + ps[..n][i + 1..] + [ps[n]]
  {
  }

  lemma {:induction false} KeepAll(ps: seq<Pending>, id: nat)
    requires forall i :: 0 <= i < |ps| ==> ps[i].id != id
    ensures Keep(ps, OtherThan(id)) == ps
    decreases |ps|
  {
    if ps != [] {
      KeepAll(ps[..|ps| - 1], id);
      KeepLast(ps, OtherThan(id));
    }
  }

  lemma {:induction false} AsPositionsConcat(a: seq<Pending>, b: seq<Pending>)
    ensures AsPositions(a + b) == AsPositions(a) + AsPositions(b)
    decreases |b|
  {
    if b == [] {
      assert a + b == a;
    } else {
      var n := |b| - 1;
      AsPositionsConcat(a, b[..n]);
      assert a + b == (a + b[..n]) + [b[n]];
      AsPositionsAppend(a + b[..n], b[n]);
    }
  }

  /** Confirming drops exactly the confirmed position from the tracked exposure. */
  lemma ConfirmDropsOne(g: Core, i: nat, spot: map<string, real>, c: Currency, s: Side)
    requires WellFormed(g) && i < |g.pending|
    ensures var after := g.(pending := Keep(g.pending, OtherThan(g.pending[i].id)));
            && Count(Tracked(g), c, s) == Count(Tracked(after), c, s) + CountOf(AsPosition(g.pending[i].signal), c, s)
            && Notional(Tracked(g), spot, c, s)
               == Notional(Tracked(after), spot, c, s) + NotionalOf(AsPosition(g.pending[i].signal), spot, c, s)
  {
    var p, head, tail := g.pending[i], g.pending[..i], g.pending[i + 1..];
    KeepOthers(g.pending, i);
    assert g.pending == (head + [p]) + tail;
    AsPositionsConcat(head + [p], tail);
    AsPositionsAppend(head, p);
    AsPositionsConcat(head, tail);
    SumsOfTracked(g.positions, g.pending, spot, c, s);
    SumsOfTracked(g.positions, head + tail, spot, c, s);
    SumsConcat(AsPositions(head + [p]), AsPositions(tail), spot, c, s);
    SumsAppend(AsPositions(head), AsPosition(p.signal), spot, c, s);
    SumsConcat(AsPositions(head), AsPositions(tail), spot, c, s);
  }

  /**
   * The net count is not monotone: removing a slot lifts a currency from below its limit to it exactly when
   * the currency stood one below and the slot was not on its heavier side.
   */
  lemma RemovalReachesLimitIff(g: Core, i: nat, c: Currency, limit: int)
    requires WellFormed(g) && i < |g.pending| && NetCount(Tracked(g), c) < limit
    ensures var after := g.(pending := Keep(g.pending, OtherThan(g.pending[i].id)));
            var side := SideOn(AsPosition(g.pending[i].signal), c);
            NetCount(Tracked(after), c) >= limit
            <==> && NetCount(Tracked(g), c) == limit - 1
                 && side.Some?
                 && Count(Tracked(g), c, side.value) <= Count(Tracked(g), c, Opposite(side.value))
  {
    ConfirmDropsOne(g, i, map[], c, Long);
    ConfirmDropsOne(g, i, map[], c, Short);
  }

  /** How many of the pendings that fail `f` are on side s of c. */
  function DroppedCount(ps: seq<Pending>, f: Pending -> bool, c: Currency, s: Side): nat {
    if ps == [] then 0
    else
      var last := ps[|ps| - 1];
      DroppedCount(ps[..|ps| - 1], f, c, s) + if f(last) then 0 else CountOf(AsPosition(last.signal), c, s)
  }

  lemma {:induction false} KeepCounts(ps: seq<Pending>, f: Pending -> bool, c: Currency, s: Side)
    ensures Count(AsPositions(ps), c, s) == Count(AsPositions(Keep(ps, f)), c, s) + DroppedCount(ps, f, c, s)
    decreases |ps|
  {
    if ps != [] {
      var init, last := ps[..|ps| - 1], ps[|ps| - 1];
      KeepCounts(init, f, c, s);
      SumsAppend(AsPositions(init), AsPosition(last.signal), map[], c, s);
      KeepLast(ps, f);
      if f(last) {
        AsPositionsAppend(Keep(init, f), last);
        SumsAppend(AsPositions(Keep(init, f)), AsPosition(last.signal), map[], c, s);
      }
    }
  }

  lemma DropCounts(g: Core, f: Pending -> bool, c: Currency, s: Side)
    ensures Count(Tracked(g), c, s)
         == Count(Tracked(g.(pending := Keep(g.pending, f))), c, s) + DroppedCount(g.pending, f, c, s)
  {
    KeepCounts(g.pending, f, c, s);
    SumsOfTracked(g.positions, g.pending, map[], c, s);
    SumsOfTracked(g.positions, Keep(g.pending, f), map[], c, s);
  }

  /**
   * The same for any number of slots dropped at once, as by expiry or a handshake: the limit is reached exactly when
   * the longs dropped fall short of, or exceed, the shorts dropped by enough to carry the signed net count past it.
   */
  lemma DropReachesLimitIff(g: Core, f: Pending -> bool, c: Currency, limit: int)
    requires NetCount(Tracked(g), c) < limit
    ensures var net := Count(Tracked(g), c, Long) - Count(Tracked(g), c, Short);
            var dropped := DroppedCount(g.pending, f, c, Long) - DroppedCount(g.pending, f, c, Short);
            NetCount(Tracked(g.(pending := Keep(g.pending, f))), c) >= limit
            <==> dropped <= net - limit || dropped >= net + limit
  {
    DropCounts(g, f, c, Long);
    DropCounts(g, f, c, Short);
  }

  function HedgedGate(): Core {
    var eurUsd := Pair(EUR, USD);
    Core([Position(eurUsd, Long, 0, 1.0), Position(eurUsd, Long, 0, 1.0)], Some(0.0),
         [Pending(0, Signal(eurUsd, Exact(Short), 0), Allow, 30.0)], 1, map[], 1)
  }

  lemma CountOfTwo(x: Position, y: Position, c: Currency, s: Side)
    ensures Count([x, y], c, s) == CountOf(x, c, s) + CountOf(y, c, s)
  {
    assert [] + [x] == [x] && [x] + [y] == [x, y];
    SumsAppend([], x, map[], c, s);
    SumsAppend([x], y, map[], c, s);
  }

  lemma CountOfThree(x: Position, y: Position, z: Position, c: Currency, s: Side)
    ensures Count([x, y], c, s) == CountOf(x, c, s) + CountOf(y, c, s)
    ensures Count([x, y, z], c, s) == CountOf(x, c, s) + CountOf(y, c, s) + CountOf(z, c, s)
  {
    CountOfTwo(x, y, c, s);
    assert [x, y] + [z] == [x, y, z];
    SumsAppend([x, y], z, map[], c, s);
  }

  /** Two long positions hedged by one short slot: cancelling the slot raises the net count from 1 to 2. */
  lemma CancellingAHedge()
    ensures WellFormed(HedgedGate())
    ensures NetCount(Tracked(HedgedGate()), EUR) == 1
    ensures NetCount(Tracked(HedgedGate().(pending := Keep(HedgedGate().pending, OtherThan(0)))), EUR) == 2
  {
    var g := HedgedGate();
    var after := g.(pending := Keep(g.pending, OtherThan(0)));
    var a, p := g.positions[0], AsPosition(g.pending[0].signal);
    AsPositionsAppend([], g.pending[0]);
    KeepLast(g.pending, OtherThan(0));
    assert g.pending[..0] == [] && [] + [g.pending[0]] == g.pending;
    assert Tracked(g) == [a, a, p];
    assert Tracked(after) == [a, a];
    CountOfThree(a, a, p, EUR, Long);
    CountOfThree(a, a, p, EUR, Short);
  }

  // ----- what the limits do not cover -----

  /** Evaluate and confirm, n times over, under ids issued from `id` on. */
  function ConfirmEach(s: Signal, env: Env, id: nat, n: nat): (log: seq<(Request, Env)>)
    ensures |log| == 2 * n
  {
    if n == 0 then [] else ConfirmEach(s, env, id, n - 1) + [(Evaluate(s), env)] + [(Confirm(id + n - 1), env)]
  }

  /** The signal would be admitted on the cached positions alone. */
  ghost predicate FitsOnce(cfg: Config, g: Core, s: Signal, env: Env) {
    !Stale(g, env.now) && !Refuses(g, s) && g.pending == []
    && forall c :: c in Affected(s.instrument) ==> !HardBreach(cfg, g.positions + [AsPosition(s)], g.spot, c)
  }

  /** How many answers reserved a slot. */
  function Reservations(answers: seq<Response>): nat {
    if answers == [] then 0
    else Reservations(answers[..|answers| - 1]) + if Reserves(answers[|answers| - 1]) then 1 else 0
  }

  predicate Reserves(r: Response) {
    r.Decided? && r.decision.pendingId.Some?
  }

  lemma ReservationsAppend(answers: seq<Response>, r: Response)
    ensures Reservations(answers + [r]) == Reservations(answers) + if Reserves(r) then 1 else 0
  {
    assert (answers + [r])[..|answers|] == answers;
  }

  lemma AdmitThenConfirm(cfg: Config, g: Core, s: Signal, env: Env)
    requires FitsOnce(cfg, g, s, env)
    ensures var (admitted, d) := EvaluateLocked(cfg, g, s, env);
            && d.pendingId == Some(g.nextId)
            && Step(cfg, admitted, Confirm(g.nextId), env).0 == g.(nextId := g.nextId + 1)
  {
    assert Purged(g, env.now) == g;
    assert Projection(g, s) == g.positions + [AsPosition(s)];
    JudgeMeaning(cfg, Projection(g, s), g.spot, Affected(s.instrument));
    assert EvaluateLocked(cfg, g, s, env) == Conclude(cfg, g, s, env.now);
    ConcludeShape(cfg, g, s, env.now);
    var v := Judge(cfg, Projection(g, s), g.spot, Affected(s.instrument)).0;
    ConfirmUndoes(g, s, v, env.now + cfg.pendingTimeout);
  }

  lemma ConfirmUndoes(g: Core, s: Admissible, v: Verdict, expiresAt: real)
    requires g.pending == []
    ensures Keep(Admit(g, s, v, expiresAt).pending, OtherThan(g.nextId)) == []
  {
    KeepAppend([], Pending(g.nextId, s, v, expiresAt), OtherThan(g.nextId));
  }

  /**
   * A confirmed trade leaves the tracked exposure before the cache shows it: a signal that fits once is admitted
   * every time, however often, as long as each admission is confirmed and the cache is not refreshed.
   */
  lemma {:induction false} ConfirmedTradesAreUnseen(cfg: Config, g: Core, s: Signal, env: Env, n: nat)
    requires FitsOnce(cfg, g, s, env)
    ensures Cycled(cfg, g, ConfirmEach(s, env, g.nextId, n), n)
    decreases n
  {
    if n == 0 {
      NothingCycled(cfg, g, ConfirmEach(s, env, g.nextId, 0));
    } else {
      ConfirmedTradesAreUnseen(cfg, g, s, env, n - 1);
      AfterOneMore(cfg, g, s, env, n - 1, n);
    }
  }

  lemma NothingCycled(cfg: Config, g: Core, log: seq<(Request, Env)>)
    requires log == []
    ensures Cycled(cfg, g, log, 0)
  {
  }

  /** The run made n reservations and left nothing of them but n used ids. */
  ghost predicate Cycled(cfg: Config, g: Core, log: seq<(Request, Env)>, n: nat) {
    && Run(cfg, g, log).0 == g.(nextId := g.nextId + n)
    && Reservations(Run(cfg, g, log).1) == n
  }

  lemma FitsAgain(cfg: Config, g: Core, s: Signal, env: Env, id: nat)
    requires FitsOnce(cfg, g, s, env)
    ensures FitsOnce(cfg, g.(nextId := id), s, env)
  {
  }

  lemma AfterOneMore(cfg: Config, g: Core, s: Signal, env: Env, k: nat, n: nat)
    requires n == k + 1 && FitsOnce(cfg, g, s, env) && Cycled(cfg, g, ConfirmEach(s, env, g.nextId, k), k)
    ensures Cycled(cfg, g, ConfirmEach(s, env, g.nextId, n), n)
  {
    var base, log := ConfirmEach(s, env, g.nextId, k), ConfirmEach(s, env, g.nextId, n);
    ConfirmEachStep(s, env, g.nextId, k, n, base, log);
    OneMoreCycle(cfg, g, s, env, base, k, log);
  }

  lemma OneMoreCycle(cfg: Config, g: Core, s: Signal, env: Env, base: seq<(Request, Env)>, k: nat,
                     log: seq<(Request, Env)>)
    requires FitsOnce(cfg, g, s, env) && Cycled(cfg, g, base, k)
    requires log == base + [(Evaluate(s), env)] + [(Confirm(g.nextId + k), env)]
    ensures Cycled(cfg, g, log, k + 1)
  {
    FitsAgain(cfg, g, s, env, g.nextId + k);
    CycledOnce(cfg, g, s, env, base, k, log);
  }

  lemma CycledOnce(cfg: Config, g: Core, s: Signal, env: Env, base: seq<(Request, Env)>, k: nat,
                   log: seq<(Request, Env)>)
    requires Cycled(cfg, g, base, k) && FitsOnce(cfg, g.(nextId := g.nextId + k), s, env)
    requires log == base + [(Evaluate(s), env)] + [(Confirm(g.nextId + k), env)]
    ensures Cycled(cfg, g, log, k + 1)
  {
    CycleOnce(cfg, g, s, env, base, g.(nextId := g.nextId + k), log);
  }

  lemma ConfirmEachStep(s: Signal, env: Env, id: nat, k: nat, n: nat, base: seq<(Request, Env)>,
                        log: seq<(Request, Env)>)
    requires n == k + 1 && base == ConfirmEach(s, env, id, k) && log == ConfirmEach(s, env, id, n)
    ensures log == base + [(Evaluate(s), env)] + [(Confirm(id + k), env)]
  {
  }

  lemma CycleOnce(cfg: Config, g: Core, s: Signal, env: Env, base: seq<(Request, Env)>, before: Core,
                  log: seq<(Request, Env)>)
    requires Run(cfg, g, base).0 == before && FitsOnce(cfg, before, s, env)
    requires log == base + [(Evaluate(s), env)] + [(Confirm(before.nextId), env)]
    ensures Run(cfg, g, log).0 == before.(nextId := before.nextId + 1)
    ensures Reservations(Run(cfg, g, log).1) == Reservations(Run(cfg, g, base).1) + 1
  {
    AdmitThenConfirm(cfg, before, s, env);
    var first, second := Step(cfg, before, Evaluate(s), env), Confirm(before.nextId);
    RunAppend(cfg, g, base, Evaluate(s), env);
    RunAppend(cfg, g, base + [(Evaluate(s), env)], second, env);
    ReservationsAppend(Run(cfg, g, base).1, first.1);
    ReservationsAppend(Run(cfg, g, base).1 + [first.1], Step(cfg, first.0, second, env).1);
  }

  // ----- the exposure ledger -----

  /** How often a position occurs. */
  function Occurrences(ps: seq<Position>, p: Position): nat {
    if ps == [] then 0 else Occurrences(ps[..|ps| - 1], p) + if ps[|ps| - 1] == p then 1 else 0
  }

  lemma OccurrencesAppend(ps: seq<Position>, q: Position, p: Position)
    ensures Occurrences(ps + [q], p) == Occurrences(ps, p) + if q == p then 1 else 0
  {
    assert (ps + [q])[..|ps|] == ps;
  }

  lemma {:induction false} OccurrencesConcat(a: seq<Position>, b: seq<Position>, p: Position)
    ensures Occurrences(a + b, p) == Occurrences(a, p) + Occurrences(b, p)
    decreases |b|
  {
    if b == [] {
      assert a + b == a;
    } else {
      var n := |b| - 1;
      OccurrencesConcat(a, b[..n], p);
      assert a + b == (a + b[..n]) + [b[n]];
      OccurrencesAppend(a + b[..n], b[n], p);
    }
  }

  /** How often the pendings hold a position. */
  function HeldTimes(ps: seq<Pending>, p: Position): nat {
    if ps == [] then 0 else HeldTimes(ps[..|ps| - 1], p) + if AsPosition(ps[|ps| - 1].signal) == p then 1 else 0
  }

  lemma {:induction false} HeldAsPositions(ps: seq<Pending>, p: Position)
    ensures Occurrences(AsPositions(ps), p) == HeldTimes(ps, p)
    decreases |ps|
  {
    if ps != [] {
      HeldAsPositions(ps[..|ps| - 1], p);
      OccurrencesAppend(AsPositions(ps[..|ps| - 1]), AsPosition(ps[|ps| - 1].signal), p);
    }
  }

  lemma HeldAppend(ps: seq<Pending>, q: Pending, p: Position)
    ensures HeldTimes(ps + [q], p) == HeldTimes(ps, p) + if AsPosition(q.signal) == p then 1 else 0
  {
    assert (ps + [q])[..|ps|] == ps;
  }

  lemma TrackedTimes(g: Core, p: Position)
    ensures Occurrences(Tracked(g), p) == Occurrences(g.positions, p) + HeldTimes(g.pending, p)
  {
    OccurrencesConcat(g.positions, AsPositions(g.pending), p);
    HeldAsPositions(g.pending, p);
  }

  /** How often the pendings that fail `f` hold a position. */
  function GoneTimes(ps: seq<Pending>, f: Pending -> bool, p: Position): nat {
    if ps == [] then 0
    else
      var last := ps[|ps| - 1];
      GoneTimes(ps[..|ps| - 1], f, p) + if !f(last) && AsPosition(last.signal) == p then 1 else 0
  }

  lemma {:induction false} KeepSplits(ps: seq<Pending>, f: Pending -> bool, p: Position)
    ensures HeldTimes(ps, p) == HeldTimes(Keep(ps, f), p) + GoneTimes(ps, f, p)
    decreases |ps|
  {
    if ps != [] {
      var init, last := ps[..|ps| - 1], ps[|ps| - 1];
      KeepSplits(init, f, p);
      KeepLast(ps, f);
      HeldAppend(Keep(init, f), last, p);
    }
  }

  lemma {:induction false} NothingGone(ps: seq<Pending>, f: Pending -> bool, p: Position)
    requires forall q :: f(q)
    ensures GoneTimes(ps, f, p) == 0
    decreases |ps|
  {
    if ps != [] {
      NothingGone(ps[..|ps| - 1], f, p);
    }
  }

  function Everything(): Pending -> bool {
    (p: Pending) => true
  }

  /** The pendings a request keeps. */
  ghost function KeptBy(g: Core, req: Request, env: Env): Pending -> bool {
    match req
    case Evaluate(s) =>
      if Refreshed(g, env).1 && !Refuses(Refreshed(g, env).0, s) then LiveAt(env.now) else Everything()
    case Confirm(id) => OtherThan(id)
    case Cancel(id) => OtherThan(id)
    case Handshake(active) => ActiveIn(active)
    case _ => Everything()
  }

  /** How often it drops a position. */
  ghost function GoneBy(g: Core, req: Request, env: Env, p: Position): nat {
    GoneTimes(g.pending, KeptBy(g, req, env), p)
  }

  /** Whether it admits the position. */
  ghost function NewBy(cfg: Config, g: Core, req: Request, env: Env, p: Position): nat {
    if Admits(cfg, g, req, env) && Convertible(req.signal) && AsPosition(req.signal) == p then 1 else 0
  }

  /** The cache was not loaded. */
  ghost predicate CacheStands(cfg: Config, g: Core, req: Request, env: Env) {
    Step(cfg, g, req, env).0.version == g.version
  }

  lemma ConclusionBalances(cfg: Config, g: Core, s: Admissible, now: real, p: Position)
    ensures HeldTimes(Conclude(cfg, g, s, now).0.pending, p)
         == HeldTimes(g.pending, p) + if Conclude(cfg, g, s, now).1.pendingId.Some? && AsPosition(s) == p then 1 else 0
    ensures Conclude(cfg, g, s, now).0.positions == g.positions
  {
    ConcludeShape(cfg, g, s, now);
    var v := Judge(cfg, Projection(g, s), g.spot, Affected(s.instrument)).0;
    HeldAppend(g.pending, Pending(g.nextId, s, v, now + cfg.pendingTimeout), p);
  }

  lemma EvaluationConcludes(cfg: Config, g: Core, s: Signal, env: Env)
    requires CacheStands(cfg, g, Evaluate(s), env) && Refreshed(g, env).1 && !Refuses(Refreshed(g, env).0, s)
    ensures EvaluateLocked(cfg, g, s, env) == Conclude(cfg, Purged(g, env.now), s, env.now)
    ensures KeptBy(g, Evaluate(s), env) == LiveAt(env.now)
  {
  }

  lemma EvaluationRefuses(cfg: Config, g: Core, s: Signal, env: Env)
    requires CacheStands(cfg, g, Evaluate(s), env) && !(Refreshed(g, env).1 && !Refuses(Refreshed(g, env).0, s))
    ensures EvaluateLocked(cfg, g, s, env).0 == g && EvaluateLocked(cfg, g, s, env).1.pendingId == None
    ensures KeptBy(g, Evaluate(s), env) == Everything()
  {
  }

  lemma EvaluationBalances(cfg: Config, g: Core, s: Signal, env: Env, p: Position)
    requires CacheStands(cfg, g, Evaluate(s), env)
    ensures var after := EvaluateLocked(cfg, g, s, env).0;
            && after.positions == g.positions
            && HeldTimes(after.pending, p) + GoneBy(g, Evaluate(s), env, p)
               == HeldTimes(g.pending, p) + NewBy(cfg, g, Evaluate(s), env, p)
  {
    if Refreshed(g, env).1 && !Refuses(Refreshed(g, env).0, s) {
      EvaluationConcludes(cfg, g, s, env);
      ConclusionBalances(cfg, Purged(g, env.now), s, env.now, p);
      KeepSplits(g.pending, LiveAt(env.now), p);
    } else {
      EvaluationRefuses(cfg, g, s, env);
      NothingGone(g.pending, Everything(), p);
    }
  }

  /** One request moves exposure between tracked, gone and newly admitted, and creates or loses none. */
  lemma StepBalances(cfg: Config, g: Core, req: Request, env: Env, p: Position)
    requires CacheStands(cfg, g, req, env)
    ensures Occurrences(Tracked(Step(cfg, g, req, env).0), p) + GoneBy(g, req, env, p)
         == Occurrences(Tracked(g), p) + NewBy(cfg, g, req, env, p)
  {
    TrackedTimes(g, p);
    TrackedTimes(Step(cfg, g, req, env).0, p);
    match req
    case Evaluate(s) => EvaluationBalances(cfg, g, s, env, p);
    case Confirm(id) => KeepSplits(g.pending, OtherThan(id), p);
    case Cancel(id) => KeepSplits(g.pending, OtherThan(id), p);
    case Handshake(active) => KeepSplits(g.pending, ActiveIn(active), p);
    case Refresh => NothingGone(g.pending, Everything(), p);
    case Initialize => NothingGone(g.pending, Everything(), p);
    case UpdateSpot(prices) => NothingGone(g.pending, Everything(), p);
  }

  /** How often a position was confirmed, or was dropped unexecuted, during the run. */
  ghost function Settled(cfg: Config, g: Core, log: seq<(Request, Env)>, confirmed: bool, p: Position): nat {
    if log == [] then 0
    else
      var n := |log| - 1;
      Settled(cfg, g, log[..n], confirmed, p)
      + if log[n].0.Confirm? == confirmed then GoneBy(Run(cfg, g, log[..n]).0, log[n].0, log[n].1, p) else 0
  }

  /** How often it was admitted. */
  ghost function Admitted(cfg: Config, g: Core, log: seq<(Request, Env)>, p: Position): nat {
    if log == [] then 0
    else
      var n := |log| - 1;
      Admitted(cfg, g, log[..n], p) + NewBy(cfg, Run(cfg, g, log[..n]).0, log[n].0, log[n].1, p)
  }

  /** No request of the run loads the cache. */
  ghost predicate CacheStandsThrough(cfg: Config, g: Core, log: seq<(Request, Env)>) {
    forall k :: 0 <= k < |log| ==> CacheStands(cfg, Run(cfg, g, log[..k]).0, log[k].0, log[k].1)
  }

  /** Tracked, confirmed and dropped together are the starting exposure and all admissions. */
  ghost predicate Balanced(cfg: Config, g: Core, log: seq<(Request, Env)>, p: Position) {
    Occurrences(Tracked(Run(cfg, g, log).0), p) + Settled(cfg, g, log, true, p) + Settled(cfg, g, log, false, p)
    == Occurrences(Tracked(g), p) + Admitted(cfg, g, log, p)
  }

  /**
   * Over every run on one state of the cache and for every position: what is tracked, plus what was confirmed and so
   * left the tracked exposure unseen, plus what was cancelled, expired or purged, is what was tracked at the start plus
   * everything admitted.
   */
  lemma {:induction false} LedgerBalances(cfg: Config, g: Core, log: seq<(Request, Env)>, p: Position)
    requires CacheStandsThrough(cfg, g, log)
    ensures Balanced(cfg, g, log, p)
    decreases |log|
  {
    if log == [] {
      NothingYet(cfg, g, log, p);
    } else {
      var n := |log| - 1;
      forall k | 0 <= k < n ensures CacheStands(cfg, Run(cfg, g, log[..n][..k]).0, log[..n][k].0, log[..n][k].1) {
        assert log[..n][..k] == log[..k];
      }
      LedgerBalances(cfg, g, log[..n], p);
      LedgerStep(cfg, g, log, log[..n], p);
    }
  }

  lemma NothingYet(cfg: Config, g: Core, log: seq<(Request, Env)>, p: Position)
    requires log == []
    ensures Balanced(cfg, g, log, p)
  {
  }

  lemma LedgerStep(cfg: Config, g: Core, log: seq<(Request, Env)>, init: seq<(Request, Env)>, p: Position)
    requires log != [] && init == log[..|log| - 1] && Balanced(cfg, g, init, p)
    requires CacheStands(cfg, Run(cfg, g, init).0, log[|log| - 1].0, log[|log| - 1].1)
    ensures Balanced(cfg, g, log, p)
  {
    StepBalances(cfg, Run(cfg, g, init).0, log[|log| - 1].0, log[|log| - 1].1, p);
  }

  /** Confirming takes a trade out of the tracked exposure and into the unseen one; the two together do not change. */
  lemma ConfirmMovesExposure(cfg: Config, g: Core, log: seq<(Request, Env)>, id: nat, env: Env, p: Position)
    ensures var more := log + [(Confirm(id), env)];
            Occurrences(Tracked(Run(cfg, g, more).0), p) + Settled(cfg, g, more, true, p)
            == Occurrences(Tracked(Run(cfg, g, log).0), p) + Settled(cfg, g, log, true, p)
  {
    assert (log + [(Confirm(id), env)])[..|log|] == log;
    StepBalances(cfg, Run(cfg, g, log).0, Confirm(id), env, p);
  }
}

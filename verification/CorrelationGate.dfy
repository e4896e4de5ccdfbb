/** The gate object: its fields updated in place, each method held to GateCore (correlation-gate/src/gate.py). */
module CorrelationGate {
  import opened Arith
  import opened Directional
  import opened Baskets
  import opened GateCore
  import GateVerdict

  class Gate {
    const cfg: Config
    var state: GateState
    var positions: seq<Position>
    var lastFetch: Option<real>
    var pending: seq<Pending>
    var version: nat
    var spot: map<string, real>
    var nextId: nat

    /** The lock-protected state as a value. */
    function View(): Core
      reads this
    {
      Core(positions, lastFetch, pending, version, spot, nextId)
    }

    constructor (cfg: Config)
      ensures this.cfg == cfg && state == Initializing
      ensures View() == Core([], None, [], 0, map[], 0) && WellFormed(View())
    {
      this.cfg := cfg;
      state := Initializing;
      positions, lastFetch, pending := [], None, [];
      version, spot, nextId := 0, map[], 0;
    }

    /** `initialize`: SYNCHRONIZING while the provider is asked, then READY or FAILED. */
    method Initialize(env: Env) returns (ok: bool)
      modifies this
      ensures (View(), Started(ok)) == Step(cfg, old(View()), Request.Initialize, env)
      ensures state == if ok then Ready else Failed
    {
      state := Synchronizing;
      if env.fetch.Fetched? {
        positions := env.fetch.positions;
        lastFetch := Some(env.now);
        version := version + 1;
        state := Ready;
        ok := true;
      } else {
        state := Failed;
        ok := false;
      }
    }

    /** `_get_positions_safe`. */
    method GetPositionsSafe(env: Env) returns (ok: bool)
      modifies this
      ensures (View(), ok) == Refreshed(old(View()), env) && state == old(state)
    {
      ok := true;
      if lastFetch.None? || env.now - lastFetch.value > REFRESH_AFTER {
        if !env.fetch.Fetched? {
          return false;
        }
        positions := env.fetch.positions;
        lastFetch := Some(env.now);
        version := version + 1;
      }
    }

    /** `_purge_expired_pending`: drop every entry past its expiry. */
    method PurgeExpiredPending(now: real) returns (count: nat)
      modifies this
      ensures View() == Purged(old(View()), now) && state == old(state)
      ensures count == |old(pending)| - |pending|
    {
      var kept: seq<Pending> := [];
      for i := 0 to |pending|
        invariant View() == old(View()) && state == old(state)
        invariant kept == Keep(pending[..i], LiveAt(now)) && |kept| <= i
      {
        KeepAppend(pending[..i], pending[i], LiveAt(now));
        assert pending[..i + 1] == pending[..i] + [pending[i]];
        if !(now > pending[i].expiresAt) {
          kept := kept + [pending[i]];
        }
      }
      assert pending[..|pending|] == pending;
      count := |pending| - |kept|;
      pending := kept;
    }

    /** The loop of `_include_pending_in_projection`: positions of the live pendings. */
    method PendingPositions() returns (ps: seq<Position>)
      ensures ps == AsPositions(pending)
    {
      ps := [];
      for i := 0 to |pending|
        invariant ps == AsPositions(pending[..i])
      {
        AsPositionsAppend(pending[..i], pending[i]);
        assert pending[..i + 1] == pending[..i] + [pending[i]];
        ps := ps + [AsPosition(pending[i].signal)];
      }
      assert pending[..|pending|] == pending;
    }

    /** The first loop of `_evaluate_thresholds`: stop at the first currency that reaches a hard limit. */
    method FirstHardBlock(projected: map<Currency, Exposure>, affected: seq<Currency>, ghost ps: seq<Position>)
      returns (first: Option<Currency>)
      requires AreBaskets(ps, spot, projected) && forall c :: c in affected ==> Touched(ps, c)
      ensures var hard := Select(affected, HardTest(cfg, ps, spot));
              first == if hard == [] then None else Some(hard[0])
    {
      ghost var hard := HardTest(cfg, ps, spot);
      for i := 0 to |affected|
        invariant Select(affected[..i], hard) == []
      {
        var c := affected[i];
        SelectAppend(affected[..i], c, hard);
        assert affected[..i + 1] == affected[..i] + [c];
        if c !in projected {
          continue;
        }
        var e, t := projected[c], ThresholdsFor(cfg, c);
        SummaryMetrics(ps, spot, c);
        if e.netCount >= t.hardCount || e.netNotional >= t.hardNet || e.grossNotional >= t.hardGross {
          SelectPrefix(affected, i + 1, hard);
          return Some(c);
        }
      }
      assert affected[..|affected|] == affected;
      first := None;
    }

    /** The second loop: every currency that reaches a soft limit, once. */
    method SoftWarnings(projected: map<Currency, Exposure>, affected: seq<Currency>, ghost ps: seq<Position>)
      returns (warned: seq<Currency>)
      requires AreBaskets(ps, spot, projected) && forall c :: c in affected ==> Touched(ps, c)
      ensures warned == Select(affected, SoftTest(cfg, ps, spot))
    {
      ghost var soft := SoftTest(cfg, ps, spot);
      warned := [];
      for i := 0 to |affected|
        invariant warned == Select(affected[..i], soft)
      {
        var c := affected[i];
        SelectAppend(affected[..i], c, soft);
        assert affected[..i + 1] == affected[..i] + [c];
        if c !in projected {
          continue;
        }
        var e, t := projected[c], ThresholdsFor(cfg, c);
        SummaryMetrics(ps, spot, c);
        if e.netCount >= t.softCount || e.netNotional >= t.softNet || e.grossNotional >= t.softGross {
          warned := warned + [c];
        }
      }
      assert affected[..|affected|] == affected;
    }

    /** `_evaluate_thresholds`. */
    method EvaluateThresholds(projected: map<Currency, Exposure>, affected: seq<Currency>, ghost ps: seq<Position>)
      returns (verdict: Verdict, reported: seq<Currency>)
      requires AreBaskets(ps, spot, projected) && forall c :: c in affected ==> Touched(ps, c)
      ensures (verdict, reported) == Judge(cfg, ps, spot, affected)
    {
      var first := FirstHardBlock(projected, affected, ps);
      if first.Some? {
        assert Select(affected, HardTest(cfg, ps, spot))[..1] == [first.value];
        return HardBlock, [first.value];
      }
      reported := SoftWarnings(projected, affected, ps);
      verdict := if reported != [] then SoftWarning else Allow;
    }

    /** `_register_pending`: reserve a slot under a fresh id. */
    method RegisterPending(s: Admissible, verdict: Verdict, now: real) returns (id: nat)
      modifies this
      ensures View() == Admit(old(View()), s, verdict, now + cfg.pendingTimeout) && state == old(state)
      ensures id == old(nextId)
    {
      id := nextId;
      nextId := nextId + 1;
      pending := pending + [Pending(id, s, verdict, now + cfg.pendingTimeout)];
    }

    /** The part of `evaluate` that runs with the lock held. */
    method EvaluateWithLock(s: Signal, env: Env) returns (d: Decision)
      requires Parses(s)
      modifies this
      ensures (View(), d) == EvaluateLocked(cfg, old(View()), s, env) && state == old(state)
    {
      var ok := GetPositionsSafe(env);
      if !ok {
        return FailClosed(version);
      }
      if !AllRecognised(positions) {
        return FailClosed(version);
      }
      if s.instrument.base == XAU && XAU_USD !in spot {
        return FailClosed(version);
      }
      if !Convertible(s) {
        return FailClosed(version);
      }
      var expired := PurgeExpiredPending(env.now);
      var reserved := PendingPositions();
      var all := positions + [AsPosition(s)] + reserved;
      d := Decide(s, all, env.now);
    }

    /** Project, judge, and register unless blocked. */
    method Decide(s: Admissible, all: seq<Position>, now: real) returns (d: Decision)
      requires all == Projection(View(), s) && AllRecognised(positions)
      modifies this
      ensures (View(), d) == Conclude(cfg, old(View()), s, now) && state == old(state)
    {
      ProjectionRecognised(View(), s);
      AffectedTouched(View(), s);
      var baskets := CalculateBasketExposure(all, spot);
      var shot := Snapshot(baskets.value, |all|, version);
      BasketsAreSnapshot(all, spot, version, baskets.value);
      var verdict, affected := EvaluateThresholds(baskets.value, Affected(s.instrument), all);
      var id: Option<nat> := None;
      if verdict != HardBlock {
        var slot := RegisterPending(s, verdict, now);
        id := Some(slot);
      }
      d := Decision(verdict, id, affected, false, shot);
    }

    /** `evaluate` as one caller sees it: state, signal and lock are checked before anything is touched. */
    method Evaluate(s: Signal, env: Env, acquired: bool) returns (d: Decision)
      modifies this
      ensures state == old(state)
      ensures state !in {Ready, Degraded} || !Parses(s) || !acquired ==>
                View() == old(View()) && d == FailClosed(version)
      ensures state in {Ready, Degraded} && Parses(s) && acquired ==>
                (View(), d) == EvaluateLocked(cfg, old(View()), s, env)
      ensures d.pendingId.Some? ==>
                forall c :: c in Affected(s.instrument) ==>
                  var (ps, t) := (positions + AsPositions(pending), ThresholdsFor(cfg, c));
                  && Count(ps, c, Long) - Count(ps, c, Short) < t.hardCount
                  && Count(ps, c, Short) - Count(ps, c, Long) < t.hardCount
                  && Notional(ps, spot, c, Long) - Notional(ps, spot, c, Short) < t.hardNet
                  && Notional(ps, spot, c, Short) - Notional(ps, spot, c, Long) < t.hardNet
                  && Notional(ps, spot, c, Long) + Notional(ps, spot, c, Short) < t.hardGross
    {
      if state == Initializing || state == Synchronizing || state == Failed {
        return FailClosed(version);
      }
      if !Parses(s) {
        return FailClosed(version);
      }
      if !acquired {
        return FailClosed(version);
      }
      d := EvaluateWithLock(s, env);
      if d.pendingId.Some? {
        forall c | c in Affected(s.instrument)
          ensures var (ps, t) := (positions + AsPositions(pending), ThresholdsFor(cfg, c));
                  && Count(ps, c, Long) - Count(ps, c, Short) < t.hardCount
                  && Count(ps, c, Short) - Count(ps, c, Long) < t.hardCount
                  && Notional(ps, spot, c, Long) - Notional(ps, spot, c, Short) < t.hardNet
                  && Notional(ps, spot, c, Short) - Notional(ps, spot, c, Long) < t.hardNet
                  && Notional(ps, spot, c, Long) + Notional(ps, spot, c, Short) < t.hardGross
        {
          GateVerdict.AdmissionBelowLimits(cfg, old(View()), s, env, c);
        }
      }
    }

    /** `del self._pending[id]` behind a membership test. */
    method RemovePending(id: nat) returns (found: bool)
      modifies this
      ensures View() == old(View()).(pending := Keep(old(pending), OtherThan(id))) && state == old(state)
      ensures found <==> id in Ids(old(pending))
    {
      var kept: seq<Pending> := [];
      found := false;
      for i := 0 to |pending|
        invariant View() == old(View()) && state == old(state)
        invariant kept == Keep(pending[..i], OtherThan(id))
        invariant found <==> exists k :: 0 <= k < i && pending[k].id == id
      {
        KeepAppend(pending[..i], pending[i], OtherThan(id));
        assert pending[..i + 1] == pending[..i] + [pending[i]];
        if pending[i].id == id {
          found := true;
        } else {
          kept := kept + [pending[i]];
        }
      }
      assert pending[..|pending|] == pending;
      pending := kept;
    }

    method ConfirmExecution(id: nat, ghost env: Env) returns (found: bool)
      modifies this
      ensures (View(), Found(found)) == Step(cfg, old(View()), Confirm(id), env) && state == old(state)
    {
      found := RemovePending(id);
    }

    method CancelPending(id: nat, ghost env: Env) returns (found: bool)
      modifies this
      ensures (View(), Found(found)) == Step(cfg, old(View()), Cancel(id), env) && state == old(state)
    {
      found := RemovePending(id);
    }

    method UpdateSpotPrices(prices: map<string, real>, ghost env: Env)
      modifies this
      ensures (View(), Merged) == Step(cfg, old(View()), UpdateSpot(prices), env) && state == old(state)
    {
      spot := spot + prices;
    }

    /** `synchronize_with_engine`; None stands for ids that do not form a set, which fails the gate. */
    method SynchronizeWithEngine(active: Option<set<nat>>, ghost env: Env) returns (r: Option<Response>)
      modifies this
      ensures active.None? ==> r.None? && state == Failed && View() == old(View())
      ensures active.Some? ==> r.Some? && state == old(state)
                               && (View(), r.value) == Step(cfg, old(View()), Handshake(active.value), env)
                               && Ids(pending) == Ids(old(pending)) * active.value
    {
      if active.None? {
        state := Failed;
        return None;
      }
      var known := Ids(pending);
      var zombies, retained := known - active.value, known * active.value;
      var kept: seq<Pending> := [];
      for i := 0 to |pending|
        invariant View() == old(View()) && state == old(state)
        invariant kept == Keep(pending[..i], ActiveIn(active.value))
      {
        KeepAppend(pending[..i], pending[i], ActiveIn(active.value));
        assert pending[..i + 1] == pending[..i] + [pending[i]];
        assert pending[i].id in known;
        if pending[i].id !in zombies {
          kept := kept + [pending[i]];
        }
      }
      assert pending[..|pending|] == pending;
      pending := kept;
      r := Some(Synced(zombies, retained));
      GateVerdict.HandshakeIds(cfg, old(View()), active.value, env);
    }

    /** `refresh_positions`: a failed refresh keeps the cache and degrades a ready gate. */
    method RefreshPositions(env: Env) returns (count: nat)
      modifies this
      ensures (View(), Counted(count)) == Step(cfg, old(View()), Refresh, env)
      ensures state == if !env.fetch.Fetched? && old(state) == Ready then Degraded else old(state)
    {
      if env.fetch.Fetched? {
        positions := env.fetch.positions;
        lastFetch := Some(env.now);
        version := version + 1;
      } else if state == Ready {
        state := Degraded;
      }
      count := |positions|;
    }
  }

  lemma SummaryMetrics(ps: seq<Position>, spot: map<string, real>, c: Currency)
    ensures var e := Summary(ps, spot, c);
            && e.netCount == NetCount(ps, c)
            && e.netNotional == NetNotional(ps, spot, c)
            && e.grossNotional == Gross(ps, spot, c)
  {
  }

  lemma {:induction false} PendingRecognised(ps: seq<Pending>)
    ensures AllRecognised(AsPositions(ps))
  {
    if ps != [] {
      PendingRecognised(ps[..|ps| - 1]);
    }
  }

  lemma ProjectionRecognised(g: Core, s: Admissible)
    requires AllRecognised(g.positions)
    ensures AllRecognised(Projection(g, s))
  {
    PendingRecognised(g.pending);
  }

  lemma AffectedTouched(g: Core, s: Admissible)
    ensures forall c :: c in Affected(s.instrument) ==> Touched(Projection(g, s), c)
  {
    assert Projection(g, s)[|g.positions|] == AsPosition(s);
    forall c | c in Affected(s.instrument) ensures Touched(Projection(g, s), c) {
      AffectedAreTouched(AsPosition(s), c);
    }
  }

  lemma BasketsAreSnapshot(ps: seq<Position>, spot: map<string, real>, version: nat, baskets: map<Currency, Exposure>)
    requires AreBaskets(ps, spot, baskets)
    ensures Snapshot(baskets, |ps|, version) == SnapshotOf(ps, spot, version)
  {
    var shot := SnapshotOf(ps, spot, version).baskets;
    forall c: Currency ensures c in ALL_CURRENCIES {
      EveryCurrencyListed(c);
    }
    assert baskets.Keys == shot.Keys;
  }

  lemma EveryCurrencyListed(c: Currency)
    ensures c in ALL_CURRENCIES
  {
    var all := ALL_CURRENCIES;
    assert all[0] == USD && all[1] == EUR && all[2] == GBP && all[3] == JPY && all[4] == CHF && all[5] == AUD
           && all[6] == CAD && all[7] == NZD && all[8] == XAU;
  }
}

/**
 * What the gate answers and does, in terms of what it holds: sums, prices, ages and ids
 * (correlation-gate/src/gate.py, models.py).
 */
module GateVerdict {
  import opened Arith
  import opened Directional
  import opened Baskets
  import opened GateCore
  import opened GateSafety

  // ----- limits -----

  /** A currency's own setting wins, key by key; every other limit is the default. */
  lemma OverridesWin(cfg: Config, c: Currency)
    ensures var t, d := ThresholdsFor(cfg, c), cfg.defaults;
            && (c !in cfg.overrides ==> t == d)
            && (c in cfg.overrides ==>
                  var o := cfg.overrides[c];
                  && (if o.softCount.Some? then o.softCount == Some(t.softCount) else t.softCount == d.softCount)
                  && (if o.hardCount.Some? then o.hardCount == Some(t.hardCount) else t.hardCount == d.hardCount)
                  && (if o.softNet.Some? then o.softNet == Some(t.softNet) else t.softNet == d.softNet)
                  && (if o.hardNet.Some? then o.hardNet == Some(t.hardNet) else t.hardNet == d.hardNet)
                  && (if o.softGross.Some? then o.softGross == Some(t.softGross) else t.softGross == d.softGross)
                  && (if o.hardGross.Some? then o.hardGross == Some(t.hardGross) else t.hardGross == d.hardGross))
  {
  }

  lemma ReachesOnSums(ps: seq<Position>, spot: map<string, real>, c: Currency, count: int, net: real, gross: real)
    ensures var (l, s) := (Count(ps, c, Long), Count(ps, c, Short));
            var (ln, sn) := (Notional(ps, spot, c, Long), Notional(ps, spot, c, Short));
            Reaches(ps, spot, c, count, net, gross)
            <==> l - s >= count || s - l >= count || ln - sn >= net || sn - ln >= net || ln + sn >= gross
  {
  }

  // ----- the verdict -----

  /** The cached positions an evaluation works on: fetched again when none are held or over five seconds old. */
  function PositionsAt(g: Core, env: Env): seq<Position> {
    if (g.lastFetch.Some? && env.now - g.lastFetch.value <= 5.0) || !env.fetch.Fetched? then g.positions
    else env.fetch.positions
  }

  /** An evaluation fails closed exactly on a failed fetch, an unreadable cache, unpriced gold or a bad signal. */
  lemma FailsClosedIff(cfg: Config, g: Core, s: Signal, env: Env)
    requires s.instrument.Pair?
    ensures var d := EvaluateLocked(cfg, g, s, env).1;
            d.failClosed
            <==> || ((g.lastFetch.None? || env.now - g.lastFetch.value > 5.0) && !env.fetch.Fetched?)
                 || (exists i :: 0 <= i < |PositionsAt(g, env)| && PositionsAt(g, env)[i].instrument.Unrecognised?)
                 || (s.instrument.base == XAU && "XAU_USD" !in g.spot)
                 || !s.direction.Exact? || s.units < 0
    ensures EvaluateLocked(cfg, g, s, env).1.failClosed ==> EvaluateLocked(cfg, g, s, env).1.verdict == HardBlock
  {
    FailsClosedWhen(cfg, g, s, env);
    RefusesWhen(Refreshed(g, env).0, s);
    assert Refreshed(g, env).0.positions == PositionsAt(g, env);
  }

  lemma FailsClosedWhen(cfg: Config, g: Core, s: Signal, env: Env)
    ensures var (r, ok) := Refreshed(g, env);
            EvaluateLocked(cfg, g, s, env).1.failClosed <==> !ok || Refuses(r, s)
    ensures EvaluateLocked(cfg, g, s, env).1.failClosed ==> EvaluateLocked(cfg, g, s, env).1.verdict == HardBlock
  {
    var (r, ok) := Refreshed(g, env);
    if ok && !Refuses(r, s) {
      assert EvaluateLocked(cfg, g, s, env) == Conclude(cfg, Purged(r, env.now), s, env.now);
      ConcludeShape(cfg, Purged(r, env.now), s, env.now);
    }
  }

  lemma RefusesWhen(r: Core, s: Signal)
    requires s.instrument.Pair?
    ensures Refuses(r, s)
       <==> || (exists i :: 0 <= i < |r.positions| && r.positions[i].instrument.Unrecognised?)
            || (s.instrument.base == XAU && "XAU_USD" !in r.spot)
            || !s.direction.Exact? || s.units < 0
  {
  }

  /** Cached positions, the signal at a placeholder price of one, and the pendings not yet expired. */
  ghost function Weighed(g: Core, s: Signal, env: Env): seq<Position>
    requires s.direction.Exact? && s.units >= 0
  {
    PositionsAt(g, env) + [Position(s.instrument, s.direction.side, s.units, 1.0)]
    + AsPositions(Keep(g.pending, LiveAt(env.now)))
  }

  lemma DecidedOnWeighed(cfg: Config, g: Core, s: Signal, env: Env)
    requires !EvaluateLocked(cfg, g, s, env).1.failClosed
    ensures Convertible(s) && Parses(s)
    ensures var (v, reported) := Judge(cfg, Weighed(g, s, env), g.spot, Affected(s.instrument));
            && EvaluateLocked(cfg, g, s, env).1.verdict == v
            && EvaluateLocked(cfg, g, s, env).1.affected == reported
  {
    var r := Purged(Refreshed(g, env).0, env.now);
    assert EvaluateLocked(cfg, g, s, env) == Conclude(cfg, r, s, env.now);
    assert Projection(r, s) == Weighed(g, s, env);
  }

  /**
   * A decision that is not fail-closed blocks exactly when on some affected currency longs and shorts weighed differ
   * in number or notional by a hard limit, or add up to one.
   */
  lemma BlockOnSums(cfg: Config, g: Core, s: Signal, env: Env)
    requires !EvaluateLocked(cfg, g, s, env).1.failClosed
    ensures Convertible(s)
    ensures EvaluateLocked(cfg, g, s, env).1.verdict == HardBlock
       <==> exists c :: c in Affected(s.instrument) &&
              var (t, ps) := (ThresholdsFor(cfg, c), Weighed(g, s, env));
              || Count(ps, c, Long) - Count(ps, c, Short) >= t.hardCount
              || Count(ps, c, Short) - Count(ps, c, Long) >= t.hardCount
              || Notional(ps, g.spot, c, Long) - Notional(ps, g.spot, c, Short) >= t.hardNet
              || Notional(ps, g.spot, c, Short) - Notional(ps, g.spot, c, Long) >= t.hardNet
              || Notional(ps, g.spot, c, Long) + Notional(ps, g.spot, c, Short) >= t.hardGross
  {
    DecidedOnWeighed(cfg, g, s, env);
    JudgeMeaning(cfg, Weighed(g, s, env), g.spot, Affected(s.instrument));
    forall c | c in Affected(s.instrument) {
      BreachesOnSums(cfg, Weighed(g, s, env), g.spot, c);
    }
  }

  /** It allows exactly when on every affected currency all six limits are out of reach. */
  lemma AllowOnSums(cfg: Config, g: Core, s: Signal, env: Env)
    requires !EvaluateLocked(cfg, g, s, env).1.failClosed
    ensures Convertible(s)
    ensures EvaluateLocked(cfg, g, s, env).1.verdict == Allow
       <==> forall c :: c in Affected(s.instrument) ==>
              var (t, ps) := (ThresholdsFor(cfg, c), Weighed(g, s, env));
              && Count(ps, c, Long) - Count(ps, c, Short) < MinInt(t.softCount, t.hardCount)
              && Count(ps, c, Short) - Count(ps, c, Long) < MinInt(t.softCount, t.hardCount)
              && Notional(ps, g.spot, c, Long) - Notional(ps, g.spot, c, Short) < Min(t.softNet, t.hardNet)
              && Notional(ps, g.spot, c, Short) - Notional(ps, g.spot, c, Long) < Min(t.softNet, t.hardNet)
              && Notional(ps, g.spot, c, Long) + Notional(ps, g.spot, c, Short) < Min(t.softGross, t.hardGross)
  {
    DecidedOnWeighed(cfg, g, s, env);
    JudgeMeaning(cfg, Weighed(g, s, env), g.spot, Affected(s.instrument));
    forall c | c in Affected(s.instrument) {
      QuietOnSums(cfg, Weighed(g, s, env), g.spot, c);
    }
  }

  lemma QuietOnSums(cfg: Config, ps: seq<Position>, spot: map<string, real>, c: Currency)
    ensures var t := ThresholdsFor(cfg, c);
            !HardBreach(cfg, ps, spot, c) && !SoftBreach(cfg, ps, spot, c)
            <==> && Count(ps, c, Long) - Count(ps, c, Short) < MinInt(t.softCount, t.hardCount)
                 && Count(ps, c, Short) - Count(ps, c, Long) < MinInt(t.softCount, t.hardCount)
                 && Notional(ps, spot, c, Long) - Notional(ps, spot, c, Short) < Min(t.softNet, t.hardNet)
                 && Notional(ps, spot, c, Short) - Notional(ps, spot, c, Long) < Min(t.softNet, t.hardNet)
                 && Notional(ps, spot, c, Long) + Notional(ps, spot, c, Short) < Min(t.softGross, t.hardGross)
  {
    BreachesOnSums(cfg, ps, spot, c);
  }

  lemma BreachesOnSums(cfg: Config, ps: seq<Position>, spot: map<string, real>, c: Currency)
    ensures var t := ThresholdsFor(cfg, c);
            var (l, s) := (Count(ps, c, Long), Count(ps, c, Short));
            var (ln, sn) := (Notional(ps, spot, c, Long), Notional(ps, spot, c, Short));
            && (HardBreach(cfg, ps, spot, c) <==> || l - s >= t.hardCount || s - l >= t.hardCount
                                                  || ln - sn >= t.hardNet || sn - ln >= t.hardNet
                                                  || ln + sn >= t.hardGross)
            && (SoftBreach(cfg, ps, spot, c) <==> || l - s >= t.softCount || s - l >= t.softCount
                                                  || ln - sn >= t.softNet || sn - ln >= t.softNet
                                                  || ln + sn >= t.softGross)
  {
    var t := ThresholdsFor(cfg, c);
    ReachesOnSums(ps, spot, c, t.hardCount, t.hardNet, t.hardGross);
    ReachesOnSums(ps, spot, c, t.softCount, t.softNet, t.softGross);
  }

  /** A block names the first currency of the pair at a hard limit, a warning every one at a soft limit, base first. */
  lemma ReportedCurrencies(cfg: Config, g: Core, s: Signal, env: Env)
    requires !EvaluateLocked(cfg, g, s, env).1.failClosed
    ensures Convertible(s)
    ensures var (d, ps) := (EvaluateLocked(cfg, g, s, env).1, Weighed(g, s, env));
            var (base, quote) := (s.instrument.base, s.instrument.quote);
            && (d.verdict == Allow ==> d.affected == [])
            && (d.verdict == HardBlock ==>
                  d.affected == if HardBreach(cfg, ps, g.spot, base) then [base] else [quote])
            && (d.verdict == SoftWarning ==>
                  d.affected == (if SoftBreach(cfg, ps, g.spot, base) then [base] else [])
                                + (if base != quote && SoftBreach(cfg, ps, g.spot, quote) then [quote] else []))
  {
    DecidedOnWeighed(cfg, g, s, env);
    var ps, a := Weighed(g, s, env), Affected(s.instrument);
    SelectOfTwo(a, HardTest(cfg, ps, g.spot));
    SelectOfTwo(a, SoftTest(cfg, ps, g.spot));
  }

  lemma SelectOfTwo(cs: seq<Currency>, f: Currency -> bool)
    requires 1 <= |cs| <= 2
    ensures Select(cs, f) == (if f(cs[0]) then [cs[0]] else []) + (if |cs| == 2 && f(cs[1]) then [cs[1]] else [])
  {
    if |cs| == 2 {
      assert cs[1..] == [cs[1]] && cs[1..][1..] == [];
    } else {
      assert cs[1..] == [];
    }
  }

  // ----- what an admission leaves -----

  /**
   * Right after an admission, on every currency of the pair, the longs and shorts held and reserved differ by less than
   * the hard count and the hard net notional, and add up to less than the hard gross notional.
   */
  lemma AdmissionBelowLimits(cfg: Config, g: Core, s: Signal, env: Env, c: Currency)
    requires EvaluateLocked(cfg, g, s, env).1.pendingId.Some?
    requires s.instrument.Pair? && (c == s.instrument.base || c == s.instrument.quote)
    ensures var (after, t) := (EvaluateLocked(cfg, g, s, env).0, ThresholdsFor(cfg, c));
            var ps := after.positions + AsPositions(after.pending);
            && Count(ps, c, Long) - Count(ps, c, Short) < t.hardCount
            && Count(ps, c, Short) - Count(ps, c, Long) < t.hardCount
            && Notional(ps, after.spot, c, Long) - Notional(ps, after.spot, c, Short) < t.hardNet
            && Notional(ps, after.spot, c, Short) - Notional(ps, after.spot, c, Long) < t.hardNet
            && Notional(ps, after.spot, c, Long) + Notional(ps, after.spot, c, Short) < t.hardGross
  {
    var (after, t) := (EvaluateLocked(cfg, g, s, env).0, ThresholdsFor(cfg, c));
    AdmissionRespectsLimits(cfg, g, s, env, c);
    ReachesOnSums(Tracked(after), after.spot, c, t.hardCount, t.hardNet, t.hardGross);
  }

  /**
   * An admission appends one entry to the pendings still live, with the signal and the verdict, expiring one timeout
   * from now under the next id; any other answer appends none.
   */
  lemma AdmittedEntry(cfg: Config, g: Core, s: Signal, env: Env)
    ensures var (after, d) := EvaluateLocked(cfg, g, s, env);
            && (d.pendingId.Some? ==>
                  && Convertible(s)
                  && after.pending == Keep(g.pending, LiveAt(env.now))
                                      + [Pending(g.nextId, s, d.verdict, env.now + cfg.pendingTimeout)])
            && (d.pendingId.None? ==>
                  after.pending == if d.failClosed then g.pending else Keep(g.pending, LiveAt(env.now)))
            && after.positions == PositionsAt(g, env) && after.spot == g.spot
  {
    if EvaluateLocked(cfg, g, s, env).1.failClosed {
      RefusedState(cfg, g, s, env);
    } else {
      DecidedState(cfg, g, s, env);
    }
  }

  lemma DecidedState(cfg: Config, g: Core, s: Signal, env: Env)
    requires !EvaluateLocked(cfg, g, s, env).1.failClosed
    ensures Convertible(s)
    ensures var (after, d) := EvaluateLocked(cfg, g, s, env);
            && after.pending == Keep(g.pending, LiveAt(env.now))
                                + (if d.pendingId.Some?
                                   then [Pending(g.nextId, s, d.verdict, env.now + cfg.pendingTimeout)] else [])
            && after.positions == PositionsAt(g, env) && after.spot == g.spot
  {
    DecidedByConclusion(cfg, g, s, env);
    ConcludedEntry(cfg, Purged(Refreshed(g, env).0, env.now), s, env.now);
  }

  lemma RefusedState(cfg: Config, g: Core, s: Signal, env: Env)
    requires EvaluateLocked(cfg, g, s, env).1.failClosed
    ensures var (after, d) := EvaluateLocked(cfg, g, s, env);
            && d.pendingId.None? && after.pending == g.pending
            && after.positions == PositionsAt(g, env) && after.spot == g.spot
  {
    FailsClosedWhen(cfg, g, s, env);
  }

  lemma DecidedByConclusion(cfg: Config, g: Core, s: Signal, env: Env)
    requires !EvaluateLocked(cfg, g, s, env).1.failClosed
    ensures Convertible(s) && Refreshed(g, env).0.positions == PositionsAt(g, env)
    ensures EvaluateLocked(cfg, g, s, env) == Conclude(cfg, Purged(Refreshed(g, env).0, env.now), s, env.now)
  {
  }

  lemma ConcludedEntry(cfg: Config, g: Core, s: Admissible, now: real)
    ensures var (after, d) := Conclude(cfg, g, s, now);
            && after.pending == (if d.pendingId.Some?
                                 then g.pending + [Pending(g.nextId, s, d.verdict, now + cfg.pendingTimeout)]
                                 else g.pending)
            && after.positions == g.positions && after.spot == g.spot
  {
    ConcludeShape(cfg, g, s, now);
  }

  /** A decision that is not fail-closed leaves just the pendings whose expiry is not past, and what it admitted. */
  lemma OnlyLiveStay(cfg: Config, g: Core, s: Signal, env: Env, p: Pending)
    requires !EvaluateLocked(cfg, g, s, env).1.failClosed && p.id != g.nextId
    ensures p in EvaluateLocked(cfg, g, s, env).0.pending <==> p in g.pending && !(env.now > p.expiresAt)
  {
    AdmittedEntry(cfg, g, s, env);
    KeptAre(g.pending, LiveAt(env.now));
  }

  // ----- the other requests -----

  /** Confirming and cancelling drop the entry with that id, a handshake keeps the entries the engine knows. */
  lemma WhatStaysPending(cfg: Config, g: Core, req: Request, env: Env, p: Pending)
    requires req.Confirm? || req.Cancel? || req.Handshake?
    ensures var after := Step(cfg, g, req, env).0;
            && (req.Confirm? || req.Cancel? ==> (p in after.pending <==> p in g.pending && p.id != req.id))
            && (req.Handshake? ==> (p in after.pending <==> p in g.pending && p.id in req.active))
  {
    match req
    case Confirm(id) => KeptAre(g.pending, OtherThan(id));
    case Cancel(id) => KeptAre(g.pending, OtherThan(id));
    case Handshake(active) => KeptAre(g.pending, ActiveIn(active));
  }

  /** After a handshake the gate holds exactly the ids both sides knew; it reports those and the ones it dropped. */
  lemma HandshakeIds(cfg: Config, g: Core, active: set<nat>, env: Env)
    ensures var (after, answer) := Step(cfg, g, Handshake(active), env);
            && Ids(after.pending) == Ids(g.pending) * active
            && answer.Synced? && answer.retained == Ids(after.pending)
            && answer.purged == Ids(g.pending) - Ids(after.pending)
  {
    KeptAre(g.pending, ActiveIn(active));
  }

  /** A fetch that succeeds replaces the cache, dates it and moves the version by one; a failing one changes nothing. */
  lemma LoadedCache(cfg: Config, g: Core, req: Request, env: Env)
    requires req.Refresh? || req.Initialize?
    ensures var after := Step(cfg, g, req, env).0;
            && after.pending == g.pending && after.spot == g.spot && after.nextId == g.nextId
            && (env.fetch.Fetched? ==>
                  && after.positions == env.fetch.positions && after.lastFetch == Some(env.now)
                  && after.version == g.version + 1)
            && (!env.fetch.Fetched? ==> after == g)
  {
  }

  /** New prices win, and no known price is forgotten. */
  lemma PricesMerged(cfg: Config, g: Core, prices: map<string, real>, env: Env, name: string)
    ensures var after := Step(cfg, g, UpdateSpot(prices), env).0;
            && (name in after.spot <==> name in prices || name in g.spot)
            && (name in after.spot ==> after.spot[name] == if name in prices then prices[name] else g.spot[name])
            && after == g.(spot := after.spot)
  {
  }
}

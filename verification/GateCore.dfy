/** The gate's lock-protected state and what each critical section does to it (correlation-gate/src/gate.py). */
module GateCore {
  import opened Arith
  import opened Directional
  import opened Baskets

  datatype GateState = Initializing | Synchronizing | Ready | Degraded | Failed

  datatype Thresholds = Thresholds(
    softCount: int, hardCount: int, softNet: real, hardNet: real, softGross: real, hardGross: real)

  datatype Override = Override(
    softCount: Option<int>, hardCount: Option<int>, softNet: Option<real>, hardNet: Option<real>,
    softGross: Option<real>, hardGross: Option<real>)

  datatype Config = Config(defaults: Thresholds, overrides: map<Currency, Override>, pendingTimeout: real)

  /** Cached positions older than this many seconds are fetched again. */
  const REFRESH_AFTER := 5.0

  function Or<T>(o: Option<T>, d: T): T {
    match o case Some(v) => v case None => d
  }

  /** `get_thresholds_for_currency`: defaults, updated key by key. */
  function ThresholdsFor(cfg: Config, c: Currency): Thresholds {
    if c in cfg.overrides then
      var o := cfg.overrides[c];
      var d := cfg.defaults;
      Thresholds(Or(o.softCount, d.softCount), Or(o.hardCount, d.hardCount), Or(o.softNet, d.softNet),
                 Or(o.hardNet, d.hardNet), Or(o.softGross, d.softGross), Or(o.hardGross, d.hardGross))
    else cfg.defaults
  }

  // ----- state -----

  /** An admitted signal not yet confirmed, cancelled or expired. */
  datatype Pending = Pending(id: nat, signal: Admissible, verdict: Verdict, expiresAt: real)

  /** Everything the lock protects except the state word; the pending dict is its entries in insertion order. */
  datatype Core = Core(positions: seq<Position>, lastFetch: Option<real>, pending: seq<Pending>, version: nat,
                       spot: map<string, real>, nextId: nat)

  /** Ids are unique and all below the supply of fresh ones. */
  ghost predicate WellFormed(g: Core) {
    && (forall i :: 0 <= i < |g.pending| ==> g.pending[i].id < g.nextId)
    && (forall i, j :: 0 <= i < j < |g.pending| ==> g.pending[i].id != g.pending[j].id)
  }

  function Keep(ps: seq<Pending>, f: Pending -> bool): seq<Pending> {
    if ps == [] then []
    else Keep(ps[..|ps| - 1], f) + if f(ps[|ps| - 1]) then [ps[|ps| - 1]] else []
  }

  function LiveAt(now: real): Pending -> bool {
    (p: Pending) => now <= p.expiresAt
  }

  function OtherThan(id: nat): Pending -> bool {
    (p: Pending) => p.id != id
  }

  function ActiveIn(ids: set<nat>): Pending -> bool {
    (p: Pending) => p.id in ids
  }

  function Ids(ps: seq<Pending>): set<nat> {
    set p | p in ps :: p.id
  }

  function AsPositions(ps: seq<Pending>): seq<Position> {
    if ps == [] then [] else AsPositions(ps[..|ps| - 1]) + [AsPosition(ps[|ps| - 1].signal)]
  }

  /** Cached positions and all pendings: the exposure the gate knows about. */
  function Tracked(g: Core): seq<Position> {
    g.positions + AsPositions(g.pending)
  }

  // ----- the decision -----

  datatype Verdict = Allow | SoftWarning | HardBlock

  datatype Snapshot = Snapshot(baskets: map<Currency, Exposure>, total: nat, version: nat)

  datatype Decision = Decision(verdict: Verdict, pendingId: Option<nat>, affected: seq<Currency>, failClosed: bool,
                               projected: Snapshot)

  /** A metric at or above its threshold. */
  predicate Reaches(ps: seq<Position>, spot: map<string, real>, c: Currency, count: int, net: real, gross: real) {
    NetCount(ps, c) >= count || NetNotional(ps, spot, c) >= net || Gross(ps, spot, c) >= gross
  }

  predicate HardBreach(cfg: Config, ps: seq<Position>, spot: map<string, real>, c: Currency) {
    var t := ThresholdsFor(cfg, c);
    Reaches(ps, spot, c, t.hardCount, t.hardNet, t.hardGross)
  }

  predicate SoftBreach(cfg: Config, ps: seq<Position>, spot: map<string, real>, c: Currency) {
    var t := ThresholdsFor(cfg, c);
    Reaches(ps, spot, c, t.softCount, t.softNet, t.softGross)
  }

  function Select(cs: seq<Currency>, f: Currency -> bool): seq<Currency> {
    if cs == [] then [] else (if f(cs[0]) then [cs[0]] else []) + Select(cs[1..], f)
  }

  function HardTest(cfg: Config, ps: seq<Position>, spot: map<string, real>): Currency -> bool {
    c => HardBreach(cfg, ps, spot, c)
  }

  function SoftTest(cfg: Config, ps: seq<Position>, spot: map<string, real>): Currency -> bool {
    c => SoftBreach(cfg, ps, spot, c)
  }

  /** Hard limits first, reporting the first currency that reaches one; then every currency with a soft warning. */
  function Judge(cfg: Config, ps: seq<Position>, spot: map<string, real>, affected: seq<Currency>)
    : (Verdict, seq<Currency>)
  {
    var hard := Select(affected, HardTest(cfg, ps, spot));
    var soft := Select(affected, SoftTest(cfg, ps, spot));
    if hard != [] then (HardBlock, hard[..1]) else if soft != [] then (SoftWarning, soft) else (Allow, [])
  }

  ghost function SnapshotOf(ps: seq<Position>, spot: map<string, real>, version: nat): Snapshot {
    Snapshot(map c | c in ALL_CURRENCIES && Touched(ps, c) :: Summary(ps, spot, c), |ps|, version)
  }

  function FailClosed(version: nat): Decision {
    Decision(HardBlock, None, [], true, Snapshot(map[], 0, version))
  }

  // ----- critical sections -----

  datatype Fetch = Fetched(positions: seq<Position>) | FetchTimedOut | ProviderFailed

  /** What a critical section finds outside the gate: the clock, and the provider's answer if it asks. */
  datatype Env = Env(now: real, fetch: Fetch)

  predicate Stale(g: Core, now: real) {
    g.lastFetch.None? || now - g.lastFetch.value > REFRESH_AFTER
  }

  function Load(g: Core, now: real, positions: seq<Position>): Core {
    g.(positions := positions, lastFetch := Some(now), version := g.version + 1)
  }

  /** `_get_positions_safe`: the cache, refreshed when stale; false when the provider had no answer. */
  function Refreshed(g: Core, env: Env): (Core, bool) {
    if !Stale(g, env.now) then (g, true)
    else if env.fetch.Fetched? then (Load(g, env.now, env.fetch.positions), true)
    else (g, false)
  }

  /** Errors found after the fetch: unreadable cached positions, gold without a spot price, an unconvertible signal. */
  predicate Refuses(g: Core, s: Signal) {
    !AllRecognised(g.positions)
    || (s.instrument.Pair? && s.instrument.base == XAU && XAU_USD !in g.spot)
    || !Convertible(s)
  }

  function Purged(g: Core, now: real): Core {
    g.(pending := Keep(g.pending, LiveAt(now)))
  }

  /** Positions, then the new signal, then the live pendings. */
  function Projection(g: Core, s: Admissible): seq<Position> {
    g.positions + [AsPosition(s)] + AsPositions(g.pending)
  }

  function Admit(g: Core, s: Admissible, v: Verdict, expiresAt: real): Core {
    g.(pending := g.pending + [Pending(g.nextId, s, v, expiresAt)], nextId := g.nextId + 1)
  }

  /** Judge the projection of a purged state and reserve a slot unless it is a hard block. */
  ghost function Conclude(cfg: Config, g: Core, s: Admissible, now: real): (Core, Decision) {
    var ps := Projection(g, s);
    var (verdict, affected) := Judge(cfg, ps, g.spot, Affected(s.instrument));
    var shot := SnapshotOf(ps, g.spot, g.version);
    if verdict == HardBlock then (g, Decision(verdict, None, affected, false, shot))
    else (Admit(g, s, verdict, now + cfg.pendingTimeout), Decision(verdict, Some(g.nextId), affected, false, shot))
  }

  /** The critical section of `evaluate`. */
  ghost function EvaluateLocked(cfg: Config, g: Core, s: Signal, env: Env): (Core, Decision) {
    var (r, ok) := Refreshed(g, env);
    if !ok || Refuses(r, s) then (r, FailClosed(r.version))
    else Conclude(cfg, Purged(r, env.now), s, env.now)
  }

  datatype Request =
    | Evaluate(signal: Signal)
    | Confirm(id: nat)
    | Cancel(id: nat)
    | Handshake(active: set<nat>)
    | Refresh
    | Initialize
    | UpdateSpot(prices: map<string, real>)

  datatype Response =
    | Decided(decision: Decision)
    | Found(found: bool)
    | Synced(purged: set<nat>, retained: set<nat>)
    | Counted(count: nat)
    | Started(ok: bool)
    | Merged

  /** The effect of one whole critical section on the protected state. */
  ghost function Step(cfg: Config, g: Core, req: Request, env: Env): (Core, Response) {
    match req
    case Evaluate(s) =>
      var (r, d) := EvaluateLocked(cfg, g, s, env);
      (r, Decided(d))
    case Confirm(id) => (g.(pending := Keep(g.pending, OtherThan(id))), Found(id in Ids(g.pending)))
    case Cancel(id) => (g.(pending := Keep(g.pending, OtherThan(id))), Found(id in Ids(g.pending)))
    case Handshake(active) =>
      (g.(pending := Keep(g.pending, ActiveIn(active))), Synced(Ids(g.pending) - active, Ids(g.pending) * active))
    case Refresh =>
      if env.fetch.Fetched? then (Load(g, env.now, env.fetch.positions), Counted(|env.fetch.positions|))
      else (g, Counted(|g.positions|))
    case Initialize =>
      if env.fetch.Fetched? then (Load(g, env.now, env.fetch.positions), Started(true)) else (g, Started(false))
    case UpdateSpot(prices) => (g.(spot := g.spot + prices), Merged)
  }

  /** Requests served one after another. */
  ghost function Run(cfg: Config, g: Core, log: seq<(Request, Env)>): (Core, seq<Response>) {
    if log == [] then (g, [])
    else
      var (before, answers) := Run(cfg, g, log[..|log| - 1]);
      var (after, answer) := Step(cfg, before, log[|log| - 1].0, log[|log| - 1].1);
      (after, answers + [answer])
  }

  lemma RunAppend(cfg: Config, g: Core, log: seq<(Request, Env)>, req: Request, env: Env)
    ensures var (before, answers) := Run(cfg, g, log);
            var (after, answer) := Step(cfg, before, req, env);
            Run(cfg, g, log + [(req, env)]) == (after, answers + [answer])
  {
    assert (log + [(req, env)])[..|log|] == log;
  }

  /** A run can be taken up again from any point of it. */
  lemma {:induction false} RunSplit(cfg: Config, g: Core, a: seq<(Request, Env)>, b: seq<(Request, Env)>)
    ensures Run(cfg, g, a + b).0 == Run(cfg, Run(cfg, g, a).0, b).0
    decreases |b|
  {
    if b == [] {
      assert a + b == a;
    } else {
      var n := |b| - 1;
      RunSplit(cfg, g, a, b[..n]);
      assert a + b == (a + b[..n]) + [b[n]] && b == b[..n] + [b[n]];
      RunAppend(cfg, g, a + b[..n], b[n].0, b[n].1);
      RunAppend(cfg, Run(cfg, g, a).0, b[..n], b[n].0, b[n].1);
    }
  }

  /** Each request is answered by its own step. */
  lemma {:induction false} AnswerAt(cfg: Config, g: Core, log: seq<(Request, Env)>, k: nat)
    requires k < |log|
    ensures |Run(cfg, g, log).1| == |log|
    ensures Run(cfg, g, log).1[k] == Step(cfg, Run(cfg, g, log[..k]).0, log[k].0, log[k].1).1
    decreases |log|
  {
    var n := |log| - 1;
    if k < n {
      AnswerAt(cfg, g, log[..n], k);
      assert log[..n][..k] == log[..k];
    } else if n > 0 {
      AnswerAt(cfg, g, log[..n], 0);
    }
  }

  // ----- facts about Keep -----

  lemma {:induction false} KeptAre(ps: seq<Pending>, f: Pending -> bool)
    ensures forall p :: p in Keep(ps, f) <==> p in ps && f(p)
    ensures |Keep(ps, f)| <= |ps|
    decreases |ps|
  {
    if ps != [] {
      KeptAre(ps[..|ps| - 1], f);
      assert ps == ps[..|ps| - 1] + [ps[|ps| - 1]];
    }
  }

  lemma {:induction false} KeepAppend(ps: seq<Pending>, p: Pending, f: Pending -> bool)
    ensures Keep(ps + [p], f) == Keep(ps, f) + if f(p) then [p] else []
  {
    assert (ps + [p])[..|ps|] == ps;
  }

  lemma KeepLast(ps: seq<Pending>, f: Pending -> bool)
    requires ps != []
    ensures Keep(ps, f) == if f(ps[|ps| - 1]) then Keep(ps[..|ps| - 1], f) + [ps[|ps| - 1]] else Keep(ps[..|ps| - 1], f)
  {
  }

  lemma {:induction false} KeepTwice(ps: seq<Pending>, f: Pending -> bool, g: Pending -> bool)
    requires forall p :: p in ps && g(p) ==> f(p)
    ensures Keep(Keep(ps, f), g) == Keep(ps, g)
    decreases |ps|
  {
    if ps != [] {
      var last := ps[|ps| - 1];
      assert last in ps;
      assert forall p :: p in ps[..|ps| - 1] ==> p in ps;
      KeepTwice(ps[..|ps| - 1], f, g);
      KeepLast(ps, f);
      KeepLast(ps, g);
      if f(last) {
        KeepAppend(Keep(ps[..|ps| - 1], f), last, g);
      }
    }
  }

  lemma {:induction false} KeepCommutes(ps: seq<Pending>, f: Pending -> bool, g: Pending -> bool)
    ensures Keep(Keep(ps, f), g) == Keep(Keep(ps, g), f)
    decreases |ps|
  {
    if ps != [] {
      var last := ps[|ps| - 1];
      KeepCommutes(ps[..|ps| - 1], f, g);
      KeepLast(ps, f);
      KeepLast(ps, g);
      if f(last) {
        KeepAppend(Keep(ps[..|ps| - 1], f), last, g);
      }
      if g(last) {
        KeepAppend(Keep(ps[..|ps| - 1], g), last, f);
      }
    }
  }

  lemma {:induction false} AsPositionsAppend(ps: seq<Pending>, p: Pending)
    ensures AsPositions(ps + [p]) == AsPositions(ps) + [AsPosition(p.signal)]
    ensures |AsPositions(ps)| == |ps|
    decreases |ps|
  {
    assert (ps + [p])[..|ps|] == ps;
    if ps != [] {
      AsPositionsAppend(ps[..|ps| - 1], ps[|ps| - 1]);
    }
  }

  // ----- every critical section keeps ids unique and fresh -----

  lemma {:induction false} KeepWellFormed(ps: seq<Pending>, f: Pending -> bool, bound: nat)
    requires forall i :: 0 <= i < |ps| ==> ps[i].id < bound
    requires forall i, j :: 0 <= i < j < |ps| ==> ps[i].id != ps[j].id
    ensures forall i :: 0 <= i < |Keep(ps, f)| ==> Keep(ps, f)[i].id < bound
    ensures forall i, j :: 0 <= i < j < |Keep(ps, f)| ==> Keep(ps, f)[i].id != Keep(ps, f)[j].id
    decreases |ps|
  {
    if ps != [] {
      var n := |ps| - 1;
      KeepWellFormed(ps[..n], f, bound);
      KeptAre(ps[..n], f);
      var kept := Keep(ps[..n], f);
      forall i | 0 <= i < |kept| ensures kept[i].id != ps[n].id {
        assert kept[i] in kept;
        var k :| 0 <= k < n && ps[k] == kept[i];
      }
    }
  }

  lemma ConcludeShape(cfg: Config, r: Core, s: Admissible, now: real)
    ensures var v := Judge(cfg, Projection(r, s), r.spot, Affected(s.instrument)).0;
            var (after, d) := Conclude(cfg, r, s, now);
            && d.verdict == v && !d.failClosed
            && (d.pendingId.Some? <==> v != HardBlock)
            && (v == HardBlock ==> after == r)
            && (d.pendingId.Some? ==>
                  d.pendingId == Some(r.nextId) && after == Admit(r, s, v, now + cfg.pendingTimeout))
  {
  }

  lemma AdmitWellFormed(g: Core, s: Admissible, v: Verdict, expiresAt: real)
    requires WellFormed(g)
    ensures WellFormed(Admit(g, s, v, expiresAt))
  {
  }

  lemma PurgedWellFormed(g: Core, now: real)
    requires WellFormed(g)
    ensures WellFormed(Purged(g, now))
  {
    KeepWellFormed(g.pending, LiveAt(now), g.nextId);
  }

  lemma EvaluateWellFormed(cfg: Config, g: Core, s: Signal, env: Env)
    requires WellFormed(g)
    ensures WellFormed(EvaluateLocked(cfg, g, s, env).0) && EvaluateLocked(cfg, g, s, env).0.nextId >= g.nextId
  {
    var (r, ok) := Refreshed(g, env);
    if ok && !Refuses(r, s) {
      var live := Purged(r, env.now);
      PurgedWellFormed(r, env.now);
      ConcludeShape(cfg, live, s, env.now);
      var v := Judge(cfg, Projection(live, s), live.spot, Affected(s.instrument)).0;
      AdmitWellFormed(live, s, v, env.now + cfg.pendingTimeout);
      assert EvaluateLocked(cfg, g, s, env) == Conclude(cfg, live, s, env.now);
    }
  }

  lemma StepWellFormed(cfg: Config, g: Core, req: Request, env: Env)
    requires WellFormed(g)
    ensures WellFormed(Step(cfg, g, req, env).0) && Step(cfg, g, req, env).0.nextId >= g.nextId
  {
    match req
    case Evaluate(s) => EvaluateWellFormed(cfg, g, s, env);
    case Confirm(id) => KeepWellFormed(g.pending, OtherThan(id), g.nextId);
    case Cancel(id) => KeepWellFormed(g.pending, OtherThan(id), g.nextId);
    case Handshake(active) => KeepWellFormed(g.pending, ActiveIn(active), g.nextId);
    case Refresh =>
    case Initialize =>
    case UpdateSpot(prices) =>
  }

  // ----- what an evaluation promises -----

  lemma {:induction false} SelectFinds(cs: seq<Currency>, f: Currency -> bool)
    ensures forall c :: c in Select(cs, f) <==> c in cs && f(c)
    ensures Select(cs, f) == [] <==> forall c :: c in cs ==> !f(c)
    decreases |cs|
  {
    if cs != [] {
      SelectFinds(cs[1..], f);
      assert cs == [cs[0]] + cs[1..];
      if Select(cs, f) != [] {
        assert Select(cs, f)[0] in Select(cs, f);
      }
    }
  }

  lemma {:induction false} SelectAppend(cs: seq<Currency>, c: Currency, f: Currency -> bool)
    ensures Select(cs + [c], f) == Select(cs, f) + if f(c) then [c] else []
    decreases |cs|
  {
    var all, last := cs + [c], if f(c) then [c] else [];
    if cs == [] {
      assert all == [c] && all[1..] == [];
    } else {
      var head := if f(cs[0]) then [cs[0]] else [];
      assert all[0] == cs[0] && all[1..] == cs[1..] + [c];
      SelectAppend(cs[1..], c, f);
      assert Select(all, f) == head + (Select(cs[1..], f) + last);
      assert Select(cs, f) == head + Select(cs[1..], f);
    }
  }

  lemma {:induction false} SelectPrefix(cs: seq<Currency>, i: nat, f: Currency -> bool)
    requires i <= |cs|
    ensures Select(cs[..i], f) <= Select(cs, f)
    decreases |cs| - i
  {
    if i == |cs| {
      assert cs[..i] == cs;
    } else {
      SelectPrefix(cs, i + 1, f);
      SelectAppend(cs[..i], cs[i], f);
      assert cs[..i + 1] == cs[..i] + [cs[i]];
    }
  }

  /** Blocked exactly when some affected currency reaches a hard limit; allowed exactly when none reaches any. */
  lemma JudgeMeaning(cfg: Config, ps: seq<Position>, spot: map<string, real>, affected: seq<Currency>)
    ensures var v := Judge(cfg, ps, spot, affected).0;
            && (v == HardBlock <==> exists c :: c in affected && HardBreach(cfg, ps, spot, c))
            && (v == Allow <==>
                  forall c :: c in affected ==> !HardBreach(cfg, ps, spot, c) && !SoftBreach(cfg, ps, spot, c))
  {
    SelectFinds(affected, HardTest(cfg, ps, spot));
    SelectFinds(affected, SoftTest(cfg, ps, spot));
  }

  /**
   * A slot is reserved exactly when the decision is not a hard block, under an id no pending ever had,
   * beside exactly the pendings still live; a fail-closed decision reserves nothing.
   */
  lemma AdmissionIffNotBlocked(cfg: Config, g: Core, s: Signal, env: Env)
    requires WellFormed(g)
    ensures var (after, d) := EvaluateLocked(cfg, g, s, env);
            && (d.pendingId.Some? <==> d.verdict != HardBlock)
            && (d.pendingId.Some? ==>
                  && d.pendingId.value == g.nextId && g.nextId !in Ids(g.pending)
                  && after.nextId == g.nextId + 1
                  && Ids(after.pending) == Ids(Keep(g.pending, LiveAt(env.now))) + {g.nextId})
            && (d.pendingId.None? ==> after.nextId == g.nextId && Ids(after.pending) <= Ids(g.pending))
            && (d.failClosed ==> d.verdict == HardBlock && after.pending == g.pending)
  {
    var (r, ok) := Refreshed(g, env);
    NextIdIsFresh(g);
    if ok && !Refuses(r, s) {
      var live := Purged(r, env.now);
      ConcludeShape(cfg, live, s, env.now);
      assert EvaluateLocked(cfg, g, s, env) == Conclude(cfg, live, s, env.now);
      KeptAre(g.pending, LiveAt(env.now));
      IdsAppend(live.pending, Conclude(cfg, live, s, env.now).0.pending);
    }
  }

  lemma NextIdIsFresh(g: Core)
    requires WellFormed(g)
    ensures g.nextId !in Ids(g.pending)
  {
    forall p | p in g.pending ensures p.id != g.nextId {
      var i :| 0 <= i < |g.pending| && g.pending[i] == p;
    }
  }

  lemma IdsAppend(ps: seq<Pending>, more: seq<Pending>)
    ensures forall p :: more == ps + [p] ==> Ids(more) == Ids(ps) + {p.id}
  {
    forall p | more == ps + [p] ensures Ids(more) == Ids(ps) + {p.id} {
      assert forall q :: q in more <==> q in ps || q == p;
      assert p in more;
    }
  }

  /** A decision that is not fail-closed is made on exactly the cached positions, the live pendings and the signal. */
  lemma ProjectionCounts(cfg: Config, g: Core, s: Signal, env: Env)
    ensures var (after, d) := EvaluateLocked(cfg, g, s, env);
            !d.failClosed ==> d.projected.total == |after.positions| + |Keep(g.pending, LiveAt(env.now))| + 1
  {
    var kept := Keep(g.pending, LiveAt(env.now));
    if kept != [] {
      AsPositionsAppend(kept[..|kept| - 1], kept[|kept| - 1]);
      assert kept == kept[..|kept| - 1] + [kept[|kept| - 1]];
    }
  }
}

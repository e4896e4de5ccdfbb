/** Lazy expiry, as coded, against a gate that drops pendings the moment they expire (correlation-gate/src/gate.py). */
module GateExpiry {
  import opened Arith
  import opened Directional
  import opened GateCore

  /** A critical section of the eager gate: expired pendings are gone before it starts. */
  ghost function EagerStep(cfg: Config, g: Core, req: Request, env: Env): (Core, Response) {
    Step(cfg, Purged(g, env.now), req, env)
  }

  /** All that an eager section leaves pending was pending and is live, or is the entry it has just admitted. */
  lemma EagerHoldsOnlyLive(cfg: Config, g: Core, req: Request, env: Env, p: Pending)
    requires p in EagerStep(cfg, g, req, env).0.pending
    ensures (p in g.pending && env.now <= p.expiresAt) || (req.Evaluate? && p.expiresAt == env.now + cfg.pendingTimeout)
  {
    var live := Purged(g, env.now);
    KeptAre(g.pending, LiveAt(env.now));
    match req
    case Evaluate(s) => EvaluationAdds(cfg, live, s, env, p);
    case Confirm(id) => KeptAre(live.pending, OtherThan(id));
    case Cancel(id) => KeptAre(live.pending, OtherThan(id));
    case Handshake(active) => KeptAre(live.pending, ActiveIn(active));
    case Refresh =>
    case Initialize =>
    case UpdateSpot(prices) =>
  }

  lemma EvaluationAdds(cfg: Config, g: Core, s: Signal, env: Env, p: Pending)
    requires p in EvaluateLocked(cfg, g, s, env).0.pending
    ensures p in g.pending || p.expiresAt == env.now + cfg.pendingTimeout
  {
    var (r, ok) := Refreshed(g, env);
    if ok && !Refuses(r, s) {
      assert EvaluateLocked(cfg, g, s, env) == Conclude(cfg, Purged(r, env.now), s, env.now);
      ConcludeShape(cfg, Purged(r, env.now), s, env.now);
      KeptAre(g.pending, LiveAt(env.now));
    }
  }

  ghost function EagerRun(cfg: Config, g: Core, log: seq<(Request, Env)>): (Core, seq<Response>) {
    if log == [] then (g, [])
    else
      var (before, answers) := EagerRun(cfg, g, log[..|log| - 1]);
      var (after, answer) := EagerStep(cfg, before, log[|log| - 1].0, log[|log| - 1].1);
      (after, answers + [answer])
  }

  /** The two gates differ at most in pendings that have expired by `now`. */
  ghost predicate Agree(l: Core, e: Core, now: real) {
    && e == l.(pending := e.pending)
    && Keep(l.pending, LiveAt(now)) == Keep(e.pending, LiveAt(now))
  }

  lemma AgreeLater(l: Core, e: Core, t: real, now: real)
    requires Agree(l, e, t) && t <= now
    ensures Agree(l, Purged(e, now), now) && Purged(l, now) == Purged(e, now)
  {
    KeepTwice(l.pending, LiveAt(t), LiveAt(now));
    KeepTwice(e.pending, LiveAt(t), LiveAt(now));
    KeepTwice(e.pending, LiveAt(now), LiveAt(now));
  }

  lemma EvaluateAgrees(cfg: Config, l: Core, e: Core, s: Signal, env: Env)
    requires Agree(l, e, env.now)
    ensures EvaluateLocked(cfg, l, s, env).1 == EvaluateLocked(cfg, e, s, env).1
    ensures Agree(EvaluateLocked(cfg, l, s, env).0, EvaluateLocked(cfg, e, s, env).0, env.now)
  {
    var (lr, lok) := Refreshed(l, env);
    var (er, eok) := Refreshed(e, env);
    assert lok == eok && Agree(lr, er, env.now);
    assert Purged(lr, env.now) == Purged(er, env.now);
  }

  lemma KeepAgrees(l: Core, e: Core, f: Pending -> bool, now: real)
    requires Agree(l, e, now)
    ensures Agree(l.(pending := Keep(l.pending, f)), e.(pending := Keep(e.pending, f)), now)
  {
    KeepCommutes(l.pending, f, LiveAt(now));
    KeepCommutes(e.pending, f, LiveAt(now));
  }

  lemma StepAgrees(cfg: Config, l: Core, e: Core, req: Request, env: Env)
    requires Agree(l, e, env.now)
    ensures Agree(Step(cfg, l, req, env).0, Step(cfg, e, req, env).0, env.now)
    ensures req.Evaluate? ==> Step(cfg, l, req, env).1 == Step(cfg, e, req, env).1
  {
    match req
    case Evaluate(s) => EvaluateAgrees(cfg, l, e, s, env);
    case Confirm(id) => KeepAgrees(l, e, OtherThan(id), env.now);
    case Cancel(id) => KeepAgrees(l, e, OtherThan(id), env.now);
    case Handshake(active) => KeepAgrees(l, e, ActiveIn(active), env.now);
    case Refresh =>
    case Initialize =>
    case UpdateSpot(prices) =>
  }

  lemma OneMoreAgrees(cfg: Config, l: Core, e: Core, t: real, req: Request, env: Env)
    requires Agree(l, e, t) && t <= env.now
    ensures Agree(Step(cfg, l, req, env).0, EagerStep(cfg, e, req, env).0, env.now)
    ensures req.Evaluate? ==> Step(cfg, l, req, env).1 == EagerStep(cfg, e, req, env).1
  {
    AgreeLater(l, e, t, env.now);
    StepAgrees(cfg, l, Purged(e, env.now), req, env);
  }

  /** The clock never runs backwards between critical sections. */
  ghost predicate Clocked(log: seq<(Request, Env)>, start: real) {
    && (log != [] ==> start <= log[0].1.now)
    && forall i, j :: 0 <= i < j < |log| ==> log[i].1.now <= log[j].1.now
  }

  function LastTime(log: seq<(Request, Env)>, start: real): real {
    if log == [] then start else log[|log| - 1].1.now
  }

  ghost predicate SameDecisions(log: seq<(Request, Env)>, a: seq<Response>, b: seq<Response>) {
    |a| == |b| == |log| && forall k :: 0 <= k < |log| && log[k].0.Evaluate? ==> a[k] == b[k]
  }

  lemma ClockedPrefix(log: seq<(Request, Env)>, start: real)
    requires Clocked(log, start) && log != []
    ensures Clocked(log[..|log| - 1], start) && LastTime(log[..|log| - 1], start) <= log[|log| - 1].1.now
  {
  }

  /** Over every run, every evaluate decision is the one the eager gate would have made. */
  lemma {:induction false} LazyRefinesEager(cfg: Config, g: Core, log: seq<(Request, Env)>, start: real)
    requires Clocked(log, start)
    ensures SameDecisions(log, Run(cfg, g, log).1, EagerRun(cfg, g, log).1)
    ensures Agree(Run(cfg, g, log).0, EagerRun(cfg, g, log).0, LastTime(log, start))
    decreases |log|
  {
    if log != [] {
      var n := |log| - 1;
      var prefix, env := log[..n], log[n].1;
      ClockedPrefix(log, start);
      LazyRefinesEager(cfg, g, prefix, start);
      OneMoreAgrees(cfg, Run(cfg, g, prefix).0, EagerRun(cfg, g, prefix).0, LastTime(prefix, start), log[n].0, env);
    }
  }

  /** Confirming is where laziness shows: the lazy gate still finds an id exactly when its pending expired unpurged. */
  lemma ConfirmDiffersOnlyWhenExpired(cfg: Config, l: Core, e: Core, id: nat, env: Env, t: real)
    requires WellFormed(l) && Agree(l, e, t) && t <= env.now
    ensures Step(cfg, l, Confirm(id), env).1 != EagerStep(cfg, e, Confirm(id), env).1
       <==> exists p :: p in l.pending && p.id == id && env.now > p.expiresAt
  {
    AgreeLater(l, e, t, env.now);
    LostToExpiry(l, id, env.now);
  }

  lemma LostToExpiry(l: Core, id: nat, now: real)
    requires WellFormed(l)
    ensures (id in Ids(l.pending) && id !in Ids(Purged(l, now).pending))
       <==> exists p :: p in l.pending && p.id == id && now > p.expiresAt
    ensures id in Ids(Purged(l, now).pending) ==> id in Ids(l.pending)
  {
    KeptAre(l.pending, LiveAt(now));
    forall p, q | p in l.pending && q in l.pending && p.id == q.id ensures p == q {
      var i :| 0 <= i < |l.pending| && l.pending[i] == p;
      var j :| 0 <= j < |l.pending| && l.pending[j] == q;
    }
  }
}

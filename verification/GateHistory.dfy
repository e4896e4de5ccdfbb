/**
 * The history of the gate's state word under any number of threads (correlation-gate/src/gate.py): which writes can
 * follow which, and exactly when the FAILED of a failed handshake lasts until the gate is initialised again.
 */
module GateHistory {
  import opened Arith
  import opened GateCore
  import opened GateThreads

  // ----- which writes can follow which -----

  /** The word before the last run of handshake failures. */
  function Base(first: GateState, writes: seq<Write>): GateState {
    if writes == [] then first
    else
      var last := writes[|writes| - 1];
      if last.Marked? then Base(first, writes[..|writes| - 1]) else Written(last)
  }

  /** What can be written next, handshake failures aside, over the word `base`. */
  predicate Allowed(base: GateState, w: Write) {
    match base
    case Synchronizing => w.InitLoaded? || w.InitFailed?
    case Ready => w.InitStarted? || w.RefreshFailed?
    case _ => w.InitStarted?
  }

  ghost predicate Lawful(first: GateState, writes: seq<Write>) {
    forall k :: 0 <= k < |writes| && !writes[k].Marked? ==> Allowed(Base(first, writes[..k]), writes[k])
  }

  /** A section past its first step holds the lock: an initialisation that has marked, a refresh that has read. */
  ghost predicate Midway(s: Sys) {
    s.holder.Some? &&
    var p := PhaseOf(s, s.holder.value);
    p.Inside? && p.pc > 0 && (p.req.Initialize? || p.req.Refresh?)
  }

  ghost predicate Initialising(s: Sys) {
    Midway(s) && PhaseOf(s, s.holder.value).req.Initialize?
  }

  ghost predicate HistoryInv(first: GateState, s: Sys) {
    Lawful(first, s.writes) && (Base(first, s.writes) == Synchronizing <==> Initialising(s))
  }

  lemma BaseAppend(first: GateState, writes: seq<Write>, w: Write)
    ensures Base(first, writes + [w]) == if w.Marked? then Base(first, writes) else Written(w)
  {
    assert (writes + [w])[..|writes|] == writes;
  }

  lemma LawfulAppend(first: GateState, writes: seq<Write>, w: Write)
    requires Lawful(first, writes) && (w.Marked? || Allowed(Base(first, writes), w))
    ensures Lawful(first, writes + [w])
  {
    var more := writes + [w];
    forall k | 0 <= k < |more| && !more[k].Marked? ensures Allowed(Base(first, more[..k]), more[k]) {
      assert more[..k] == writes[..k];
      assert k == |writes| ==> writes[..k] == writes;
    }
  }

  lemma {:induction false} BaseUnderMarks(first: GateState, writes: seq<Write>, at: nat)
    requires at <= |writes| && forall k :: at <= k < |writes| ==> writes[k].Marked?
    ensures Base(first, writes) == Base(first, writes[..at])
    decreases |writes|
  {
    if at == |writes| {
      assert writes[..at] == writes;
    } else {
      BaseUnderMarks(first, writes[..|writes| - 1], at);
      assert writes[..|writes| - 1][..at] == writes[..at];
    }
  }

  /** A refresh past its read stands on READY. */
  lemma RefreshStandsOnReady(first: GateState, writes: seq<Write>, seen: seq<Read>)
    requires RefreshSound(first, writes, seen)
    ensures Base(first, writes) == Ready
  {
    var at := seen[0].at;
    BaseUnderMarks(first, writes, at);
    if at > 0 {
      assert writes[..at][..at - 1] == writes[..at - 1];
    }
  }

  /** The write a thread makes is allowed where the history stands. */
  lemma WorkIsLawful(first: GateState, s: Sys, t: nat, w: Write)
    requires Exclusive(s) && Chronicled(first, s) && HistoryInv(first, s)
    requires PhaseOf(s, t).Inside? && WriteBy(s, Work(t)) == Some(w)
    ensures Allowed(Base(first, s.writes), w)
  {
    var p := PhaseOf(s, t);
    assert s.holder == Some(t);
    if p.req.Refresh? {
      assert PhaseSound(first, s.writes, p);
      RefreshStandsOnReady(first, s.writes, p.seen);
    }
  }

  /** An action of a thread that is not in its section leaves the section underway as it is. */
  lemma OthersLeaveSection(cfg: Config, s: Sys, a: Action)
    requires Exclusive(s) && Enabled(s, a) && !a.Work?
    ensures Midway(Apply(cfg, s, a)) <==> Midway(s)
    ensures Midway(s) ==>
              && Apply(cfg, s, a).holder == s.holder
              && PhaseOf(Apply(cfg, s, a), s.holder.value) == PhaseOf(s, s.holder.value)
  {
    var next := Apply(cfg, s, a);
    if s.holder.Some? {
      assert a.thread != s.holder.value ==> PhaseOf(next, s.holder.value) == PhaseOf(s, s.holder.value);
    }
  }

  /** A step of the holder leaves an initialisation under way exactly when it writes its start. */
  lemma InitialisingAfterWork(cfg: Config, s: Sys, t: nat)
    requires s.holder == Some(t) && PhaseOf(s, t).Inside?
    ensures Initialising(Apply(cfg, s, Work(t))) <==> WriteBy(s, Work(t)) == Some(InitStarted)
    ensures WriteBy(s, Work(t)).None? ==> !Initialising(s)
  {
    var p, next := PhaseOf(s, t), Apply(cfg, s, Work(t));
    var answer := Micro(cfg, s.core, s.state, p.req, p.env, p.pc).1;
    assert next.holder == Some(t);
    assert PhaseOf(next, t) == if answer.None? then Onward(s, p) else Leaving(answer.value);
  }

  lemma BaseIsSync(first: GateState, writes: seq<Write>, w: Write)
    requires !w.Marked?
    ensures Base(first, writes + [w]) == Synchronizing <==> w.InitStarted?
  {
    BaseAppend(first, writes, w);
  }

  lemma WorkKeepsHistory(cfg: Config, first: GateState, s: Sys, t: nat)
    requires Exclusive(s) && Chronicled(first, s) && HistoryInv(first, s) && PhaseOf(s, t).Inside?
    ensures HistoryInv(first, Apply(cfg, s, Work(t)))
  {
    var w := WriteBy(s, Work(t));
    assert s.holder == Some(t);
    WordFollowsWrites(cfg, s, Work(t));
    InitialisingAfterWork(cfg, s, t);
    if w.Some? {
      WorkIsLawful(first, s, t, w.value);
      LawfulAppend(first, s.writes, w.value);
      BaseIsSync(first, s.writes, w.value);
    }
  }

  lemma KeepsHistory(cfg: Config, first: GateState, s: Sys, a: Action)
    requires Exclusive(s) && Chronicled(first, s) && HistoryInv(first, s) && Enabled(s, a)
    ensures HistoryInv(first, Apply(cfg, s, a))
  {
    if a.Work? {
      WorkKeepsHistory(cfg, first, s, a.thread);
    } else {
      OthersLeaveSection(cfg, s, a);
      WordFollowsWrites(cfg, s, a);
      if a.MarkFailed? {
        LawfulAppend(first, s.writes, Marked);
        BaseAppend(first, s.writes, Marked);
      }
    }
  }

  /**
   * Over every schedule the history is lawful: whatever run of failed handshakes comes in between, what is written next
   * over SYNCHRONIZING is the end of the initialisation under way, over READY a failed refresh or the start of an
   * initialisation, and over anything else only the start of an initialisation.
   */
  lemma {:induction false} HistoryIsLawful(cfg: Config, init: Core, first: GateState, start: real,
                                           actions: seq<Action>, s: Sys)
    requires Reachable(cfg, init, first, start, actions, s)
    ensures HistoryInv(first, s)
    decreases |actions|
  {
    if actions != [] {
      var last := |actions| - 1;
      var before := Execute(cfg, Start(init, first, start), actions[..last]).value;
      HistoryIsLawful(cfg, init, first, start, actions[..last], before);
      ReachableInv(cfg, init, first, start, actions[..last], before);
      KeepsHistory(cfg, first, before, actions[last]);
    }
  }

  // ----- when the FAILED of a failed handshake lasts -----

  /** Since the first n writes only handshakes have failed. */
  ghost predicate OnlyMarksSince(s: Sys, n: nat) {
    n <= |s.writes| && forall k :: n <= k < |s.writes| ==> s.writes[k].Marked?
  }

  /** `e` has followed the mark `m` with nothing but failed handshakes; the same section, if any, is midway. */
  ghost predicate StillMarked(m: Sys, e: Sys) {
    && Exclusive(e) && e.state == Failed && OnlyMarksSince(e, |m.writes|)
    && (Midway(e) <==> Midway(m))
    && (Midway(m) ==> e.holder == m.holder && PhaseOf(e, e.holder.value) == PhaseOf(m, m.holder.value))
  }

  /** A step that writes nothing or marks again keeps it so. */
  lemma MarkedStep(cfg: Config, m: Sys, e: Sys, a: Action)
    requires StillMarked(m, e) && Enabled(e, a)
    requires WriteBy(e, a).None? || WriteBy(e, a).value.Marked?
    ensures StillMarked(m, Apply(cfg, e, a))
  {
    KeepsExclusive(cfg, e, a);
    WordFollowsWrites(cfg, e, a);
    if a.Work? {
      assert e.holder == Some(a.thread);
    } else {
      OthersLeaveSection(cfg, e, a);
    }
  }

  lemma WritesGrow(cfg: Config, s: Sys, a: Action)
    requires Enabled(s, a)
    ensures s.writes <= Apply(cfg, s, a).writes
  {
    WordFollowsWrites(cfg, s, a);
  }

  lemma {:induction false} WritesGrowOver(cfg: Config, from: Sys, actions: seq<Action>, e: Sys)
    requires LeadsTo(cfg, from, actions, e)
    ensures from.writes <= e.writes
    decreases |actions|
  {
    if actions != [] {
      var last := |actions| - 1;
      var before := Execute(cfg, from, actions[..last]).value;
      WritesGrowOver(cfg, from, actions[..last], before);
      WritesGrow(cfg, before, actions[last]);
    }
  }

  lemma {:induction false} MarkedOnwards(cfg: Config, m: Sys, actions: seq<Action>, e: Sys)
    requires Exclusive(m) && m.state == Failed && LeadsTo(cfg, m, actions, e) && OnlyMarksSince(e, |m.writes|)
    ensures StillMarked(m, e)
    decreases |actions|
  {
    if actions != [] {
      var last := |actions| - 1;
      var before, a := Execute(cfg, m, actions[..last]).value, actions[last];
      WritesGrowOver(cfg, m, actions[..last], before);
      WritesGrow(cfg, before, a);
      WordFollowsWrites(cfg, before, a);
      assert forall k :: |m.writes| <= k < |before.writes| ==> before.writes[k] == e.writes[k];
      MarkedOnwards(cfg, m, actions[..last], before);
      assert WriteBy(before, a).Some? ==> e.writes[|before.writes|] == WriteBy(before, a).value;
      MarkedStep(cfg, m, before, a);
    }
  }

  /** What a section midway writes over a mark. */
  function Overwrites(w: Write, req: Request): bool {
    if req.Initialize? then w.InitLoaded? || w.InitFailed? else w.RefreshFailed?
  }

  /**
   * Over every schedule: a handshake fails and marks the gate FAILED. The word says FAILED until some other write `w`
   * is made. That write starts an initialisation exactly when no section was midway at the mark; otherwise it is the
   * remaining write of the initialisation or the refresh that was, made without regard to the failure.
   */
  lemma FailureLastsIff(cfg: Config, init: Core, first: GateState, start: real, before: seq<Action>, s: Sys, t: nat,
                        after: seq<Action>, e: Sys, a: Action, w: Write)
    requires Reachable(cfg, init, first, start, before, s) && Enabled(s, MarkFailed(t))
    requires LeadsTo(cfg, Apply(cfg, s, MarkFailed(t)), after, e) && OnlyMarksSince(e, |s.writes|)
    requires Enabled(e, a) && WriteBy(e, a) == Some(w) && !w.Marked?
    ensures e.state == Failed
    ensures w.InitStarted? <==> !Midway(s)
    ensures Midway(s) ==> Overwrites(w, PhaseOf(s, s.holder.value).req)
  {
    var m := Apply(cfg, s, MarkFailed(t));
    ReachableInv(cfg, init, first, start, before, s);
    KeepsExclusive(cfg, s, MarkFailed(t));
    WordFollowsWrites(cfg, s, MarkFailed(t));
    OthersLeaveSection(cfg, s, MarkFailed(t));
    WritesGrowOver(cfg, m, after, e);
    MarkedOnwards(cfg, m, after, e);
    assert e.holder == Some(a.thread);
  }

  // ----- both writers do overwrite it -----

  lemma ExtendTwice(cfg: Config, from: Sys, actions: seq<Action>, s: Sys, a: Action, b: Action)
    returns (more: seq<Action>, next: Sys)
    requires LeadsTo(cfg, from, actions, s) && Enabled(s, a) && Enabled(Apply(cfg, s, a), b)
    ensures next == Apply(cfg, Apply(cfg, s, a), b) && LeadsTo(cfg, from, more, next)
  {
    more, next := Extend(cfg, from, actions, s, a);
    more, next := Extend(cfg, from, more, next, b);
  }

  lemma RaiseAndBegin(cfg: Config, s: Sys, req: Request)
    requires PhaseOf(s, 1) == Idle && PhaseOf(s, 2) == Idle && s.holder == None && !req.Evaluate?
    ensures Enabled(s, RaiseInHandshake(2)) && Enabled(Apply(cfg, s, RaiseInHandshake(2)), Begin(1, req))
    ensures var next := Apply(cfg, Apply(cfg, s, RaiseInHandshake(2)), Begin(1, req));
            && next == s.(threads := next.threads)
            && PhaseOf(next, 1) == Waiting(req, []) && PhaseOf(next, 2) == HandshakeRaised
  {
  }

  /** Thread 1 takes the lock and goes midway; thread 2 has a failure still to report. */
  lemma GoMidway(cfg: Config, s: Sys, req: Request, env: Env)
    requires PhaseOf(s, 1) == Waiting(req, []) && PhaseOf(s, 2) == HandshakeRaised
    requires s.holder == None && s.clock <= env.now && s.writes == []
    requires req.Initialize? || (req.Refresh? && s.state == Ready && !env.fetch.Fetched?)
    ensures Enabled(s, Acquire(1, env)) && Enabled(Apply(cfg, s, Acquire(1, env)), Work(1))
    ensures var next := Apply(cfg, Apply(cfg, s, Acquire(1, env)), Work(1));
            && PhaseOf(next, 1).Inside? && PhaseOf(next, 1).req == req && PhaseOf(next, 1).env == env
            && PhaseOf(next, 1).pc == 1 && PhaseOf(next, 2) == HandshakeRaised
            && next.writes == if req.Initialize? then [InitStarted] else []
  {
  }

  lemma MarkAndFinish(cfg: Config, s: Sys, req: Request, env: Env)
    requires PhaseOf(s, 1).Inside? && PhaseOf(s, 1).req == req && PhaseOf(s, 1).env == env && PhaseOf(s, 1).pc == 1
    requires PhaseOf(s, 2) == HandshakeRaised && (req.Initialize? || req.Refresh?)
    ensures Enabled(s, MarkFailed(2)) && Enabled(Apply(cfg, s, MarkFailed(2)), Work(1))
    ensures var next, w := Apply(cfg, Apply(cfg, s, MarkFailed(2)), Work(1)), WriteOf(req, env, 1).value;
            next.state == Written(w) && next.writes == s.writes + [Marked, w]
  {
  }

  /** Thread 1 is midway in `req` when thread 2's handshake has failed and not yet said so. */
  lemma ReachMidway(cfg: Config, init: Core, first: GateState, env: Env, start: real, req: Request)
    returns (actions: seq<Action>, s: Sys)
    requires start <= env.now
    requires req.Initialize? || (req.Refresh? && first == Ready && !env.fetch.Fetched?)
    ensures LeadsTo(cfg, Start(init, first, start), actions, s)
    ensures PhaseOf(s, 1).Inside? && PhaseOf(s, 1).req == req && PhaseOf(s, 1).env == env && PhaseOf(s, 1).pc == 1
    ensures PhaseOf(s, 2) == HandshakeRaised && s.writes == if req.Initialize? then [InitStarted] else []
  {
    var from := Start(init, first, start);
    RaiseAndBegin(cfg, from, req);
    actions, s := ExtendTwice(cfg, from, [], from, RaiseInHandshake(2), Begin(1, req));
    GoMidway(cfg, s, req, env);
    actions, s := ExtendTwice(cfg, from, actions, s, Acquire(1, env), Work(1));
  }

  /** A handshake fails while thread 1 is midway in `req`; the section's last write is all that is left of it. */
  lemma FailureOverwritten(cfg: Config, init: Core, first: GateState, env: Env, start: real, req: Request)
    returns (actions: seq<Action>, end: Sys)
    requires first != Synchronizing && start <= env.now
    requires req.Initialize? || (req.Refresh? && first == Ready && !env.fetch.Fetched?)
    ensures Reachable(cfg, init, first, start, actions, end)
    ensures end.writes == (if req.Initialize? then [InitStarted] else []) + [Marked, WriteOf(req, env, 1).value]
    ensures end.state == if req.Refresh? then Degraded else if env.fetch.Fetched? then Ready else Failed
  {
    actions, end := ReachMidway(cfg, init, first, env, start, req);
    MarkAndFinish(cfg, end, req, env);
    actions, end := ExtendTwice(cfg, Start(init, first, start), actions, end, MarkFailed(2), Work(1));
  }
}

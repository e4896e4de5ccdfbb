/**
 * Any number of threads calling one gate (correlation-gate/src/gate.py). The state word is read three times before the
 * lock is taken and can be written after it is dropped; everything else is touched only between acquire and release.
 */
module GateThreads {
  import opened Arith
  import opened Directional
  import opened Baskets
  import opened GateCore
  import opened GateSafety
  import opened GateExpiry

  /** What writes the state word: a failed handshake, the two ends of an initialisation, a failed refresh. */
  datatype Write = Marked | InitStarted | InitLoaded | InitFailed | RefreshFailed

  function Written(w: Write): GateState {
    match w
    case Marked => Failed
    case InitStarted => Synchronizing
    case InitLoaded => Ready
    case InitFailed => Failed
    case RefreshFailed => Degraded
  }

  /** One read of the state word; `at` is how many writes had been made before it. */
  datatype Read = Read(value: GateState, at: nat)

  /** Where a thread stands. `seen` are the reads of the state word its call has made. */
  datatype Phase =
    | Idle
    | Entering(signal: Signal, seen: seq<Read>)
    | Waiting(req: Request, seen: seq<Read>)
    | Inside(req: Request, env: Env, seen: seq<Read>, pc: nat)
    | Leaving(answer: Response)
    | Returned(answer: Response)
    | HandshakeRaised

  /** One lock acquisition. */
  datatype Entry = Entry(thread: nat, req: Request, env: Env, seen: seq<Read>)

  /** Shared memory, thread positions, and the history of writes to the state word, acquisitions and answers. */
  datatype Sys = Sys(core: Core, state: GateState, writes: seq<Write>, holder: Option<nat>, threads: map<nat, Phase>,
                     clock: real, log: seq<Entry>, answers: seq<Response>)

  datatype Action =
    | Begin(thread: nat, req: Request)
    | ReadState(thread: nat)
    | TimeOut(thread: nat)
    | Acquire(thread: nat, env: Env)
    | Work(thread: nat)
    | Release(thread: nat)
    | RaiseInHandshake(thread: nat)
    | MarkFailed(thread: nat)

  function PhaseOf(s: Sys, t: nat): Phase {
    if t in s.threads then s.threads[t] else Idle
  }

  predicate Serving(state: GateState) {
    state == Ready || state == Degraded
  }

  /** `evaluate` compares the state word, read afresh each time, with three states it turns a caller away in. */
  predicate TurnedAway(check: nat, state: GateState) {
    if check == 0 then state == Initializing else if check == 1 then state == Synchronizing else state == Failed
  }

  // ----- one step inside a critical section -----

  /** `evaluate` fetches, then checks and purges, then judges and registers; `initialize` marks, then loads;
      a failed `refresh_positions` reads the state word, then writes it. */
  ghost function Micro(cfg: Config, g: Core, state: GateState, req: Request, env: Env, pc: nat)
    : (Core, Option<Response>)
  {
    match req
    case Evaluate(s) =>
      if pc == 0 then
        var (r, ok) := Refreshed(g, env);
        (r, if ok then None else Some(Decided(FailClosed(r.version))))
      else if Refuses(g, s) then (g, Some(Decided(FailClosed(g.version))))
      else if pc == 1 then (Purged(g, env.now), None)
      else
        var (after, d) := Conclude(cfg, g, s, env.now);
        (after, Some(Decided(d)))
    case Initialize =>
      if pc == 0 then (g, None)
      else
        var (after, answer) := Step(cfg, g, req, env);
        (after, Some(answer))
    case Refresh =>
      if pc == 0 && !env.fetch.Fetched? && state == Ready then (g, None)
      else
        var (after, answer) := Step(cfg, g, req, env);
        (after, Some(answer))
    case _ =>
      var (after, answer) := Step(cfg, g, req, env);
      (after, Some(answer))
  }

  /** What the step writes to the state word. */
  function WriteOf(req: Request, env: Env, pc: nat): Option<Write> {
    match req
    case Initialize => Some(if pc == 0 then InitStarted else if env.fetch.Fetched? then InitLoaded else InitFailed)
    case Refresh => if pc == 0 then None else Some(RefreshFailed)
    case _ => None
  }

  function Note(s: Sys, w: Option<Write>): Sys {
    match w
    case None => s
    case Some(x) => s.(state := Written(x), writes := s.writes + [x])
  }

  predicate Enabled(s: Sys, a: Action) {
    var p := PhaseOf(s, a.thread);
    match a
    case Begin(_, _) => p.Idle? || p.Returned?
    case ReadState(_) => p.Entering?
    case TimeOut(_) => p.Waiting? && p.req.Evaluate?
    case Acquire(_, env) => p.Waiting? && s.holder.None? && s.clock <= env.now
    case Work(t) => p.Inside?
    case Release(t) => p.Leaving?
    case RaiseInHandshake(_) => (p.Idle? || p.Returned?) && s.holder.None?
    case MarkFailed(_) => p.HandshakeRaised?
  }

  /** Where one more read of the state word takes a thread on its way in. */
  function AfterRead(s: Sys, signal: Signal, seen: seq<Read>): Phase {
    var more := seen + [Read(s.state, |s.writes|)];
    if TurnedAway(|seen|, s.state) || (|more| >= 3 && !Parses(signal)) then
      Returned(Decided(FailClosed(s.core.version)))
    else if |more| < 3 then Entering(signal, more)
    else Waiting(Evaluate(signal), more)
  }

  ghost function Apply(cfg: Config, s: Sys, a: Action): Sys
    requires Enabled(s, a)
  {
    var t := a.thread;
    var p := PhaseOf(s, t);
    match a
    case Begin(_, req) =>
      s.(threads := s.threads[t := if req.Evaluate? then Entering(req.signal, []) else Waiting(req, [])])
    case ReadState(_) => s.(threads := s.threads[t := AfterRead(s, p.signal, p.seen)])
    case TimeOut(_) => s.(threads := s.threads[t := Returned(Decided(FailClosed(s.core.version)))])
    case Acquire(_, env) =>
      s.(holder := Some(t), clock := env.now, threads := s.threads[t := Inside(p.req, env, p.seen, 0)],
         log := s.log + [Entry(t, p.req, env, p.seen)])
    case Work(_) =>
      var (after, answer) := Micro(cfg, s.core, s.state, p.req, p.env, p.pc);
      var next := Note(s.(core := after), WriteOf(p.req, p.env, p.pc));
      if answer.None? then next.(threads := s.threads[t := Onward(s, p)])
      else next.(threads := s.threads[t := Leaving(answer.value)], answers := s.answers + [answer.value])
    case Release(_) => s.(holder := None, threads := s.threads[t := Returned(p.answer)])
    case RaiseInHandshake(_) => s.(threads := s.threads[t := HandshakeRaised])
    case MarkFailed(_) => Note(s.(threads := s.threads[t := Idle]), Some(Marked))
  }

  /** The same section one step on; a refresh has read the state word. */
  function Onward(s: Sys, p: Phase): Phase
    requires p.Inside?
  {
    Inside(p.req, p.env, if p.req.Refresh? then p.seen + [Read(s.state, |s.writes|)] else p.seen, p.pc + 1)
  }

  // ----- the refinement -----

  function Served(log: seq<Entry>): (r: seq<(Request, Env)>)
    ensures |r| == |log|
  {
    if log == [] then [] else Served(log[..|log| - 1]) + [(log[|log| - 1].req, log[|log| - 1].env)]
  }

  /** The section has completed `pc` steps without an early answer, starting from `g`. */
  ghost predicate Underway(g: Core, req: Request, env: Env, pc: nat, now: Core) {
    match req
    case Evaluate(s) =>
      var (r, ok) := Refreshed(g, env);
      if pc == 0 then now == g
      else if pc == 1 then ok && now == r
      else pc == 2 && ok && !Refuses(r, s) && now == Purged(r, env.now)
    case Initialize => pc <= 1 && now == g
    case Refresh => pc <= 1 && now == g && (pc == 1 ==> !env.fetch.Fetched?)
    case _ => pc == 0 && now == g
  }

  /** Finishing a section from where it is underway is the whole section from where it began. */
  lemma MicroIsStep(cfg: Config, g: Core, state: GateState, req: Request, env: Env, pc: nat, now: Core)
    requires Underway(g, req, env, pc, now)
    ensures var (after, answer) := Micro(cfg, now, state, req, env, pc);
            if answer.None? then Underway(g, req, env, pc + 1, after)
            else Step(cfg, g, req, env) == (after, answer.value)
  {
  }

  /** The lock is held by exactly the thread inside or leaving its section. */
  ghost predicate Exclusive(s: Sys) {
    forall t: nat :: s.holder == Some(t) <==> PhaseOf(s, t).Inside? || PhaseOf(s, t).Leaving?
  }

  predicate FromEntry(e: Entry, t: nat, p: Phase) {
    p.Inside? && e.thread == t && e.req == p.req && e.env == p.env
  }

  /** Shared memory is the sequential run in acquisition order, up to the section underway. */
  ghost predicate Serialized(cfg: Config, init: Core, s: Sys) {
    match s.holder
    case None => (s.core, s.answers) == Run(cfg, init, Served(s.log))
    case Some(t) =>
      var p := PhaseOf(s, t);
      if p.Inside? then
        && s.log != [] && FromEntry(s.log[|s.log| - 1], t, p)
        && (var (g, done) := Run(cfg, init, Served(s.log[..|s.log| - 1]));
            s.answers == done && Underway(g, p.req, p.env, p.pc, s.core))
      else
        && (s.core, s.answers) == Run(cfg, init, Served(s.log))
        && p.Leaving? && s.answers != [] && s.answers[|s.answers| - 1] == p.answer
  }

  /** The state word after the first k writes. */
  function WordAt(first: GateState, writes: seq<Write>, k: nat): GateState
    requires k <= |writes|
  {
    if k == 0 then first else Written(writes[k - 1])
  }

  /** The reads returned what the word held, and came in order. */
  ghost predicate Sound(first: GateState, writes: seq<Write>, seen: seq<Read>) {
    && (forall i :: 0 <= i < |seen| ==> seen[i].at <= |writes| && seen[i].value == WordAt(first, writes, seen[i].at))
    && (forall i, j :: 0 <= i < j < |seen| ==> seen[i].at <= seen[j].at)
  }

  ghost predicate Passed(seen: seq<Read>) {
    forall i :: 0 <= i < |seen| ==> !TurnedAway(i, seen[i].value)
  }

  /** A request that waits for the lock or has had it: an evaluation has passed all three checks. */
  ghost predicate EntrySound(first: GateState, writes: seq<Write>, req: Request, seen: seq<Read>) {
    if req.Evaluate? then |seen| == 3 && Passed(seen) && Sound(first, writes, seen) && Parses(req.signal)
    else seen == []
  }

  /** A refresh about to write has read READY, and only failed handshakes have written since. */
  ghost predicate RefreshSound(first: GateState, writes: seq<Write>, seen: seq<Read>) {
    && |seen| == 1 && seen[0].value == Ready && Sound(first, writes, seen)
    && forall k :: seen[0].at <= k < |writes| ==> writes[k].Marked?
  }

  ghost predicate PhaseSound(first: GateState, writes: seq<Write>, p: Phase) {
    match p
    case Entering(_, seen) => |seen| < 3 && Passed(seen) && Sound(first, writes, seen)
    case Waiting(req, seen) => EntrySound(first, writes, req, seen)
    case Inside(req, _, seen, pc) =>
      if req.Refresh? && pc > 0 then RefreshSound(first, writes, seen) else EntrySound(first, writes, req, seen)
    case _ => true
  }

  /** The state word is SYNCHRONIZING only between the two writes of an initialisation. */
  ghost predicate SyncHeld(s: Sys) {
    s.state == Synchronizing ==>
      s.holder.Some? && var p := PhaseOf(s, s.holder.value); p.Inside? && p.req.Initialize? && p.pc == 1
  }

  /** The history accounts for the state word and for every read of it. */
  ghost predicate Chronicled(first: GateState, s: Sys) {
    && s.state == WordAt(first, s.writes, |s.writes|)
    && SyncHeld(s)
    && (forall t: nat :: PhaseSound(first, s.writes, PhaseOf(s, t)))
    && (forall i :: 0 <= i < |s.log| ==> EntrySound(first, s.writes, s.log[i].req, s.log[i].seen))
  }

  /** Critical sections read a clock that never runs backwards. */
  ghost predicate InTime(s: Sys, start: real) {
    && s.clock == LastTime(Served(s.log), start)
    && Clocked(Served(s.log), start)
    && start <= s.clock
  }

  ghost predicate Inv(cfg: Config, init: Core, first: GateState, start: real, s: Sys) {
    Exclusive(s) && Serialized(cfg, init, s) && Chronicled(first, s) && InTime(s, start)
  }

  lemma ServedAppend(log: seq<Entry>, e: Entry)
    ensures Served(log + [e]) == Served(log) + [(e.req, e.env)]
  {
    assert (log + [e])[..|log|] == log;
  }

  lemma WorkKeepsSerialized(cfg: Config, init: Core, s: Sys, t: nat)
    requires Exclusive(s) && Serialized(cfg, init, s) && PhaseOf(s, t).Inside?
    ensures Serialized(cfg, init, Apply(cfg, s, Work(t)))
  {
    var p := PhaseOf(s, t);
    assert s.holder == Some(t);
    if Micro(cfg, s.core, s.state, p.req, p.env, p.pc).1.None? {
      WorkContinues(cfg, init, s, t, p);
    } else {
      WorkAnswers(cfg, init, s, t, p);
    }
  }

  lemma WorkContinues(cfg: Config, init: Core, s: Sys, t: nat, p: Phase)
    requires Serialized(cfg, init, s) && s.holder == Some(t) && p == PhaseOf(s, t) && p.Inside?
    requires Micro(cfg, s.core, s.state, p.req, p.env, p.pc).1.None?
    ensures Serialized(cfg, init, Apply(cfg, s, Work(t)))
  {
    MicroIsStep(cfg, Run(cfg, init, Served(s.log[..|s.log| - 1])).0, s.state, p.req, p.env, p.pc, s.core);
  }

  /** What an answering step leaves behind. */
  lemma WorkLeaves(cfg: Config, s: Sys, t: nat, p: Phase, after: Core, answer: Response)
    requires p == PhaseOf(s, t) && p.Inside?
    requires Micro(cfg, s.core, s.state, p.req, p.env, p.pc) == (after, Some(answer))
    ensures var next := Apply(cfg, s, Work(t));
            && next.holder == s.holder && next.log == s.log && next.core == after
            && next.answers == s.answers + [answer] && PhaseOf(next, t) == Leaving(answer)
  {
  }

  lemma WorkAnswers(cfg: Config, init: Core, s: Sys, t: nat, p: Phase)
    requires Serialized(cfg, init, s) && s.holder == Some(t) && p == PhaseOf(s, t) && p.Inside?
    requires Micro(cfg, s.core, s.state, p.req, p.env, p.pc).1.Some?
    ensures Serialized(cfg, init, Apply(cfg, s, Work(t)))
  {
    var (after, answer) := Micro(cfg, s.core, s.state, p.req, p.env, p.pc);
    MicroIsStep(cfg, Run(cfg, init, Served(s.log[..|s.log| - 1])).0, s.state, p.req, p.env, p.pc, s.core);
    RunServed(cfg, init, s.log, p.req, p.env);
    WorkLeaves(cfg, s, t, p, after, answer.value);
  }

  lemma RunServed(cfg: Config, init: Core, log: seq<Entry>, req: Request, env: Env)
    requires log != [] && log[|log| - 1].req == req && log[|log| - 1].env == env
    ensures var (g, done) := Run(cfg, init, Served(log[..|log| - 1]));
            var (after, answer) := Step(cfg, g, req, env);
            Run(cfg, init, Served(log)) == (after, done + [answer])
  {
    var last := |log| - 1;
    assert log == log[..last] + [log[last]];
    ServedAppend(log[..last], log[last]);
    RunAppend(cfg, init, Served(log[..last]), req, env);
  }

  lemma AcquireKeepsSerialized(cfg: Config, init: Core, s: Sys, t: nat, env: Env)
    requires Exclusive(s) && Serialized(cfg, init, s) && Enabled(s, Acquire(t, env))
    ensures Serialized(cfg, init, Apply(cfg, s, Acquire(t, env)))
  {
    var next := Apply(cfg, s, Acquire(t, env));
    assert next.log[..|next.log| - 1] == s.log;
  }

  lemma KeepsSerialized(cfg: Config, init: Core, s: Sys, a: Action)
    requires Exclusive(s) && Serialized(cfg, init, s) && Enabled(s, a)
    ensures Serialized(cfg, init, Apply(cfg, s, a))
  {
    match a
    case Acquire(t, env) => AcquireKeepsSerialized(cfg, init, s, t, env);
    case Work(t) => WorkKeepsSerialized(cfg, init, s, t);
    case Release(t) =>
    case Begin(t, req) => OtherPhase(cfg, init, s, a);
    case ReadState(t) => OtherPhase(cfg, init, s, a);
    case TimeOut(t) => OtherPhase(cfg, init, s, a);
    case RaiseInHandshake(t) => OtherPhase(cfg, init, s, a);
    case MarkFailed(t) => OtherPhase(cfg, init, s, a);
  }

  lemma OtherPhase(cfg: Config, init: Core, s: Sys, a: Action)
    requires Exclusive(s) && Serialized(cfg, init, s) && Enabled(s, a)
    requires a.Begin? || a.ReadState? || a.TimeOut? || a.RaiseInHandshake? || a.MarkFailed?
    ensures Serialized(cfg, init, Apply(cfg, s, a))
  {
    var next := Apply(cfg, s, a);
    if s.holder.Some? {
      assert s.holder.value != a.thread;
      assert PhaseOf(next, s.holder.value) == PhaseOf(s, s.holder.value);
    }
  }

  lemma KeepsExclusive(cfg: Config, s: Sys, a: Action)
    requires Exclusive(s) && Enabled(s, a)
    ensures Exclusive(Apply(cfg, s, a))
  {
    var next := Apply(cfg, s, a);
    forall t: nat ensures next.holder == Some(t) <==> PhaseOf(next, t).Inside? || PhaseOf(next, t).Leaving? {
      if t != a.thread {
        assert PhaseOf(next, t) == PhaseOf(s, t);
      }
    }
  }

  lemma SoundLater(first: GateState, writes: seq<Write>, more: seq<Write>, seen: seq<Read>)
    requires Sound(first, writes, seen) && writes <= more
    ensures Sound(first, more, seen)
  {
  }

  lemma SoundAppend(first: GateState, writes: seq<Write>, seen: seq<Read>, state: GateState)
    requires Sound(first, writes, seen) && state == WordAt(first, writes, |writes|)
    ensures Sound(first, writes, seen + [Read(state, |writes|)])
  {
  }

  /** A write leaves every other thread's phase sound; a refresh in the middle only sees failed handshakes. */
  lemma PhaseLater(first: GateState, writes: seq<Write>, w: Write, p: Phase)
    requires PhaseSound(first, writes, p)
    requires p.Inside? && p.req.Refresh? && p.pc > 0 ==> w.Marked?
    ensures PhaseSound(first, writes + [w], p)
  {
    if p.Entering? || p.Waiting? || p.Inside? {
      if p.seen != [] {
        SoundLater(first, writes, writes + [w], p.seen);
      }
    }
  }

  /** The write an action makes, if any. */
  function WriteBy(s: Sys, a: Action): Option<Write>
    requires Enabled(s, a)
  {
    var p := PhaseOf(s, a.thread);
    match a
    case Work(_) => WriteOf(p.req, p.env, p.pc)
    case MarkFailed(_) => Some(Marked)
    case _ => None
  }

  /** Only a failed handshake and the thread that holds the lock write the state word. */
  lemma WordFollowsWrites(cfg: Config, s: Sys, a: Action)
    requires Enabled(s, a)
    ensures var next, w := Apply(cfg, s, a), WriteBy(s, a);
            && next.writes == (if w.Some? then s.writes + [w.value] else s.writes)
            && next.state == (if w.Some? then Written(w.value) else s.state)
  {
  }

  lemma OthersStaySound(cfg: Config, first: GateState, s: Sys, a: Action, t: nat)
    requires Exclusive(s) && Chronicled(first, s) && Enabled(s, a) && t != a.thread
    ensures PhaseSound(first, Apply(cfg, s, a).writes, PhaseOf(Apply(cfg, s, a), t))
  {
    var p, w := PhaseOf(s, t), WriteBy(s, a);
    assert PhaseOf(Apply(cfg, s, a), t) == p;
    WordFollowsWrites(cfg, s, a);
    assert p.Inside? ==> s.holder == Some(t);
    assert a.Work? ==> s.holder == Some(a.thread);
    if w.Some? {
      PhaseLater(first, s.writes, w.value, p);
    }
  }

  lemma ReaderStaysSound(first: GateState, s: Sys, signal: Signal, seen: seq<Read>)
    requires s.state == WordAt(first, s.writes, |s.writes|)
    requires PhaseSound(first, s.writes, Entering(signal, seen))
    ensures PhaseSound(first, s.writes, AfterRead(s, signal, seen))
  {
    SoundAppend(first, s.writes, seen, s.state);
  }

  lemma WorkerStaysSound(cfg: Config, first: GateState, s: Sys, t: nat)
    requires Chronicled(first, s) && PhaseOf(s, t).Inside?
    ensures PhaseSound(first, Apply(cfg, s, Work(t)).writes, PhaseOf(Apply(cfg, s, Work(t)), t))
  {
    var p := PhaseOf(s, t);
    assert PhaseSound(first, s.writes, p);
    WordFollowsWrites(cfg, s, Work(t));
    if p.req.Refresh? && p.pc == 0 {
      SoundAppend(first, s.writes, [], s.state);
      assert p.seen + [Read(s.state, |s.writes|)] == [] + [Read(s.state, |s.writes|)];
    }
  }

  lemma ActorStaysSound(cfg: Config, first: GateState, s: Sys, a: Action)
    requires Chronicled(first, s) && Enabled(s, a)
    ensures PhaseSound(first, Apply(cfg, s, a).writes, PhaseOf(Apply(cfg, s, a), a.thread))
  {
    var p := PhaseOf(s, a.thread);
    assert PhaseSound(first, s.writes, p);
    match a
    case ReadState(t) => ReaderStaysSound(first, s, p.signal, p.seen);
    case Work(t) => WorkerStaysSound(cfg, first, s, t);
    case _ =>
  }

  lemma LogStaysSound(cfg: Config, first: GateState, s: Sys, a: Action, i: nat)
    requires Chronicled(first, s) && Enabled(s, a) && i < |Apply(cfg, s, a).log|
    ensures var next := Apply(cfg, s, a); EntrySound(first, next.writes, next.log[i].req, next.log[i].seen)
  {
    var next, w := Apply(cfg, s, a), WriteBy(s, a);
    WordFollowsWrites(cfg, s, a);
    if i == |s.log| {
      assert PhaseSound(first, s.writes, PhaseOf(s, a.thread));
    } else if w.Some? && s.log[i].req.Evaluate? {
      SoundLater(first, s.writes, next.writes, s.log[i].seen);
    }
  }

  lemma KeepsSyncHeld(cfg: Config, s: Sys, a: Action)
    requires Exclusive(s) && SyncHeld(s) && Enabled(s, a)
    ensures SyncHeld(Apply(cfg, s, a))
  {
    var next := Apply(cfg, s, a);
    WordFollowsWrites(cfg, s, a);
    if next.state == Synchronizing {
      if WriteBy(s, a).Some? {
        assert s.holder == Some(a.thread);
      } else {
        assert a.thread != s.holder.value;
      }
    }
  }

  lemma KeepsChronicle(cfg: Config, first: GateState, s: Sys, a: Action)
    requires Exclusive(s) && Chronicled(first, s) && Enabled(s, a)
    ensures Chronicled(first, Apply(cfg, s, a))
  {
    var next := Apply(cfg, s, a);
    WordFollowsWrites(cfg, s, a);
    KeepsSyncHeld(cfg, s, a);
    forall t: nat ensures PhaseSound(first, next.writes, PhaseOf(next, t)) {
      if t == a.thread {
        ActorStaysSound(cfg, first, s, a);
      } else {
        OthersStaySound(cfg, first, s, a, t);
      }
    }
    forall i: nat | i < |next.log| ensures EntrySound(first, next.writes, next.log[i].req, next.log[i].seen) {
      LogStaysSound(cfg, first, s, a, i);
    }
  }

  lemma KeepsTime(cfg: Config, s: Sys, a: Action, start: real)
    requires InTime(s, start) && Enabled(s, a)
    ensures InTime(Apply(cfg, s, a), start)
  {
    if a.Acquire? {
      var p := PhaseOf(s, a.thread);
      ServedAppend(s.log, Entry(a.thread, p.req, a.env, p.seen));
      ClockedAppend(Served(s.log), (p.req, a.env), start);
    }
  }

  lemma ClockedAppend(log: seq<(Request, Env)>, x: (Request, Env), start: real)
    requires Clocked(log, start) && LastTime(log, start) <= x.1.now
    ensures Clocked(log + [x], start) && LastTime(log + [x], start) == x.1.now
  {
    assert forall i :: 0 <= i < |log| ==> log[i].1.now <= log[|log| - 1].1.now;
  }

  /** Every action of any thread keeps the invariant. */
  lemma ActionKeepsInv(cfg: Config, init: Core, first: GateState, start: real, s: Sys, a: Action)
    requires Inv(cfg, init, first, start, s) && Enabled(s, a)
    ensures Inv(cfg, init, first, start, Apply(cfg, s, a))
  {
    KeepsSerialized(cfg, init, s, a);
    KeepsExclusive(cfg, s, a);
    KeepsChronicle(cfg, first, s, a);
    KeepsTime(cfg, s, a, start);
  }

  // ----- all interleavings -----

  function Start(init: Core, first: GateState, start: real): Sys {
    Sys(init, first, [], None, map[], start, [], [])
  }

  /** The system after a schedule of actions, if each was enabled in its turn. */
  ghost function Execute(cfg: Config, from: Sys, actions: seq<Action>): Option<Sys> {
    if actions == [] then Some(from)
    else
      var before := Execute(cfg, from, actions[..|actions| - 1]);
      var a := actions[|actions| - 1];
      if before.Some? && Enabled(before.value, a) then Some(Apply(cfg, before.value, a)) else None
  }

  ghost predicate LeadsTo(cfg: Config, from: Sys, actions: seq<Action>, s: Sys) {
    Execute(cfg, from, actions) == Some(s)
  }

  /** `s` is reached from a gate at rest: no lock held, and so no initialisation under way. */
  ghost predicate Reachable(cfg: Config, init: Core, first: GateState, start: real, actions: seq<Action>, s: Sys) {
    first != Synchronizing && LeadsTo(cfg, Start(init, first, start), actions, s)
  }

  lemma {:induction false} ReachableInv(cfg: Config, init: Core, first: GateState, start: real, actions: seq<Action>,
                                        s: Sys)
    requires Reachable(cfg, init, first, start, actions, s)
    ensures Inv(cfg, init, first, start, s)
    decreases |actions|
  {
    if actions != [] {
      var last := |actions| - 1;
      var before := Execute(cfg, Start(init, first, start), actions[..last]).value;
      ReachableInv(cfg, init, first, start, actions[..last], before);
      ActionKeepsInv(cfg, init, first, start, before, actions[last]);
    }
  }

  /**
   * Whatever the interleaving, once the lock is free the protected state and all answers are those of the requests
   * served one at a time in the order the lock was taken, at non-decreasing times.
   */
  lemma InterleavingsAreSequential(cfg: Config, init: Core, first: GateState, start: real, actions: seq<Action>, s: Sys)
    requires Reachable(cfg, init, first, start, actions, s) && s.holder.None?
    ensures (s.core, s.answers) == Run(cfg, init, Served(s.log))
    ensures Clocked(Served(s.log), start)
  {
    ReachableInv(cfg, init, first, start, actions, s);
  }

  // ----- the limits, from any point of any interleaving -----

  /** The acquisitions whose sections are over. */
  ghost function Completed(s: Sys): seq<Entry> {
    if s.log != [] && s.holder.Some? && PhaseOf(s, s.holder.value).Inside? then s.log[..|s.log| - 1] else s.log
  }

  /** The protected state after the first k sections. */
  ghost function StateAt(cfg: Config, init: Core, s: Sys, k: nat): Core
    requires k <= |s.log|
  {
    Run(cfg, init, Served(s.log[..k])).0
  }

  /** The sections completed from the k-th on. */
  ghost function ServedFrom(s: Sys, k: nat): seq<(Request, Env)>
    requires k <= |Completed(s)|
  {
    Served(Completed(s)[k..])
  }

  /** Since k sections were over, cached positions and prices have stood still, in the section underway too. */
  ghost predicate StoodStill(cfg: Config, init: Core, s: Sys, k: nat)
    requires k <= |Completed(s)|
  {
    && UndisturbedRun(cfg, StateAt(cfg, init, s, k), ServedFrom(s, k))
    && Undisturbed(StateAt(cfg, init, s, k), s.core)
  }

  lemma {:induction false} ServedSplit(log: seq<Entry>, k: nat)
    requires k <= |log|
    ensures Served(log) == Served(log[..k]) + Served(log[k..])
    decreases |log|
  {
    if k == |log| {
      assert log[..k] == log && log[k..] == [];
    } else {
      var n := |log| - 1;
      ServedSplit(log[..n], k);
      assert log[..n][..k] == log[..k] && log[k..] == log[..n][k..] + [log[n]];
      ServedAppend(log[..n][k..], log[n]);
    }
  }

  /** Running on from there reaches the state after all completed sections. */
  lemma RunFrom(cfg: Config, init: Core, s: Sys, k: nat)
    requires k <= |Completed(s)|
    ensures Run(cfg, StateAt(cfg, init, s, k), ServedFrom(s, k)).0 == Run(cfg, init, Served(Completed(s))).0
  {
    assert Completed(s)[..k] == s.log[..k];
    ServedSplit(Completed(s), k);
    RunSplit(cfg, init, Served(s.log[..k]), ServedFrom(s, k));
  }

  /** A section underway tracks no more than the state it started from. */
  lemma UnderwayTracksNoMore(g: Core, req: Request, env: Env, pc: nat, now: Core, c: Currency)
    requires Underway(g, req, env, pc, now) && Undisturbed(g, now) && SpotNonNegative(g.spot)
    ensures TracksNoMore(g, now, c)
  {
    if req.Evaluate? && pc == 2 {
      KeepTracksNoMore(g, now, LiveAt(env.now), c);
    }
  }

  /** At every moment the protected state tracks no more than the completed sections left. */
  lemma MomentTracksNoMore(cfg: Config, init: Core, s: Sys, g: Core, c: Currency)
    requires Serialized(cfg, init, s) && g == Run(cfg, init, Served(Completed(s))).0
    requires Undisturbed(g, s.core) && SpotNonNegative(g.spot)
    ensures TracksNoMore(g, s.core, c)
  {
    if s.holder.Some? && PhaseOf(s, s.holder.value).Inside? {
      var p := PhaseOf(s, s.holder.value);
      UnderwayTracksNoMore(g, p.req, p.env, p.pc, s.core, c);
    }
  }

  lemma StillAtEnd(cfg: Config, init: Core, s: Sys, k: nat)
    requires k <= |Completed(s)| && StoodStill(cfg, init, s, k)
    ensures var g := Run(cfg, init, Served(Completed(s))).0;
            Undisturbed(StateAt(cfg, init, s, k), g) && Undisturbed(g, s.core)
  {
    var rest := ServedFrom(s, k);
    assert rest[..|rest|] == rest;
    RunFrom(cfg, init, s, k);
  }

  /**
   * At every moment of every interleaving: a gross limit that held once k sections were over holds still, if cached
   * positions and prices have stood still since.
   */
  lemma GrossLimitUnderThreads(cfg: Config, init: Core, first: GateState, start: real, actions: seq<Action>, s: Sys,
                               k: nat, c: Currency)
    requires Reachable(cfg, init, first, start, actions, s)
    requires k <= |Completed(s)| && StoodStill(cfg, init, s, k)
    requires SpotNonNegative(StateAt(cfg, init, s, k).spot) && GrossBelowLimit(cfg, StateAt(cfg, init, s, k), c)
    ensures GrossBelowLimit(cfg, s.core, c)
  {
    var g := Run(cfg, init, Served(Completed(s))).0;
    ReachableInv(cfg, init, first, start, actions, s);
    StillAtEnd(cfg, init, s, k);
    RunFrom(cfg, init, s, k);
    GrossStaysBelowLimit(cfg, StateAt(cfg, init, s, k), ServedFrom(s, k), c);
    MomentTracksNoMore(cfg, init, s, g, c);
  }

  /** So does the slot limit on a currency traded one way since: the gate is a counting semaphore. */
  lemma SlotLimitUnderThreads(cfg: Config, init: Core, first: GateState, start: real, actions: seq<Action>, s: Sys,
                              k: nat, c: Currency, side: Side)
    requires Reachable(cfg, init, first, start, actions, s)
    requires k <= |Completed(s)| && StoodStill(cfg, init, s, k)
    requires OneSidedAdmissions(cfg, StateAt(cfg, init, s, k), ServedFrom(s, k), c, side)
    requires SpotNonNegative(StateAt(cfg, init, s, k).spot) && SlotsWithinLimit(cfg, StateAt(cfg, init, s, k), c, side)
    ensures SlotsWithinLimit(cfg, s.core, c, side)
  {
    var g := Run(cfg, init, Served(Completed(s))).0;
    ReachableInv(cfg, init, first, start, actions, s);
    StillAtEnd(cfg, init, s, k);
    RunFrom(cfg, init, s, k);
    SlotsStayWithinLimit(cfg, StateAt(cfg, init, s, k), ServedFrom(s, k), c, side);
    MomentTracksNoMore(cfg, init, s, g, c);
  }

  /** The k-th section was an evaluation that reserved a slot on c. */
  ghost predicate AdmittedOn(s: Sys, k: nat, c: Currency) {
    && k < |Completed(s)| && k < |s.answers| && Reserves(s.answers[k])
    && s.log[k].req.Evaluate? && c in Affected(s.log[k].req.signal.instrument)
  }

  lemma {:induction false} ServedAt(log: seq<Entry>, k: nat)
    requires k < |log|
    ensures Served(log)[k] == (log[k].req, log[k].env) && Served(log)[..k] == Served(log[..k])
    decreases |log|
  {
    ServedSplit(log, k);
    if k < |log| - 1 {
      ServedAt(log[..|log| - 1], k);
    }
  }

  lemma AnswersAreRuns(cfg: Config, init: Core, s: Sys)
    requires Serialized(cfg, init, s)
    ensures s.answers == Run(cfg, init, Served(Completed(s))).1
  {
  }

  lemma StateAfterSection(cfg: Config, init: Core, s: Sys, k: nat)
    requires k < |s.log|
    ensures StateAt(cfg, init, s, k + 1) == Step(cfg, StateAt(cfg, init, s, k), s.log[k].req, s.log[k].env).0
  {
    var upTo := s.log[..k + 1];
    assert upTo[..|upTo| - 1] == s.log[..k];
    RunServed(cfg, init, upTo, s.log[k].req, s.log[k].env);
  }

  /** The recorded answer of a section is its step's. */
  lemma AnswerOfSection(cfg: Config, init: Core, s: Sys, k: nat)
    requires Serialized(cfg, init, s) && k < |Completed(s)|
    ensures k < |s.answers|
    ensures s.answers[k] == Step(cfg, StateAt(cfg, init, s, k), s.log[k].req, s.log[k].env).1
  {
    var log := Completed(s);
    AnswersAreRuns(cfg, init, s);
    ServedAt(log, k);
    AnswerAt(cfg, init, Served(log), k);
    assert log[..k] == s.log[..k] && log[k] == s.log[k];
  }

  lemma AdmissionReachesLimit(cfg: Config, g: Core, s: Signal, env: Env, after: Core, c: Currency, side: Side)
    requires Step(cfg, g, Evaluate(s), env).0 == after && Reserves(Step(cfg, g, Evaluate(s), env).1)
    requires c in Affected(s.instrument) && Count(Tracked(after), c, Opposite(side)) == 0
    ensures SlotsWithinLimit(cfg, after, c, side)
  {
    AdmissionRespectsLimits(cfg, g, s, env, c);
  }

  /**
   * From each admission on, at every moment of every interleaving: if right after the k-th section admitted a signal on
   * c everything tracked on c is on one side, and admissions have kept to that side while the cache stood still, then
   * positions and slots on c are at most hard_block_count - 1. Nothing is asked of the gate before that admission.
   */
  lemma SlotLimitFromAdmission(cfg: Config, init: Core, first: GateState, start: real, actions: seq<Action>, s: Sys,
                               k: nat, c: Currency, side: Side)
    requires Reachable(cfg, init, first, start, actions, s) && AdmittedOn(s, k, c)
    requires Count(Tracked(StateAt(cfg, init, s, k + 1)), c, Opposite(side)) == 0
    requires StoodStill(cfg, init, s, k + 1) && SpotNonNegative(StateAt(cfg, init, s, k + 1).spot)
    requires OneSidedAdmissions(cfg, StateAt(cfg, init, s, k + 1), ServedFrom(s, k + 1), c, side)
    ensures SlotsWithinLimit(cfg, s.core, c, side)
  {
    ReachableInv(cfg, init, first, start, actions, s);
    StateAfterSection(cfg, init, s, k);
    AnswerOfSection(cfg, init, s, k);
    AdmissionReachesLimit(cfg, StateAt(cfg, init, s, k), s.log[k].req.signal, s.log[k].env,
                          StateAt(cfg, init, s, k + 1), c, side);
    SlotLimitUnderThreads(cfg, init, first, start, actions, s, k + 1, c, side);
  }

  // ----- what the three entry reads establish -----

  /** None of the entry reads found the gate serving. */
  ghost predicate NeverSawServing(seen: seq<Read>) {
    forall i :: 0 <= i < |seen| ==> !Serving(seen[i].value)
  }

  /** The one way past the checks without seeing the gate serve: FAILED at the second read, then SYNCHRONIZING. */
  predicate SlippedThrough(seen: seq<Read>) {
    && |seen| == 3 && seen[0].value in {Synchronizing, Failed}
    && seen[1].value == Failed && seen[2].value == Synchronizing
  }

  /** INITIALIZING is never written, so a word that was past it at the first read stays past it. */
  lemma PastInitializing(first: GateState, writes: seq<Write>, i: nat, j: nat)
    requires i <= j <= |writes| && WordAt(first, writes, i) != Initializing
    ensures WordAt(first, writes, j) != Initializing
  {
  }

  lemma EntryReads(first: GateState, writes: seq<Write>, seen: seq<Read>)
    requires |seen| == 3 && Passed(seen) && Sound(first, writes, seen)
    ensures NeverSawServing(seen) <==> SlippedThrough(seen)
    ensures seen[0].at == seen[2].at ==> Serving(seen[0].value)
    ensures seen[2].value != Failed
    ensures forall j :: seen[0].at <= j <= |writes| ==> WordAt(first, writes, j) != Initializing
  {
    assert !TurnedAway(0, seen[0].value) && !TurnedAway(1, seen[1].value) && !TurnedAway(2, seen[2].value);
    assert seen[0].at <= seen[1].at <= seen[2].at;
    forall j | seen[0].at <= j <= |writes| ensures WordAt(first, writes, j) != Initializing {
      PastInitializing(first, writes, seen[0].at, j);
    }
  }

  /**
   * Over every schedule, an evaluation that got past the entry checks never saw READY or DEGRADED there exactly when it
   * read FAILED second and SYNCHRONIZING third; if the state word was not written during its reads, it did see one.
   */
  lemma EnteredWithoutServingIff(cfg: Config, init: Core, first: GateState, start: real, actions: seq<Action>, s: Sys,
                                 i: nat)
    requires Reachable(cfg, init, first, start, actions, s) && i < |s.log| && s.log[i].req.Evaluate?
    ensures var seen := s.log[i].seen;
            && |seen| == 3 && (NeverSawServing(seen) <==> SlippedThrough(seen))
            && (seen[0].at == seen[2].at ==> Serving(seen[0].value))
  {
    ReachableInv(cfg, init, first, start, actions, s);
    assert EntrySound(first, s.writes, s.log[i].req, s.log[i].seen);
    EntryReads(first, s.writes, s.log[i].seen);
  }

  // ----- what the entry checks still mean under the lock -----

  /** Writes after which the gate is meant to be shut. */
  predicate Shuts(w: Write) {
    w.Marked? || w.InitFailed?
  }

  /** The writes made since the last entry read. */
  function WritesSince(s: Sys, seen: seq<Read>): seq<Write>
    requires |seen| == 3 && seen[2].at <= |s.writes|
  {
    s.writes[seen[2].at..]
  }

  ghost predicate Evaluating(s: Sys, t: nat) {
    PhaseOf(s, t).Inside? && PhaseOf(s, t).req.Evaluate?
  }

  lemma EvaluatorChronicled(cfg: Config, init: Core, first: GateState, start: real, actions: seq<Action>, s: Sys,
                            t: nat)
    requires Reachable(cfg, init, first, start, actions, s) && Evaluating(s, t)
    ensures var seen := PhaseOf(s, t).seen;
            && |seen| == 3 && Passed(seen) && Sound(first, s.writes, seen) && seen[2].at <= |s.writes|
            && s.state == WordAt(first, s.writes, |s.writes|) && s.state != Synchronizing
  {
    ReachableInv(cfg, init, first, start, actions, s);
    assert PhaseSound(first, s.writes, PhaseOf(s, t));
    assert s.holder == Some(t);
  }

  /**
   * Over every schedule, while an evaluation holds the lock, and so when it decides, the gate is not in a serving state
   * exactly when the last write to the state word since its entry reads was a failed handshake's or a failed
   * initialisation's.
   */
  lemma NotServingIff(cfg: Config, init: Core, first: GateState, start: real, actions: seq<Action>, s: Sys, t: nat)
    requires Reachable(cfg, init, first, start, actions, s) && Evaluating(s, t)
    ensures |PhaseOf(s, t).seen| == 3 && PhaseOf(s, t).seen[2].at <= |s.writes|
    ensures var since := WritesSince(s, PhaseOf(s, t).seen);
            !Serving(s.state) <==> since != [] && Shuts(since[|since| - 1])
  {
    var seen := PhaseOf(s, t).seen;
    EvaluatorChronicled(cfg, init, first, start, actions, s, t);
    EntryReads(first, s.writes, seen);
    var since := WritesSince(s, seen);
    assert WordAt(first, s.writes, |s.writes|) != Initializing;
    if since != [] {
      assert since[|since| - 1] == s.writes[|s.writes| - 1];
    }
  }

  /** Under an evaluator's lock only a failed handshake can write the state word. */
  lemma OnlyHandshakesWrite(cfg: Config, s: Sys, t: nat, a: Action)
    requires Exclusive(s) && Evaluating(s, t) && Enabled(s, a)
    ensures Apply(cfg, s, a).state != s.state ==> a.MarkFailed?
    ensures Apply(cfg, s, a).writes != s.writes ==> a.MarkFailed?
  {
    WordFollowsWrites(cfg, s, a);
    assert s.holder == Some(t);
    if a.Work? {
      assert a.thread == t;
    }
  }

  /** With no failed handshake and no failed initialisation in between, an evaluation decides in a serving state. */
  lemma AdmissionsServe(cfg: Config, init: Core, first: GateState, start: real, actions: seq<Action>, s: Sys, t: nat)
    requires Reachable(cfg, init, first, start, actions, s) && Evaluating(s, t)
    ensures |PhaseOf(s, t).seen| == 3 && PhaseOf(s, t).seen[2].at <= |s.writes|
    ensures (forall w :: w in WritesSince(s, PhaseOf(s, t).seen) ==> !Shuts(w)) ==>
              Serving(s.state) && Serving(Apply(cfg, s, Work(t)).state)
  {
    NotServingIff(cfg, init, first, start, actions, s, t);
    var since := WritesSince(s, PhaseOf(s, t).seen);
    if since != [] {
      assert since[|since| - 1] in since;
    }
    WordFollowsWrites(cfg, s, Work(t));
  }

  /**
   * A failed refresh writes DEGRADED over whatever it did not read: the word still says READY unless a handshake failed
   * between the refresh's read and its write, and then that failure is lost.
   */
  lemma RefreshOverwritesIff(cfg: Config, init: Core, first: GateState, start: real, actions: seq<Action>, s: Sys,
                             t: nat)
    requires Reachable(cfg, init, first, start, actions, s)
    requires PhaseOf(s, t).Inside? && PhaseOf(s, t).req.Refresh? && PhaseOf(s, t).pc > 0
    ensures |PhaseOf(s, t).seen| == 1
    ensures s.state == if |s.writes| > PhaseOf(s, t).seen[0].at then Failed else Ready
    ensures Apply(cfg, s, Work(t)).state == Degraded
  {
    ReachableInv(cfg, init, first, start, actions, s);
    assert PhaseSound(first, s.writes, PhaseOf(s, t));
    WordFollowsWrites(cfg, s, Work(t));
    if |s.writes| > PhaseOf(s, t).seen[0].at {
      assert s.writes[|s.writes| - 1].Marked?;
    }
  }

  // ----- schedules on which the entry checks fall short -----

  /** At no point of the schedule was the gate READY or DEGRADED. */
  ghost predicate NeverServes(cfg: Config, from: Sys, actions: seq<Action>) {
    forall k :: 0 <= k <= |actions| ==>
      var s := Execute(cfg, from, actions[..k]); s.Some? && !Serving(s.value.state)
  }

  lemma Extend(cfg: Config, from: Sys, actions: seq<Action>, s: Sys, a: Action) returns (more: seq<Action>, next: Sys)
    requires LeadsTo(cfg, from, actions, s) && Enabled(s, a)
    ensures more == actions + [a] && next == Apply(cfg, s, a) && LeadsTo(cfg, from, more, next)
    ensures NeverServes(cfg, from, actions) && !Serving(next.state) ==> NeverServes(cfg, from, more)
  {
    more, next := actions + [a], Apply(cfg, s, a);
    assert more[..|more| - 1] == actions;
    if NeverServes(cfg, from, actions) && !Serving(next.state) {
      StillNeverServes(cfg, from, actions, more, next);
    }
  }

  lemma StillNeverServes(cfg: Config, from: Sys, actions: seq<Action>, more: seq<Action>, next: Sys)
    requires NeverServes(cfg, from, actions) && actions < more && |more| == |actions| + 1
    requires LeadsTo(cfg, from, more, next) && !Serving(next.state)
    ensures NeverServes(cfg, from, more)
  {
    forall k | 0 <= k <= |more| ensures var x := Execute(cfg, from, more[..k]); x.Some? && !Serving(x.value.state) {
      if k <= |actions| {
        assert more[..k] == actions[..k];
      } else {
        assert more[..k] == more;
      }
    }
  }

  /** Thread 1 has its reads behind it and asks for the lock, which nobody holds, with a signal that fits. */
  ghost predicate Asking(cfg: Config, s: Sys, sig: Signal, env: Env) {
    && PhaseOf(s, 1).Waiting? && PhaseOf(s, 1).req == Evaluate(sig)
    && s.holder == None && s.clock <= env.now && FitsOnce(cfg, s.core, sig, env)
  }

  /** A fresh cache makes the fetch step a no-op. */
  lemma AcquireAndFetch(cfg: Config, s: Sys, sig: Signal, env: Env)
    requires Asking(cfg, s, sig, env)
    ensures Enabled(s, Acquire(1, env)) && Enabled(Apply(cfg, s, Acquire(1, env)), Work(1))
    ensures Apply(cfg, s, Acquire(1, env)).state == s.state
    ensures var next := Apply(cfg, Apply(cfg, s, Acquire(1, env)), Work(1));
            && next.core == s.core && next.state == s.state && next.answers == s.answers
            && PhaseOf(next, 1) == Inside(Evaluate(sig), env, PhaseOf(s, 1).seen, 1)
  {
  }

  lemma PurgeAndConclude(cfg: Config, s: Sys, sig: Signal, env: Env, seen: seq<Read>)
    requires PhaseOf(s, 1) == Inside(Evaluate(sig), env, seen, 1) && FitsOnce(cfg, s.core, sig, env)
    ensures Enabled(s, Work(1)) && Enabled(Apply(cfg, s, Work(1)), Work(1))
    ensures Apply(cfg, s, Work(1)).state == s.state
    ensures var next := Apply(cfg, Apply(cfg, s, Work(1)), Work(1));
            && next.state == s.state && |next.answers| == |s.answers| + 1
            && Reserves(next.answers[|s.answers|]) && PhaseOf(next, 1).Leaving?
  {
    AdmitThenConfirm(cfg, s.core, sig, env);
  }

  /** From there it is admitted, whatever the state word says by then. */
  lemma AdmitFromAsking(cfg: Config, from: Sys, actions: seq<Action>, s: Sys, sig: Signal, env: Env)
    returns (more: seq<Action>, end: Sys)
    requires LeadsTo(cfg, from, actions, s) && Asking(cfg, s, sig, env)
    ensures LeadsTo(cfg, from, more, end) && end.state == s.state
    ensures |end.answers| == |s.answers| + 1 && Reserves(end.answers[|s.answers|])
    ensures NeverServes(cfg, from, actions) && !Serving(s.state) ==> NeverServes(cfg, from, more)
  {
    AcquireAndFetch(cfg, s, sig, env);
    more, end := Extend(cfg, from, actions, s, Acquire(1, env));
    more, end := Extend(cfg, from, more, end, Work(1));
    PurgeAndConclude(cfg, end, sig, env, PhaseOf(s, 1).seen);
    more, end := Extend(cfg, from, more, end, Work(1));
    more, end := Extend(cfg, from, more, end, Work(1));
  }

  lemma BeginEvaluation(cfg: Config, s: Sys, sig: Signal)
    requires PhaseOf(s, 1) == Idle
    ensures Enabled(s, Begin(1, Evaluate(sig)))
    ensures Apply(cfg, s, Begin(1, Evaluate(sig))) == s.(threads := s.threads[1 := Entering(sig, [])])
  {
  }

  lemma ReadEarly(cfg: Config, s: Sys, sig: Signal, seen: seq<Read>)
    requires PhaseOf(s, 1) == Entering(sig, seen) && |seen| < 2 && !TurnedAway(|seen|, s.state)
    ensures Enabled(s, ReadState(1))
    ensures Apply(cfg, s, ReadState(1))
         == s.(threads := s.threads[1 := Entering(sig, seen + [Read(s.state, |s.writes|)])])
  {
  }

  lemma ReadLast(cfg: Config, s: Sys, sig: Signal, seen: seq<Read>)
    requires PhaseOf(s, 1) == Entering(sig, seen) && |seen| == 2 && s.state != Failed && Parses(sig)
    ensures Enabled(s, ReadState(1))
    ensures Apply(cfg, s, ReadState(1))
         == s.(threads := s.threads[1 := Waiting(Evaluate(sig), seen + [Read(s.state, |s.writes|)])])
  {
  }

  /** Thread 1 has begun and made some of its reads; nothing else has happened. */
  ghost predicate HasRead(s: Sys, from: Sys, sig: Signal, seen: seq<Read>) {
    s == from.(threads := s.threads) && PhaseOf(s, 1) == Entering(sig, seen) && PhaseOf(s, 2) == Idle
  }

  lemma ReadOn(cfg: Config, from: Sys, actions: seq<Action>, s: Sys, sig: Signal, seen: seq<Read>)
    returns (more: seq<Action>, next: Sys)
    requires LeadsTo(cfg, from, actions, s) && HasRead(s, from, sig, seen)
    requires |seen| < 2 && !TurnedAway(|seen|, s.state)
    ensures LeadsTo(cfg, from, more, next) && HasRead(next, from, sig, seen + [Read(s.state, |s.writes|)])
    ensures NeverServes(cfg, from, actions) && !Serving(s.state) ==> NeverServes(cfg, from, more)
  {
    ReadEarly(cfg, s, sig, seen);
    more, next := Extend(cfg, from, actions, s, ReadState(1));
  }

  lemma StartNeverServes(cfg: Config, from: Sys)
    requires !Serving(from.state)
    ensures NeverServes(cfg, from, [])
  {
  }

  /** Thread 1 begins and reads the state word twice without being turned away. */
  lemma ReadTwice(cfg: Config, init: Core, first: GateState, start: real, sig: Signal)
    returns (actions: seq<Action>, s: Sys)
    requires first == Ready || first == Failed
    ensures LeadsTo(cfg, Start(init, first, start), actions, s)
    ensures HasRead(s, Start(init, first, start), sig, [Read(first, 0), Read(first, 0)])
    ensures !Serving(first) ==> NeverServes(cfg, Start(init, first, start), actions)
  {
    var from := Start(init, first, start);
    if !Serving(first) {
      StartNeverServes(cfg, from);
    }
    BeginEvaluation(cfg, from, sig);
    actions, s := Extend(cfg, from, [], from, Begin(1, Evaluate(sig)));
    actions, s := ReadOn(cfg, from, actions, s, sig, []);
    actions, s := ReadOn(cfg, from, actions, s, sig, [] + [Read(first, 0)]);
    assert [] + [Read(first, 0)] + [Read(first, 0)] == [Read(first, 0), Read(first, 0)];
  }

  /** An evaluation enters while the gate is READY, a handshake then fails the gate, and the signal is admitted. */
  lemma AdmittedAfterFailure(cfg: Config, init: Core, sig: Signal, env: Env, start: real)
    returns (actions: seq<Action>, end: Sys)
    requires FitsOnce(cfg, init, sig, env) && start <= env.now
    ensures Reachable(cfg, init, Ready, start, actions, end) && end.state == Failed
    ensures |end.answers| == 1 && Reserves(end.answers[0])
  {
    var from := Start(init, Ready, start);
    actions, end := ReadTwice(cfg, init, Ready, start, sig);
    ReadLast(cfg, end, sig, [Read(Ready, 0), Read(Ready, 0)]);
    actions, end := Extend(cfg, from, actions, end, ReadState(1));
    actions, end := Extend(cfg, from, actions, end, RaiseInHandshake(2));
    actions, end := Extend(cfg, from, actions, end, MarkFailed(2));
    actions, end := AdmitFromAsking(cfg, from, actions, end, sig, env);
  }

  /** Thread 2 begins an initialisation and takes the lock... */
  lemma TakeForInit(cfg: Config, s: Sys, env: Env)
    requires PhaseOf(s, 2) == Idle && s.holder == None && s.clock <= env.now
    ensures var begin, acquire := Begin(2, Request.Initialize), Acquire(2, env);
            && Enabled(s, begin) && Apply(cfg, s, begin).state == s.state
            && Enabled(Apply(cfg, s, begin), acquire)
            && var next := Apply(cfg, Apply(cfg, s, begin), acquire);
               && next.state == s.state && next.core == s.core && next.clock == env.now && next.answers == s.answers
               && PhaseOf(next, 1) == PhaseOf(s, 1) && PhaseOf(next, 2) == Inside(Request.Initialize, env, [], 0)
  {
  }

  /** ...writes SYNCHRONIZING... */
  lemma WriteSynchronizing(cfg: Config, s: Sys, env: Env)
    requires PhaseOf(s, 2) == Inside(Request.Initialize, env, [], 0)
    ensures Enabled(s, Work(2))
    ensures var next := Apply(cfg, s, Work(2));
            && next.state == Synchronizing && next.core == s.core && next.clock == s.clock && next.answers == s.answers
            && PhaseOf(next, 1) == PhaseOf(s, 1) && PhaseOf(next, 2) == Inside(Request.Initialize, env, [], 1)
  {
  }

  lemma StartInitialising(cfg: Config, from: Sys, actions: seq<Action>, s: Sys, env: Env)
    returns (more: seq<Action>, next: Sys)
    requires LeadsTo(cfg, from, actions, s) && PhaseOf(s, 2) == Idle && s.holder == None && s.clock <= env.now
    ensures LeadsTo(cfg, from, more, next)
    ensures next.state == Synchronizing && next.core == s.core && next.clock == env.now && next.answers == s.answers
    ensures PhaseOf(next, 1) == PhaseOf(s, 1) && PhaseOf(next, 2) == Inside(Request.Initialize, env, [], 1)
    ensures NeverServes(cfg, from, actions) && !Serving(s.state) ==> NeverServes(cfg, from, more)
  {
    TakeForInit(cfg, s, env);
    more, next := Extend(cfg, from, actions, s, Begin(2, Request.Initialize));
    more, next := Extend(cfg, from, more, next, Acquire(2, env));
    WriteSynchronizing(cfg, next, env);
    more, next := Extend(cfg, from, more, next, Work(2));
  }

  /** ...then fails and lets go of the lock. */
  lemma FailAndRelease(cfg: Config, s: Sys, env: Env)
    requires PhaseOf(s, 2) == Inside(Request.Initialize, env, [], 1) && !env.fetch.Fetched?
    ensures Enabled(s, Work(2)) && Apply(cfg, s, Work(2)).state == Failed
    ensures Enabled(Apply(cfg, s, Work(2)), Release(2))
    ensures var next := Apply(cfg, Apply(cfg, s, Work(2)), Release(2));
            && next.state == Failed && next.core == s.core && next.clock == s.clock && next.holder == None
            && |next.answers| == |s.answers| + 1 && PhaseOf(next, 1) == PhaseOf(s, 1)
  {
  }

  /** The third read finds SYNCHRONIZING before that. */
  lemma FailInitialising(cfg: Config, from: Sys, actions: seq<Action>, s: Sys, sig: Signal, env: Env, seen: seq<Read>)
    returns (more: seq<Action>, next: Sys)
    requires LeadsTo(cfg, from, actions, s) && s.state == Synchronizing && !env.fetch.Fetched?
    requires PhaseOf(s, 1) == Entering(sig, seen) && |seen| == 2 && Parses(sig)
    requires PhaseOf(s, 2) == Inside(Request.Initialize, env, [], 1)
    ensures LeadsTo(cfg, from, more, next)
    ensures next.state == Failed && next.core == s.core && next.clock == s.clock && next.holder == None
    ensures |next.answers| == |s.answers| + 1
    ensures PhaseOf(next, 1).Waiting? && PhaseOf(next, 1).req == Evaluate(sig)
    ensures NeverServes(cfg, from, actions) ==> NeverServes(cfg, from, more)
  {
    ReadLast(cfg, s, sig, seen);
    more, next := Extend(cfg, from, actions, s, ReadState(1));
    FailAndRelease(cfg, next, env);
    more, next := Extend(cfg, from, more, next, Work(2));
    more, next := Extend(cfg, from, more, next, Release(2));
  }

  /** Thread 1 has read FAILED twice and thread 2 has just written SYNCHRONIZING. */
  lemma ReachSynchronizing(cfg: Config, init: Core, sig: Signal, env: Env, start: real)
    returns (actions: seq<Action>, s: Sys)
    requires start <= env.now
    ensures LeadsTo(cfg, Start(init, Failed, start), actions, s)
    ensures NeverServes(cfg, Start(init, Failed, start), actions)
    ensures s.state == Synchronizing && s.core == init && s.clock == env.now && s.answers == []
    ensures PhaseOf(s, 1) == Entering(sig, [Read(Failed, 0), Read(Failed, 0)])
    ensures PhaseOf(s, 2) == Inside(Request.Initialize, env, [], 1)
  {
    actions, s := ReadTwice(cfg, init, Failed, start, sig);
    actions, s := StartInitialising(cfg, Start(init, Failed, start), actions, s, env);
  }

  /** A schedule on which the gate is never READY or DEGRADED and a signal is admitted all the same. */
  lemma AdmittedWithoutServing(cfg: Config, init: Core, sig: Signal, env: Env, start: real)
    returns (actions: seq<Action>, end: Sys)
    requires FitsOnce(cfg, init, sig, env) && start <= env.now
    ensures Reachable(cfg, init, Failed, start, actions, end)
    ensures NeverServes(cfg, Start(init, Failed, start), actions)
    ensures |end.answers| == 2 && Reserves(end.answers[1])
  {
    var from, down := Start(init, Failed, start), Env(env.now, ProviderFailed);
    actions, end := ReachSynchronizing(cfg, init, sig, down, start);
    actions, end := FailInitialising(cfg, from, actions, end, sig, down, [Read(Failed, 0), Read(Failed, 0)]);
    actions, end := AdmitFromAsking(cfg, from, actions, end, sig, env);
  }
}

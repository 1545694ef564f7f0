/** When a session comes up: the exact outcome of a start, an activation and an action, and runs that end ready. */
module SessionOutcomes {
  import opened Common
  import opened PskState
  import opened SessionKeys
  import opened SessionSpec
  import T = TlsAdapter

  // ---- the plan ------------------------------------------------------------------------

  /** The administrator's settings ask for this key on the sensor now. */
  predicate Wants(cfg: Settings, repair: bool, known: Option<Key>, randomKey: Option<Key>, key: Key) {
    match cfg.provision
    case NotRequested => false
    case RandomKey => if known.Some? then repair && known.value == key else randomKey == Some(key)
    case KeyText(text) => ParseHex(text) == Some(key) && (repair || known != Some(key))
  }

  /** The key that is known is the one asked for, or none is asked for. */
  predicate Content(cfg: Settings, known: Option<Key>) {
    match cfg.provision
    case NotRequested => true
    case RandomKey => known.Some?
    case KeyText(text) => known.Some? && ParseHex(text) == known
  }

  /** The sensor key is written exactly when another one is wanted, or the known one has to be repaired. */
  lemma PlanExactly(cfg: Settings, repair: bool, known: Option<Key>, randomKey: Option<Key>)
    ensures var plan := PlanKey(cfg, repair, known, randomKey);
            && (forall key :: plan == Write(key) <==> Wants(cfg, repair, known, randomKey, key))
            && (plan == Keep <==> Content(cfg, known) && (cfg.provision.NotRequested? || !repair))
  {
  }

  /** A well-formed override is the known key; without one, or with a malformed one, the state file is read. */
  lemma KnownExactly(cfg: Settings, stateFile: Option<string>)
    ensures KnownKey(cfg, stateFile) == if Overridden(cfg) then ParseHex(cfg.keyOverride) else LoadText(stateFile)
  {
  }

  // ---- one start -----------------------------------------------------------------------

  /** The key this start connects with, if it gets that far: one just written, the known one, or the sensor's own. */
  function UsedKey(s: State, cfg: Settings, e: StartEnv): Option<Key> {
    match PlanFor(s, cfg, e)
    case Abort => None
    case Write(want) => if e.writeVerified && !s.pending then Some(want) else None
    case Keep => if KnownKey(cfg, s.stateFile).Some? then KnownKey(cfg, s.stateFile) else e.sensorKey
  }

  /** There is a key, a context, an established session, and the mandatory acknowledgement. */
  ghost predicate ComesUp(s: State, cfg: Settings, e: StartEnv) {
    UsedKey(s, cfg, e).Some? && e.contextOk && e.exchange.outcome == T.Established && e.establishedAcked
  }

  /** A scheduled repair is carried out, and verified. */
  predicate Repairs(s: State, cfg: Settings, e: StartEnv) {
    PlanFor(s, cfg, e).Write? && s.pending && e.writeVerified
  }

  /** The events of a start: the repair, the write, and the handshake, as far as it gets. */
  function StartEvents(s: State, cfg: Settings, e: StartEnv): seq<Event> {
    var plan := PlanFor(s, cfg, e);
    (if plan.Write? && s.pending then [RepairBegun(plan.key)] else [])
    + (if plan.Write? then [if e.writeVerified then Provisioned(plan.key) else ProvisionFailed] else [])
    + (if UsedKey(s, cfg, e).Some? && e.contextOk then [Handshake(UsedKey(s, cfg, e).value, e.exchange)] else [])
  }

  lemma ConnectExactly(s: State, cfg: Settings, key: Key, haveKnown: bool, e: StartEnv)
    ensures var (t, r) := Connect(s, cfg, key, haveKnown, e);
            && t.trace == s.trace + (if e.contextOk then [Handshake(key, e.exchange)] else [])
            && r == (if e.contextOk && e.exchange.outcome == T.Established && e.establishedAcked
                     then Ready else StartFailed)
            && t.(pending := s.pending, tlsReady := s.tlsReady, trace := s.trace) == s
            && (t.tlsReady <==> s.tlsReady || r == Ready)
  {
  }

  lemma BeginExactly(s: State, want: Key)
    ensures var t := BeginWrite(s, want);
            && !t.pending && t.attempted == (s.attempted || s.pending)
            && t.trace == s.trace + (if s.pending then [RepairBegun(want)] else [])
            && t.(pending := s.pending, attempted := s.attempted, trace := s.trace) == s
  {
  }

  lemma FinishExactly(s: State, repair: bool, want: Key, e: StartEnv)
    ensures var t := FinishWrite(s, repair, want, e);
            && t.completed == (s.completed || (repair && e.writeVerified))
            && t.trace == s.trace + [if e.writeVerified then Provisioned(want) else ProvisionFailed]
            && t.(completed := s.completed, stateFile := s.stateFile, trace := s.trace) == s
  {
  }

  /** The state after a write, but for the state file. */
  lemma WriteExactly(s: State, want: Key, e: StartEnv)
    ensures var t := FinishWrite(BeginWrite(s, want), s.pending, want, e);
            && !t.pending && t.attempted == (s.attempted || s.pending)
            && t.completed == (s.completed || (s.pending && e.writeVerified))
            && (t.listener, t.tlsReady, t.desynced) == (s.listener, s.tlsReady, s.desynced)
            && t.trace == s.trace + (if s.pending then [RepairBegun(want)] else [])
                          + [if e.writeVerified then Provisioned(want) else ProvisionFailed]
  {
    BeginExactly(s, want);
    FinishExactly(BeginWrite(s, want), s.pending, want, e);
  }

  ghost predicate StartedExactly(s: State, cfg: Settings, e: StartEnv, t: State, r: StartResult) {
    BroughtUp(s, cfg, e, t, r) && t.trace == s.trace + StartEvents(s, cfg, e)
  }

  ghost predicate BroughtUp(s: State, cfg: Settings, e: StartEnv, t: State, r: StartResult) {
    && (r == Ready <==> ComesUp(s, cfg, e))
    && (r == ResetRequired <==> Repairs(s, cfg, e))
    && (t.tlsReady <==> s.tlsReady || ComesUp(s, cfg, e))
    && (t.completed <==> s.completed || Repairs(s, cfg, e))
    && (t.attempted <==> s.attempted || (PlanFor(s, cfg, e).Write? && s.pending))
    && t.listener == s.listener && t.desynced == s.desynced
  }

  /**
    For every state, settings and environment: a start is ready exactly when it has a key to connect with, the
    handshake is established, and the acknowledgement arrives; what it leaves and logs is exact.
   */
  lemma StartExactly(s: State, cfg: Settings, e: StartEnv)
    ensures StartedExactly(s, cfg, e, TlsStart(s, cfg, e).0, TlsStart(s, cfg, e).1)
  {
    match PlanFor(s, cfg, e)
    case Abort => assert StartEvents(s, cfg, e) == [];
    case Write(want) => WriteStartExactly(s, cfg, e, want);
    case Keep => KeepStartExactly(s, cfg, e);
  }

  lemma KeepEvents(s: State, cfg: Settings, e: StartEnv)
    requires PlanFor(s, cfg, e).Keep?
    ensures StartEvents(s, cfg, e)
            == if UsedKey(s, cfg, e).Some? && e.contextOk then [Handshake(UsedKey(s, cfg, e).value, e.exchange)] else []
    ensures s.trace + [] == s.trace
  {
  }

  lemma KeepConnects(s: State, cfg: Settings, e: StartEnv)
    requires PlanFor(s, cfg, e).Keep?
    ensures TlsStart(s, cfg, e)
            == (if UsedKey(s, cfg, e).None? then (s, StartFailed)
                else Connect(s, cfg, UsedKey(s, cfg, e).value, KnownKey(cfg, s.stateFile).Some?, e))
    ensures !Repairs(s, cfg, e)
  {
  }

  lemma KeepStartExactly(s: State, cfg: Settings, e: StartEnv)
    requires PlanFor(s, cfg, e).Keep?
    ensures StartedExactly(s, cfg, e, TlsStart(s, cfg, e).0, TlsStart(s, cfg, e).1)
  {
    KeepConnects(s, cfg, e);
    if UsedKey(s, cfg, e).Some? {
      ConnectedExactly(s, cfg, e, UsedKey(s, cfg, e).value, KnownKey(cfg, s.stateFile).Some?);
    } else {
      KeepEvents(s, cfg, e);
    }
  }

  lemma ConnectedExactly(s: State, cfg: Settings, e: StartEnv, key: Key, known: bool)
    requires PlanFor(s, cfg, e).Keep? && UsedKey(s, cfg, e) == Some(key)
    ensures StartedExactly(s, cfg, e, Connect(s, cfg, key, known, e).0, Connect(s, cfg, key, known, e).1)
  {
    KeepEvents(s, cfg, e);
    ConnectExactly(s, cfg, key, known, e);
  }

  lemma WriteStartExactly(s: State, cfg: Settings, e: StartEnv, want: Key)
    requires PlanFor(s, cfg, e) == Write(want)
    ensures StartedExactly(s, cfg, e, TlsStart(s, cfg, e).0, TlsStart(s, cfg, e).1)
  {
    var t := FinishWrite(BeginWrite(s, want), s.pending, want, e);
    WriteExactly(s, want, e);
    ConnectExactly(t, cfg, want, true, e);
    var begun := if s.pending then [RepairBegun(want)] else [];
    var written := [if e.writeVerified then Provisioned(want) else ProvisionFailed];
    var met := if UsedKey(s, cfg, e).Some? && e.contextOk then [Handshake(want, e.exchange)] else [];
    Associative(s.trace, begun, written);
    Associative(s.trace, begun + written, met);
    assert t.trace + [] == t.trace && begun + written + [] == begun + written;
  }

  // ---- one activation --------------------------------------------------------------------

  /** The MCU answers, starts its session, and listener and first calibration work. */
  ghost predicate OnceUp(s: State, cfg: Settings, e: OnceEnv) {
    e.probeOk && e.initOk && ComesUp(s, cfg, e.start) && e.listenerOk && e.primeOk
  }

  /** This activation completes the repair of the open. */
  predicate OnceRepairs(s: State, cfg: Settings, e: OnceEnv) {
    e.probeOk && e.initOk && Repairs(s, cfg, e.start)
  }

  /** A start looks only at the pending flag and the state file. */
  lemma StartIgnores(s: State, t: State, cfg: Settings, e: StartEnv)
    requires t.pending == s.pending && t.stateFile == s.stateFile
    ensures UsedKey(t, cfg, e) == UsedKey(s, cfg, e) && (Repairs(t, cfg, e) <==> Repairs(s, cfg, e))
    ensures StartEvents(t, cfg, e) == StartEvents(s, cfg, e)
  {
    PlanIgnores(s, t, cfg, e);
  }

  lemma PlanIgnores(s: State, t: State, cfg: Settings, e: StartEnv)
    requires t.pending == s.pending && t.stateFile == s.stateFile
    ensures PlanFor(t, cfg, e) == PlanFor(s, cfg, e) && KnownKey(cfg, t.stateFile) == KnownKey(cfg, s.stateFile)
  {
  }

  /** An activation succeeds exactly when all of its parts do, and what it sets up is exact. */
  lemma OnceExactly(s: State, cfg: Settings, e: OnceEnv)
    ensures var (t, ok) := ActivateOnce(s, cfg, e);
            && (ok <==> OnceUp(s, cfg, e)) && !t.desynced
            && (t.listener <==> s.listener || (e.probeOk && e.initOk && ComesUp(s, cfg, e.start) && e.listenerOk))
            && (t.tlsReady <==> s.tlsReady || (e.probeOk && e.initOk && ComesUp(s, cfg, e.start)))
            && (t.completed <==> s.completed || OnceRepairs(s, cfg, e))
            && t.trace == s.trace + [ActivationCall]
                          + (if e.probeOk && e.initOk then StartEvents(s, cfg, e.start) else [])
  {
    var called := s.(desynced := false).Log(ActivationCall);
    StartExactly(called, cfg, e.start);
    StartIgnores(s, called, cfg, e.start);
  }

  // ---- the activation loop -----------------------------------------------------------------

  ghost predicate TurnUp(s: State, cfg: Settings, e: TurnEnv) {
    !e.cancelBefore && OnceUp(s, cfg, e.once)
  }

  /** A failed turn that completed the first repair earns a fresh budget, once. */
  predicate Earns(s: State, cfg: Settings, e: TurnEnv, granted: bool) {
    !granted && !s.completed && OnceRepairs(s, cfg, e.once)
  }

  /** The failed turn is followed by another: not cancelled, and budget fresh or left. */
  predicate GoesOn(s: State, cfg: Settings, e: TurnEnv, failures: nat, max: nat, granted: bool) {
    !e.cancelBefore && !e.cancelAfter && (Earns(s, cfg, e, granted) || (failures + 1 < max && !e.cancelWaiting))
  }

  lemma TurnExactly(s: State, cfg: Settings, e: TurnEnv, failures: nat, max: nat, granted: bool)
    requires failures < max
    ensures var r, earns := Turn(s, cfg, e, failures, max, granted), Earns(s, cfg, e, granted);
            && (r.Done? && r.ok <==> TurnUp(s, cfg, e))
            && (r.Again? <==> !TurnUp(s, cfg, e) && GoesOn(s, cfg, e, failures, max, granted))
            && (r.Again? ==> r.granted == (granted || earns) && r.failures == (if earns then 0 else failures + 1))
            && (r.Done? && !r.ok && !e.cancelBefore ==>
                  (r.s.desynced <==> e.cancelAfter || (failures + 1 < max && e.cancelWaiting)))
            && (e.cancelBefore ==> r == Done(s.(desynced := true), false))
            && (!e.cancelBefore && !(r.Done? && r.ok) ==> !r.s.tlsReady && !r.s.listener)
  {
    if !e.cancelBefore {
      OnceExactly(s, cfg, e.once);
    }
  }

  /** Where the loop stands before a turn. */
  datatype Point = Point(s: State, failures: nat, granted: bool)

  /** The point after one more turn, if the loop goes on. */
  ghost function NextPoint(p: Point, cfg: Settings, e: TurnEnv, max: nat): (q: Option<Point>)
    requires p.failures < max
    ensures q.Some? ==> q.value.failures < max && (p.granted ==> q.value.granted)
    ensures q.Some? && q.value.granted == p.granted ==> q.value.failures == p.failures + 1
  {
    match Turn(p.s, cfg, e, p.failures, max, p.granted)
    case Done(_, _) => None
    case Again(t, failures, granted) => Some(Point(t, failures, granted))
  }

  /** What each turn makes of the point before it. */
  ghost function Stepping(cfg: Settings, env: nat -> TurnEnv, max: nat): (nat, Point) -> Option<Point> {
    (n: nat, p: Point) => if p.failures < max then NextPoint(p, cfg, env(n), max) else None
  }

  /** Every further turn uses up the budget, or is the first after the fresh one was granted. */
  ghost predicate UsesUp(step: (nat, Point) -> Option<Point>, max: nat) {
    forall n: nat, p: Point | step(n, p).Some? :: Spent(p, step(n, p).value, max)
  }

  predicate Spent(p: Point, q: Point, max: nat) {
    q.failures < max && (p.granted ==> q.granted) && (q.granted == p.granted ==> p.failures < q.failures)
  }

  /** The point before the n-th turn, if the loop gets there. */
  ghost function ReachedBy(step: (nat, Point) -> Option<Point>, start: Point, n: nat): Option<Point> {
    if n == 0 then Some(start)
    else
      match ReachedBy(step, start, n - 1)
      case None => None
      case Some(p) => step(n - 1, p)
  }

  /** There is a turn that is reached and not gone on from. */
  lemma {:induction false} SteppingEnds(step: (nat, Point) -> Option<Point>, start: Point, max: nat, n: nat, p: Point)
    returns (last: nat)
    requires UsesUp(step, max) && ReachedBy(step, start, n) == Some(p) && p.failures < max
    ensures ReachedBy(step, start, last).Some? && ReachedBy(step, start, last + 1).None?
    decreases if p.granted then 0 else 1, max - p.failures
  {
    match step(n, p)
    case None => last := n;
    case Some(q) =>
      assert Spent(p, q, max);
      last := SteppingEnds(step, start, max, n + 1, q);
  }

  lemma {:induction false} ReachedInBudget(step: (nat, Point) -> Option<Point>, start: Point, max: nat, n: nat)
    requires UsesUp(step, max) && start.failures < max && ReachedBy(step, start, n).Some?
    ensures ReachedBy(step, start, n).value.failures < max
  {
    if n > 0 {
      var p := ReachedBy(step, start, n - 1).value;
      assert Spent(p, step(n - 1, p).value, max);
    }
  }

  lemma SteppingUsesUp(cfg: Settings, env: nat -> TurnEnv, max: nat)
    ensures UsesUp(Stepping(cfg, env, max), max)
  {
    var step := Stepping(cfg, env, max);
    forall n: nat, p: Point | step(n, p).Some? ensures Spent(p, step(n, p).value, max) {
      var q := NextPoint(p, cfg, env(n), max).value;
    }
  }

  ghost function Reached(s: State, cfg: Settings, env: nat -> TurnEnv, max: nat, n: nat): Option<Point> {
    ReachedBy(Stepping(cfg, env, max), Point(s, 0, false), n)
  }

  /** What the loop makes of a point. */
  ghost function LoopFrom(p: Point, cfg: Settings, env: nat -> TurnEnv, max: nat, n: nat): (State, bool)
    requires p.failures < max
  {
    ActivateLoop(p.s, cfg, env, n, p.failures, max, p.granted)
  }

  lemma LoopStep(p: Point, cfg: Settings, env: nat -> TurnEnv, max: nat, n: nat)
    requires p.failures < max
    ensures var q := NextPoint(p, cfg, env(n), max);
            if q.Some? then LoopFrom(p, cfg, env, max, n) == LoopFrom(q.value, cfg, env, max, n + 1)
            else LoopFrom(p, cfg, env, max, n).1 <==> TurnUp(p.s, cfg, env(n))
  {
    TurnExactly(p.s, cfg, env(n), p.failures, max, p.granted);
  }

  ghost function Ending(cfg: Settings, env: nat -> TurnEnv, max: nat): (Point, nat) -> (State, bool) {
    (p: Point, n: nat) => if p.failures < max then LoopFrom(p, cfg, env, max, n) else (p.s, false)
  }

  /** No step changes the end. */
  ghost predicate Leads(step: (nat, Point) -> Option<Point>, end: (Point, nat) -> (State, bool)) {
    forall n: nat, p: Point | step(n, p).Some? :: end(p, n) == end(step(n, p).value, n + 1)
  }

  lemma {:induction false} SameEnd(step: (nat, Point) -> Option<Point>, end: (Point, nat) -> (State, bool),
                                   start: Point, n: nat)
    requires Leads(step, end) && ReachedBy(step, start, n).Some?
    ensures end(start, 0) == end(ReachedBy(step, start, n).value, n)
  {
    if n > 0 {
      SameEnd(step, end, start, n - 1);
      assert step(n - 1, ReachedBy(step, start, n - 1).value).Some?;
    }
  }

  lemma LoopLeads(cfg: Settings, env: nat -> TurnEnv, max: nat)
    ensures Leads(Stepping(cfg, env, max), Ending(cfg, env, max))
  {
    var step, end := Stepping(cfg, env, max), Ending(cfg, env, max);
    forall n: nat, p: Point | step(n, p).Some? ensures end(p, n) == end(step(n, p).value, n + 1) {
      LoopStep(p, cfg, env, max, n);
    }
  }

  /** From every point it reaches the loop goes on to the same end. */
  lemma ReachedContinues(start: Point, cfg: Settings, env: nat -> TurnEnv, max: nat, n: nat, p: Point)
    requires start.failures < max && p.failures < max && ReachedBy(Stepping(cfg, env, max), start, n) == Some(p)
    ensures LoopFrom(start, cfg, env, max, 0) == LoopFrom(p, cfg, env, max, n)
  {
    LoopLeads(cfg, env, max);
    SameEnd(Stepping(cfg, env, max), Ending(cfg, env, max), start, n);
  }

  /** A turn that comes up is reached. */
  ghost predicate SomeTurnUp(s: State, cfg: Settings, env: nat -> TurnEnv, max: nat) {
    exists n: nat :: UpAt(s, cfg, env, max, n)
  }

  ghost predicate UpAt(s: State, cfg: Settings, env: nat -> TurnEnv, max: nat, n: nat) {
    Reached(s, cfg, env, max, n).Some? && TurnUp(Reached(s, cfg, env, max, n).value.s, cfg, env(n))
  }

  /** Where the loop does not go on, it succeeds exactly if that turn came up. */
  lemma ReachedEnds(s: State, cfg: Settings, env: nat -> TurnEnv, max: nat, n: nat)
    requires max > 0 && Reached(s, cfg, env, max, n).Some? && Reached(s, cfg, env, max, n + 1).None?
    ensures ActivateLoop(s, cfg, env, 0, 0, max, false).1 <==> UpAt(s, cfg, env, max, n)
  {
    var start, p := Point(s, 0, false), Reached(s, cfg, env, max, n).value;
    SteppingUsesUp(cfg, env, max);
    ReachedInBudget(Stepping(cfg, env, max), start, max, n);
    ReachedContinues(start, cfg, env, max, n, p);
    LoopStep(p, cfg, env, max, n);
  }

  /** A turn that comes up is the last one. */
  lemma UpEnds(s: State, cfg: Settings, env: nat -> TurnEnv, max: nat, n: nat)
    requires max > 0 && UpAt(s, cfg, env, max, n)
    ensures Reached(s, cfg, env, max, n + 1).None?
  {
    var start, p := Point(s, 0, false), Reached(s, cfg, env, max, n).value;
    SteppingUsesUp(cfg, env, max);
    ReachedInBudget(Stepping(cfg, env, max), start, max, n);
    TurnExactly(p.s, cfg, env(n), p.failures, max, p.granted);
  }

  /** The loop succeeds exactly when it reaches a turn that comes up. */
  lemma LoopExactly(s: State, cfg: Settings, env: nat -> TurnEnv, max: nat)
    requires max > 0
    ensures ActivateLoop(s, cfg, env, 0, 0, max, false).1 <==> SomeTurnUp(s, cfg, env, max)
  {
    SteppingUsesUp(cfg, env, max);
    var start := Point(s, 0, false);
    var last := SteppingEnds(Stepping(cfg, env, max), start, max, 0, start);
    ReachedEnds(s, cfg, env, max, last);
    if n: nat :| UpAt(s, cfg, env, max, n) {
      UpEnds(s, cfg, env, max, n);
      ReachedEnds(s, cfg, env, max, n);
    }
  }

  /** A ready session is reused if its reuse works; otherwise the loop decides, with at least one attempt. */
  lemma ActivateExactly(s: State, cfg: Settings, env: nat -> TurnEnv, maxAttempts: nat, reuseOk: bool)
    ensures Activate(s, cfg, env, maxAttempts, reuseOk).1
            <==> if s.tlsReady then reuseOk
                 else SomeTurnUp(s, cfg, env, if maxAttempts < 1 then 1 else maxAttempts)
  {
    LoopExactly(s, cfg, env, if maxAttempts < 1 then 1 else maxAttempts);
  }

  /** An MCU that never answers and a user who never cancels: the loop tries exactly as often as it may. */
  lemma {:induction false} TriesAll(s: State, cfg: Settings, env: nat -> TurnEnv, max: nat, n: nat)
    requires max > 0 && n <= max
    requires forall i: nat :: var e := env(i);
                              !e.once.probeOk && !e.cancelBefore && !e.cancelAfter && !e.cancelWaiting
    ensures if n < max then Reached(s, cfg, env, max, n).Some?
                            && Reached(s, cfg, env, max, n).value.failures == n
                            && !Reached(s, cfg, env, max, n).value.granted
            else Reached(s, cfg, env, max, n).None?
  {
    if n > 0 {
      TriesAll(s, cfg, env, max, n - 1);
      var p := Reached(s, cfg, env, max, n - 1).value;
      var e := env(n - 1);
      TurnExactly(p.s, cfg, e, p.failures, max, p.granted);
    }
  }

  // ---- an action -------------------------------------------------------------------------------

  /** One restart of an action: the old session ends, another one is brought up. */
  ghost function Restarted(s: State, cfg: Settings, e: ActivationEnv): (State, bool) {
    Activate(Deactivate(s), cfg, e.turns, ATTEMPTS, e.reuseOk)
  }

  lemma RestartsFirst(s: State, cfg: Settings, restarts: seq<ActivationEnv>)
    requires restarts != []
    ensures var (s1, ok) := Restarted(s, cfg, restarts[0]);
            Restarts(s, cfg, restarts) == if ok then Restarts(s1, cfg, restarts[1..]) else (s1, false)
  {
  }

  /** The restarts of an action go on exactly as long as each of them activates. */
  lemma {:induction false} RestartsLast(s: State, cfg: Settings, front: seq<ActivationEnv>, last: ActivationEnv)
    ensures var (before, ok) := Restarts(s, cfg, front);
            Restarts(s, cfg, front + [last]) == if ok then Restarted(before, cfg, last) else (before, false)
    decreases |front|
  {
    var all := front + [last];
    RestartsFirst(s, cfg, all);
    if front != [] {
      RestartsFirst(s, cfg, front);
      assert all[1..] == front[1..] + [last];
      var (s1, ok) := Restarted(s, cfg, front[0]);
      if ok {
        RestartsLast(s1, cfg, front[1..], last);
      }
    } else {
      assert all[1..] == [];
    }
  }

  /** The session an action ends with, before it is kept or ended, and whether all of its captures had one. */
  ghost function Captured(s: State, cfg: Settings, op: Op): (State, bool)
    requires op.Action?
  {
    var (s1, ok) := Activate(s, cfg, op.start.turns, ATTEMPTS, op.start.reuseOk);
    if ok then Restarts(s1, cfg, op.restarts) else (s1, false)
  }

  /**
    A session outlives its action exactly when the action got through on it, is of a kind that keeps it, ended cleanly,
    and no desync was marked; every other action ends without listener, session and mark.
   */
  lemma ActionExactly(s: State, cfg: Settings, op: Op)
    requires op.Action?
    ensures var (last, ok) := Captured(s, cfg, op);
            if ok && op.keepIfClean && op.clean && !last.desynced then Apply(s, cfg, op) == last
            else Apply(s, cfg, op) == last.(listener := false, tlsReady := false, desynced := false)
  {
  }

  /** Opening forgets the repair of the last open and logs the open; suspend marks, and close ends the session. */
  lemma OthersExactly(s: State, cfg: Settings)
    ensures var o := Apply(s, cfg, Open);
            && !o.pending && !o.attempted && !o.completed && o.trace == s.trace + [Opened]
            && o.(pending := s.pending, attempted := s.attempted, completed := s.completed, trace := s.trace) == s
    ensures Apply(s, cfg, Suspend) == s.(desynced := true)
    ensures Apply(s, cfg, Close) == s.(listener := false, tlsReady := false)
  {
  }

  /** A warm open brings up a session that a later action finds, or leaves none. */
  lemma WarmOpenExactly(s: State, cfg: Settings, warm: ActivationEnv)
    ensures var (t, ok) := Activate(Opening(s), cfg, warm.turns, ATTEMPTS, warm.reuseOk);
            Apply(s, cfg, WarmOpen(warm)) == if ok then t else t.(listener := false, tlsReady := false)
  {
  }

  // ---- every ready session was accepted ------------------------------------------------------------

  function LastHandshake(trace: seq<Event>): Option<T.Exchange> {
    if trace == [] then None
    else
      var e := trace[|trace| - 1];
      if e.Handshake? then Some(e.exchange) else LastHandshake(trace[..|trace| - 1])
  }

  /** The client was accepted in one of the two attempts of the last handshake. */
  ghost predicate LastAccepted(trace: seq<Event>) {
    && LastHandshake(trace).Some?
    && var x := LastHandshake(trace).value;
    T.Passed(x.first) || T.Passed(x.second)
  }

  ghost predicate ReadyAccepted(s: State) {
    s.tlsReady ==> LastAccepted(s.trace)
  }

  lemma LastOfAppend(trace: seq<Event>, e: Event)
    ensures LastHandshake(trace + [e]) == if e.Handshake? then Some(e.exchange) else LastHandshake(trace)
  {
    assert (trace + [e])[..|trace|] == trace;
  }

  lemma TurnAccepted(s: State, cfg: Settings, e: TurnEnv, failures: nat, max: nat, granted: bool)
    requires failures < max && !s.tlsReady
    ensures var r := Turn(s, cfg, e, failures, max, granted);
            ReadyAccepted(r.s) && (r.Again? ==> !r.s.tlsReady)
  {
    TurnExactly(s, cfg, e, failures, max, granted);
    if TurnUp(s, cfg, e) {
      OnceExactly(s, cfg, e.once);
      var t := ActivateOnce(s, cfg, e.once).0;
      var x := e.once.start.exchange;
      var events := StartEvents(s, cfg, e.once.start);
      var last := Handshake(UsedKey(s, cfg, e.once.start).value, x);
      var before := events[..|events| - 1];
      assert events == before + [last];
      Associative(s.trace + [ActivationCall], before, [last]);
      LastOfAppend(s.trace + [ActivationCall] + before, last);
      assert T.Passed(x.first) || T.Passed(x.second);
    }
  }

  lemma {:induction false} LoopAccepted(s: State, cfg: Settings, env: nat -> TurnEnv, n: nat,
                                        failures: nat, max: nat, granted: bool)
    requires failures < max && !s.tlsReady
    ensures ReadyAccepted(ActivateLoop(s, cfg, env, n, failures, max, granted).0)
    decreases if granted then 0 else 1, max - failures
  {
    TurnAccepted(s, cfg, env(n), failures, max, granted);
    match Turn(s, cfg, env(n), failures, max, granted)
    case Done(_, _) =>
    case Again(t, f, g) => LoopAccepted(t, cfg, env, n + 1, f, max, g);
  }

  lemma ActivateAccepted(s: State, cfg: Settings, env: nat -> TurnEnv, maxAttempts: nat, reuseOk: bool)
    requires ReadyAccepted(s)
    ensures ReadyAccepted(Activate(s, cfg, env, maxAttempts, reuseOk).0)
  {
    if !s.tlsReady {
      LoopAccepted(s, cfg, env, 0, 0, if maxAttempts < 1 then 1 else maxAttempts, false);
    }
  }

  lemma {:induction false} RestartsAccepted(s: State, cfg: Settings, restarts: seq<ActivationEnv>)
    requires ReadyAccepted(s)
    ensures ReadyAccepted(Restarts(s, cfg, restarts).0)
    decreases |restarts|
  {
    if restarts != [] {
      var e := restarts[0];
      ActivateAccepted(Deactivate(s), cfg, e.turns, ATTEMPTS, e.reuseOk);
      var (s1, ok) := Activate(Deactivate(s), cfg, e.turns, ATTEMPTS, e.reuseOk);
      if ok {
        RestartsAccepted(s1, cfg, restarts[1..]);
      }
    }
  }

  lemma ApplyAccepted(s: State, cfg: Settings, op: Op)
    requires ReadyAccepted(s)
    ensures ReadyAccepted(Apply(s, cfg, op))
  {
    LastOfAppend(s.trace, Opened);
    match op
    case WarmOpen(warm) => ActivateAccepted(Opening(s), cfg, warm.turns, ATTEMPTS, warm.reuseOk);
    case Action(start, restarts, _, _) =>
      ActivateAccepted(s, cfg, start.turns, ATTEMPTS, start.reuseOk);
      RestartsAccepted(Activate(s, cfg, start.turns, ATTEMPTS, start.reuseOk).0, cfg, restarts);
      ActionExactly(s, cfg, op);
    case _ =>
  }

  lemma {:induction false} RunAccepted(s: State, cfg: Settings, ops: seq<Op>)
    requires ReadyAccepted(s)
    ensures ReadyAccepted(RunOps(s, cfg, ops))
    decreases |ops|
  {
    if ops != [] {
      ApplyAccepted(s, cfg, ops[0]);
      RunAccepted(Apply(s, cfg, ops[0]), cfg, ops[1..]);
    }
  }

  /** For every run: while a session is ready, OpenSSL accepted the client in an attempt of the last handshake. */
  lemma ReadyWasAccepted(stateFile: Option<string>, cfg: Settings, ops: seq<Op>)
    ensures ReadyAccepted(RunOps(Initial(stateFile), cfg, ops))
  {
    RunAccepted(Initial(stateFile), cfg, ops);
  }

  // ---- a run that ends ready -----------------------------------------------------------------------

  /** A start in which everything works. */
  function GoodStart(x: T.Handshaken): StartEnv {
    StartEnv(None, true, true, None, true, x, true)
  }

  function GoodTurn(x: T.Handshaken): TurnEnv {
    TurnEnv(false, OnceEnv(true, true, GoodStart(x), true, true), false, false)
  }

  lemma GoodOnce(s: State, cfg: Settings, k: Key, x: T.Handshaken)
    requires cfg == Settings(NotRequested, "") && s.stateFile == Some(SaveText(k)) && x.outcome == T.Established
    ensures TurnUp(s, cfg, GoodTurn(x))
    ensures var t := ActivateOnce(s, cfg, GoodTurn(x).once).0;
            && t.listener && t.tlsReady && !t.desynced
            && t.trace == s.trace + [ActivationCall] + [Handshake(k, x)]
  {
    LoadOfSave(k);
    OnceExactly(s, cfg, GoodTurn(x).once);
    assert UsedKey(s, cfg, GoodStart(x)) == Some(k);
    assert StartEvents(s, cfg, GoodStart(x)) == [Handshake(k, x)];
  }

  /** An open and one action on a fresh device. */
  lemma OpenThenAction(s: State, cfg: Settings, ops: seq<Op>)
    requires |ops| == 2 && ops[0] == Open
    ensures RunOps(s, cfg, ops) == Apply(Opening(s), cfg, ops[1])
  {
    var rest := ops[1..];
    assert rest[0] == ops[1] && rest[1..] == [];
    assert RunOps(s, cfg, ops) == RunOps(Opening(s), cfg, rest);
    assert RunOps(Opening(s), cfg, rest) == RunOps(Apply(Opening(s), cfg, rest[0]), cfg, rest[1..]);
  }

  /** With a saved key and a client that accepts it, an open and a verification end with listener and session up. */
  lemma SessionComesUp(cfg: Settings, k: Key, x: T.Handshaken, env: nat -> TurnEnv, ops: seq<Op>)
    requires cfg == Settings(NotRequested, "") && x.outcome == T.Established && env(0) == GoodTurn(x)
    requires ops == [Open, Action(ActivationEnv(env, false), [], true, true)]
    ensures var s := RunOps(Initial(Some(SaveText(k))), cfg, ops);
            s.listener && s.tlsReady && s.trace == [Opened] + [ActivationCall] + [Handshake(k, x)]
  {
    var s1 := Opening(Initial(Some(SaveText(k))));
    OpenThenAction(Initial(Some(SaveText(k))), cfg, ops);
    GoodOnce(s1, cfg, k, x);
    FirstTurnUp(s1, cfg, env);
    ActionExactly(s1, cfg, ops[1]);
    var t := ActivateOnce(s1, cfg, env(0).once).0;
    assert Captured(s1, cfg, ops[1]) == (t, true);
    assert s1.trace == [] + [Opened] == [Opened];
  }

  lemma FirstTurnUp(s: State, cfg: Settings, env: nat -> TurnEnv)
    requires !s.tlsReady && TurnUp(s, cfg, env(0))
    ensures Activate(s, cfg, env, ATTEMPTS, false) == (ActivateOnce(s, cfg, env(0).once).0, true)
  {
    TurnExactly(s, cfg, env(0), 0, ATTEMPTS, false);
    OnceExactly(s, cfg, env(0).once);
  }

  /** Such a client exists: one accepted attempt establishes a session. */
  lemma EstablishedExists() returns (x: T.Handshaken)
    ensures x.outcome == T.Established
  {
    var a := T.Attempt(true, true, [], T.Accepted);
    x := T.Exchange(a, a, T.HandshakeOutcome(a, a));
  }
}

/** The session as transitions over its state: key selection and repair, activation, and whole runs. */
module SessionSpec {
  import opened Common
  import opened PskState
  import TlsAdapter

  // ---- state and environment -----------------------------------------------------

  datatype Provision = NotRequested | RandomKey | KeyText(text: string)

  /** What the administrator set; constant over a run. An empty key override is no override. */
  datatype Settings = Settings(provision: Provision, keyOverride: string)

  datatype Event =
    | Opened
    | ActivationCall
    | RepairBegun(key: Key)
    | Provisioned(key: Key)
    | ProvisionFailed
    | Handshake(key: Key, exchange: TlsAdapter.Handshaken)
    | BudgetGranted

  datatype State = State(
    listener: bool,
    tlsReady: bool,
    desynced: bool,
    pending: bool,
    attempted: bool,
    completed: bool,
    stateFile: Option<string>,
    trace: seq<Event>)
  {
    function Log(e: Event): State {
      this.(trace := trace + [e])
    }
  }

  /** What one TLS start meets. */
  datatype StartEnv = StartEnv(
    randomKey: Option<Key>,
    writeVerified: bool,
    keySaved: bool,
    sensorKey: Option<Key>,
    contextOk: bool,
    exchange: TlsAdapter.Handshaken,
    establishedAcked: bool)

  /** What one activation meets. */
  datatype OnceEnv = OnceEnv(probeOk: bool, initOk: bool, start: StartEnv, listenerOk: bool, primeOk: bool)

  /** What one turn of the activation loop meets. */
  datatype TurnEnv = TurnEnv(cancelBefore: bool, once: OnceEnv, cancelAfter: bool, cancelWaiting: bool)

  datatype StartResult = Ready | ResetRequired | StartFailed

  // ---- key selection ---------------------------------------------------------------

  /** The key known before any provisioning: a well-formed override wins, else the state file. */
  function KnownKey(cfg: Settings, stateFile: Option<string>): Option<Key> {
    if cfg.keyOverride != "" && ParseHex(cfg.keyOverride).Some? then ParseHex(cfg.keyOverride)
    else LoadText(stateFile)
  }

  datatype Plan = Abort | Keep | Write(key: Key)

  /** Whether this start rewrites the sensor key, and with what. */
  function PlanKey(cfg: Settings, repair: bool, known: Option<Key>, randomKey: Option<Key>): Plan {
    match cfg.provision
    case NotRequested => Keep
    case RandomKey =>
      if known.Some? then (if repair then Write(known.value) else Keep)
      else if randomKey.None? then Abort
      else Write(randomKey.value)
    case KeyText(text) =>
      match ParseHex(text)
      case None => Abort
      case Some(want) => if !repair && known == Some(want) then Keep else Write(want)
  }

  // ---- TLS start --------------------------------------------------------------------

  /** The bounded repair is consumed before the destructive write. */
  function BeginWrite(s: State, want: Key): State {
    if s.pending then s.(pending := false, attempted := true).Log(RepairBegun(want)) else s
  }

  function FinishWrite(s: State, repair: bool, want: Key, e: StartEnv): State {
    if !e.writeVerified then s.Log(ProvisionFailed)
    else
      s.Log(Provisioned(want)).(
        completed := s.completed || repair,
        stateFile := if e.keySaved then Some(SaveText(want)) else s.stateFile)
  }

  /** Context, handshake with this key, and the mandatory acknowledgement. */
  ghost function Connect(s: State, cfg: Settings, key: Key, haveKnown: bool, e: StartEnv): (State, StartResult) {
    if !e.contextOk then (s, StartFailed)
    else
      var s1 := s.Log(Handshake(key, e.exchange));
      match e.exchange.outcome
      case Established =>
        if e.establishedAcked then (s1.(tlsReady := true), Ready) else (s1, StartFailed)
      case Mismatch =>
        if !cfg.provision.NotRequested? && haveKnown && !s.attempted then (s1.(pending := true), StartFailed)
        else (s1, StartFailed)
      case _ => (s1, StartFailed)
  }

  ghost function TlsStart(s: State, cfg: Settings, e: StartEnv): (State, StartResult) {
    var known := KnownKey(cfg, s.stateFile);
    match PlanKey(cfg, s.pending, known, e.randomKey)
    case Abort => (s, StartFailed)
    case Write(want) =>
      var t := FinishWrite(BeginWrite(s, want), s.pending, want, e);
      if !e.writeVerified then (t, StartFailed)
      else if s.pending then (t, ResetRequired)
      else Connect(t, cfg, want, true, e)
    case Keep =>
      if known.Some? then Connect(s, cfg, known.value, true, e)
      else if e.sensorKey.Some? then Connect(s, cfg, e.sensorKey.value, false, e)
      else (s, StartFailed)
  }

  // ---- activation --------------------------------------------------------------------

  ghost function ActivateOnce(s: State, cfg: Settings, e: OnceEnv): (State, bool) {
    var s0 := s.(desynced := false).Log(ActivationCall);
    if !e.probeOk || !e.initOk then (s0, false)
    else
      var (s1, r) := TlsStart(s0, cfg, e.start);
      if r != Ready || !e.listenerOk then (s1, false)
      else (s1.(listener := true), e.primeOk)
  }

  function Deactivate(s: State): State {
    s.(listener := false, tlsReady := false, desynced := false)
  }

  datatype TurnResult = Done(s: State, ok: bool) | Again(s: State, failures: nat, granted: bool)

  /** The rest of a turn after its activation: on failure the reset and the budget decision. */
  function Decide(wasCompleted: bool, s1: State, ok: bool, e: TurnEnv,
                  failures: nat, max: nat, granted: bool): (r: TurnResult)
    requires failures < max
    ensures r.Again? ==> r.failures < max && (if r.granted == granted then r.failures == failures + 1 else r.granted)
  {
    var s2 := Deactivate(s1);
    if ok then Done(s1, true)
    else if e.cancelAfter then Done(s2.(desynced := true), false)
    else if !wasCompleted && s1.completed && !granted then Again(s2.Log(BudgetGranted), 0, true)
    else if failures + 1 == max then Done(s2, false)
    else if e.cancelWaiting then Done(s2.(desynced := true), false)
    else Again(s2, failures + 1, granted)
  }

  /** One turn of the loop. */
  ghost function Turn(s: State, cfg: Settings, e: TurnEnv, failures: nat, max: nat, granted: bool): (r: TurnResult)
    requires failures < max
    ensures r.Again? ==> r.failures < max && (if r.granted == granted then r.failures == failures + 1 else r.granted)
  {
    if e.cancelBefore then Done(s.(desynced := true), false)
    else
      var (s1, ok) := ActivateOnce(s, cfg, e.once);
      Decide(s.completed, s1, ok, e, failures, max, granted)
  }

  /** The loop from its n-th turn on: failures so far, and whether the extra budget was granted. */
  ghost function ActivateLoop(s: State, cfg: Settings, env: nat -> TurnEnv, n: nat,
                              failures: nat, max: nat, granted: bool): (State, bool)
    requires failures < max
    decreases if granted then 0 else 1, max - failures
  {
    match Turn(s, cfg, env(n), failures, max, granted)
    case Done(t, ok) => (t, ok)
    case Again(t, f, g) => ActivateLoop(t, cfg, env, n + 1, f, max, g)
  }

  /** Reuses a ready session, or runs the loop. */
  ghost function Activate(s: State, cfg: Settings, env: nat -> TurnEnv, maxAttempts: nat, reuseOk: bool)
    : (State, bool)
  {
    if s.tlsReady then (s.(desynced := false), reuseOk)
    else ActivateLoop(s, cfg, env, 0, 0, if maxAttempts < 1 then 1 else maxAttempts, false)
  }

  // ---- actions and runs ---------------------------------------------------------------

  const ATTEMPTS: nat := 4

  /** One activation inside an action: at its start, or after a capture lost sync. */
  datatype ActivationEnv = ActivationEnv(turns: nat -> TurnEnv, reuseOk: bool)

  datatype Op =
    | Open
    | WarmOpen(warm: ActivationEnv)
      // verify and identify keep a session that ended cleanly; enroll always ends it
    | Action(start: ActivationEnv, restarts: seq<ActivationEnv>, keepIfClean: bool, clean: bool)
    | Suspend
    | Close

  function Opening(s: State): State {
    s.(pending := false, attempted := false, completed := false).Log(Opened)
  }

  function Release(s: State): State {
    s.(listener := false, tlsReady := false)
  }

  /** Session restarts during captures; the first failing one ends the action. */
  ghost function Restarts(s: State, cfg: Settings, restarts: seq<ActivationEnv>): (State, bool)
    decreases |restarts|
  {
    if restarts == [] then (s, true)
    else
      var (s1, ok) := Activate(Deactivate(s), cfg, restarts[0].turns, ATTEMPTS, restarts[0].reuseOk);
      if ok then Restarts(s1, cfg, restarts[1..]) else (s1, false)
  }

  ghost function Apply(s: State, cfg: Settings, op: Op): State {
    match op
    case Open => Opening(s)
    case WarmOpen(warm) =>
      var (s1, ok) := Activate(Opening(s), cfg, warm.turns, ATTEMPTS, warm.reuseOk);
      if ok then s1 else Release(s1)
    case Action(start, restarts, keepIfClean, clean) =>
      var (s1, ok) := Activate(s, cfg, start.turns, ATTEMPTS, start.reuseOk);
      if !ok then Deactivate(s1)
      else
        var (s2, captured) := Restarts(s1, cfg, restarts);
        if keepIfClean && captured && clean && !s2.desynced then s2 else Deactivate(s2)
    case Suspend => s.(desynced := true)
    case Close => Release(s)
  }

  ghost function RunOps(s: State, cfg: Settings, ops: seq<Op>): State
    decreases |ops|
  {
    if ops == [] then s else RunOps(Apply(s, cfg, ops[0]), cfg, ops[1..])
  }

  function Initial(stateFile: Option<string>): State {
    State(false, false, false, false, false, false, stateFile, [])
  }

  // ---- what every run keeps -------------------------------------------------------------

  ghost predicate IsMismatch(e: Event) {
    e.Handshake? && e.exchange.outcome == TlsAdapter.Mismatch
  }

  datatype LastWrite = Never | Verified(key: Key) | Unknown

  /**
    A monitor over the trace: evidence and repairs since the last open, the last key written, whether a repair still
    awaits its reset, and how many activations and extra budgets there were.
   */
  datatype Monitor = Monitor(mismatch: bool, repairs: nat, repairsSafe: bool, last: LastWrite, keysAgree: bool,
                             resetDue: bool, resetsKept: bool, calls: nat, grants: nat)

  ghost predicate MismatchAfter(seen: bool, e: Event) {
    !e.Opened? && (seen || IsMismatch(e))
  }

  function RepairsAfter(repairs: nat, e: Event): nat {
    if e.Opened? then 0 else if e.RepairBegun? then repairs + 1 else repairs
  }

  /** What is known of the sensor key after one more event. */
  function LastAfter(last: LastWrite, e: Event): LastWrite {
    if e.Provisioned? then Verified(e.key) else if e.ProvisionFailed? then Unknown else last
  }

  predicate KeyAgrees(last: LastWrite, e: Event) {
    e.Handshake? && last.Verified? ==> e.key == last.key
  }

  predicate ResetDueAfter(due: bool, e: Event) {
    e.RepairBegun? || (due && !e.ActivationCall?)
  }

  ghost function Observe(m: Monitor, e: Event): Monitor {
    Monitor(MismatchAfter(m.mismatch, e), RepairsAfter(m.repairs, e),
            m.repairsSafe && (e.RepairBegun? ==> m.mismatch && m.repairs == 0),
            LastAfter(m.last, e), m.keysAgree && KeyAgrees(m.last, e),
            ResetDueAfter(m.resetDue, e), m.resetsKept && (e.Handshake? ==> !m.resetDue),
            m.calls + (if e.ActivationCall? then 1 else 0), m.grants + if e.BudgetGranted? then 1 else 0)
  }

  ghost function Monitored(trace: seq<Event>): Monitor {
    if trace == [] then Monitor(false, 0, true, Never, true, false, true, 0, 0)
    else Observe(Monitored(trace[..|trace| - 1]), trace[|trace| - 1])
  }

  lemma MonitoredLog(s: State, e: Event)
    ensures Monitored(s.Log(e).trace) == Observe(Monitored(s.trace), e)
  {
    assert (s.trace + [e])[..|s.trace|] == s.trace;
  }

  /** The next start either reuses this key or rewrites the sensor. */
  ghost predicate Settled(cfg: Settings, stateFile: Option<string>, key: Key) {
    match cfg.provision
    case NotRequested => false
    case RandomKey => KnownKey(cfg, stateFile).None? || KnownKey(cfg, stateFile) == Some(key)
    case KeyText(text) => ParseHex(text) == Some(key)
  }

  ghost predicate Sound(s: State, cfg: Settings) {
    var m := Monitored(s.trace);
    && m.repairsSafe && m.keysAgree && m.resetsKept
    && (m.repairs > 0 ==> s.attempted)
    && (s.pending ==> !s.attempted && m.mismatch)
    && (m.last.Verified? ==> Settled(cfg, s.stateFile, m.last.key))
  }

  ghost predicate SameCounts(s: State, t: State) {
    Monitored(t.trace).calls == Monitored(s.trace).calls && Monitored(t.trace).grants == Monitored(s.trace).grants
  }

  /** The TLS session is ready exactly when a listener exists. */
  predicate AtRest(s: State) {
    s.tlsReady <==> s.listener
  }

  // ---- one start -----------------------------------------------------------------------

  lemma ConnectSound(s: State, cfg: Settings, key: Key, haveKnown: bool, e: StartEnv)
    requires Sound(s, cfg) && !Monitored(s.trace).resetDue
    requires Monitored(s.trace).last.Verified? ==> key == Monitored(s.trace).last.key
    ensures Sound(Connect(s, cfg, key, haveKnown, e).0, cfg) && SameCounts(s, Connect(s, cfg, key, haveKnown, e).0)
  {
    HandshakeSound(s, cfg, key, e.exchange);
  }

  lemma HandshakeSound(s: State, cfg: Settings, key: Key, x: TlsAdapter.Handshaken)
    requires Sound(s, cfg) && !Monitored(s.trace).resetDue
    requires Monitored(s.trace).last.Verified? ==> key == Monitored(s.trace).last.key
    ensures var t := s.Log(Handshake(key, x));
            && Sound(t, cfg) && SameCounts(s, t)
            && (x.outcome == TlsAdapter.Mismatch ==> Monitored(t.trace).mismatch)
  {
    MonitoredLog(s, Handshake(key, x));
  }

  /** After a write the state file still yields a key that agrees with the write, saved or not. */
  lemma WriteSettles(cfg: Settings, repair: bool, stateFile: Option<string>, randomKey: Option<Key>, saved: bool)
    requires PlanKey(cfg, repair, KnownKey(cfg, stateFile), randomKey).Write?
    ensures var want := PlanKey(cfg, repair, KnownKey(cfg, stateFile), randomKey).key;
            Settled(cfg, if saved then Some(SaveText(want)) else stateFile, want)
  {
    LoadOfSave(PlanKey(cfg, repair, KnownKey(cfg, stateFile), randomKey).key);
  }

  lemma BeginWriteSound(s: State, cfg: Settings, want: Key)
    requires Sound(s, cfg)
    ensures Sound(BeginWrite(s, want), cfg) && SameCounts(s, BeginWrite(s, want))
  {
    MonitoredLog(s.(pending := false, attempted := true), RepairBegun(want));
  }

  lemma FinishWriteSound(s: State, cfg: Settings, repair: bool, want: Key, e: StartEnv)
    requires Sound(s, cfg) && !s.pending
    requires e.writeVerified ==> Settled(cfg, FinishWrite(s, repair, want, e).stateFile, want)
    ensures var t := FinishWrite(s, repair, want, e);
            && Sound(t, cfg) && SameCounts(s, t) && Monitored(t.trace).resetDue == Monitored(s.trace).resetDue
            && (e.writeVerified ==> Monitored(t.trace).last == Verified(want))
  {
    if e.writeVerified {
      MonitoredLog(s, Provisioned(want));
    } else {
      MonitoredLog(s, ProvisionFailed);
    }
  }

  lemma TlsStartSound(s: State, cfg: Settings, e: StartEnv)
    requires Sound(s, cfg) && !Monitored(s.trace).resetDue
    ensures Sound(TlsStart(s, cfg, e).0, cfg) && SameCounts(s, TlsStart(s, cfg, e).0)
  {
    var known := KnownKey(cfg, s.stateFile);
    match PlanKey(cfg, s.pending, known, e.randomKey)
    case Abort =>
    case Write(want) =>
      var s1 := BeginWrite(s, want);
      BeginWriteSound(s, cfg, want);
      WriteSettles(cfg, s.pending, s.stateFile, e.randomKey, e.keySaved);
      FinishWriteSound(s1, cfg, s.pending, want, e);
      if e.writeVerified && !s.pending {
        ConnectSound(FinishWrite(s1, s.pending, want, e), cfg, want, true, e);
      }
    case Keep =>
      if known.Some? {
        ConnectSound(s, cfg, known.value, true, e);
      } else if e.sensorKey.Some? {
        ConnectSound(s, cfg, e.sensorKey.value, false, e);
      }
  }

  // ---- activation ---------------------------------------------------------------------------

  lemma ActivateOnceSound(s: State, cfg: Settings, e: OnceEnv)
    requires Sound(s, cfg)
    ensures var t := ActivateOnce(s, cfg, e).0;
            && Sound(t, cfg)
            && Monitored(t.trace).calls == Monitored(s.trace).calls + 1
            && Monitored(t.trace).grants == Monitored(s.trace).grants
  {
    var s0 := s.(desynced := false);
    MonitoredLog(s0, ActivationCall);
    assert Sound(s0.Log(ActivationCall), cfg);
    if e.probeOk && e.initOk {
      TlsStartSound(s0.Log(ActivationCall), cfg, e.start);
    }
  }

  /** A successful activation leaves both halves of a session. */
  lemma ActivateOnceReady(s: State, cfg: Settings, e: OnceEnv)
    requires !s.tlsReady && !s.listener
    ensures ActivateOnce(s, cfg, e).1 ==> ActivateOnce(s, cfg, e).0.tlsReady && ActivateOnce(s, cfg, e).0.listener
  {
  }

  lemma DecideSound(cfg: Settings, wasCompleted: bool, s1: State, ok: bool, e: TurnEnv,
                    failures: nat, max: nat, granted: bool)
    requires failures < max && Sound(s1, cfg)
    ensures var r := Decide(wasCompleted, s1, ok, e, failures, max, granted);
            && Sound(r.s, cfg)
            && Monitored(r.s.trace).calls == Monitored(s1.trace).calls
            && Monitored(r.s.trace).grants
               == Monitored(s1.trace).grants + if r.Again? && r.granted && !granted then 1 else 0
  {
    MonitoredLog(Deactivate(s1), BudgetGranted);
  }

  /** A turn leaves both halves of a session when it succeeds, and none otherwise. */
  lemma TurnRests(s: State, cfg: Settings, e: TurnEnv, failures: nat, max: nat, granted: bool)
    requires failures < max && !s.tlsReady && !s.listener
    ensures var r := Turn(s, cfg, e, failures, max, granted);
            AtRest(r.s) && (r.s.tlsReady <==> r.Done? && r.ok)
  {
    ActivateOnceReady(s, cfg, e.once);
  }

  lemma {:induction false} LoopRests(s: State, cfg: Settings, env: nat -> TurnEnv, n: nat,
                                     failures: nat, max: nat, granted: bool)
    requires failures < max && !s.tlsReady && !s.listener
    ensures AtRest(ActivateLoop(s, cfg, env, n, failures, max, granted).0)
    decreases if granted then 0 else 1, max - failures
  {
    TurnRests(s, cfg, env(n), failures, max, granted);
    var r := Turn(s, cfg, env(n), failures, max, granted);
    if r.Again? {
      LoopRests(r.s, cfg, env, n + 1, r.failures, max, r.granted);
    }
  }

  lemma ActivateRests(s: State, cfg: Settings, env: nat -> TurnEnv, maxAttempts: nat, reuseOk: bool)
    requires AtRest(s)
    ensures AtRest(Activate(s, cfg, env, maxAttempts, reuseOk).0)
  {
    if !s.tlsReady {
      LoopRests(s, cfg, env, 0, 0, if maxAttempts < 1 then 1 else maxAttempts, false);
    }
  }

  lemma TurnSound(s: State, cfg: Settings, e: TurnEnv, failures: nat, max: nat, granted: bool)
    requires failures < max && Sound(s, cfg)
    ensures var r := Turn(s, cfg, e, failures, max, granted);
            && Sound(r.s, cfg)
            && Monitored(r.s.trace).calls <= Monitored(s.trace).calls + 1
            && Monitored(r.s.trace).grants
               == Monitored(s.trace).grants + if r.Again? && r.granted && !granted then 1 else 0
  {
    if !e.cancelBefore {
      var (s1, ok) := ActivateOnce(s, cfg, e.once);
      ActivateOnceSound(s, cfg, e.once);
      DecideSound(cfg, s.completed, s1, ok, e, failures, max, granted);
    }
  }

  /** Activation calls left at most: what this budget has, and the extra budget if not granted yet. */
  function CallsLeft(failures: nat, max: nat, granted: bool): int {
    max - failures + if granted then 0 else max
  }

  /** The loop is sound, bounded, and grants the extra budget at most once. */
  lemma {:induction false} ActivateLoopSound(s: State, cfg: Settings, env: nat -> TurnEnv, n: nat,
                                             failures: nat, max: nat, granted: bool)
    requires failures < max && Sound(s, cfg)
    ensures var t := ActivateLoop(s, cfg, env, n, failures, max, granted).0;
            && Sound(t, cfg)
            && Monitored(t.trace).calls <= Monitored(s.trace).calls + CallsLeft(failures, max, granted)
            && Monitored(t.trace).grants <= Monitored(s.trace).grants + if granted then 0 else 1
    decreases if granted then 0 else 1, max - failures
  {
    TurnSound(s, cfg, env(n), failures, max, granted);
    match Turn(s, cfg, env(n), failures, max, granted)
    case Done(_, _) =>
    case Again(t, f, g) => ActivateLoopSound(t, cfg, env, n + 1, f, max, g);
  }

  lemma ActivateSound(s: State, cfg: Settings, env: nat -> TurnEnv, maxAttempts: nat, reuseOk: bool)
    requires Sound(s, cfg)
    ensures var t := Activate(s, cfg, env, maxAttempts, reuseOk).0;
            && Sound(t, cfg)
            && Monitored(t.trace).calls <= Monitored(s.trace).calls + 2 * (if maxAttempts < 1 then 1 else maxAttempts)
            && Monitored(t.trace).grants <= Monitored(s.trace).grants + 1
  {
    if !s.tlsReady {
      ActivateLoopSound(s, cfg, env, 0, 0, if maxAttempts < 1 then 1 else maxAttempts, false);
    }
  }

  // ---- whole runs ------------------------------------------------------------------------------

  lemma OpeningSound(s: State, cfg: Settings)
    requires Sound(s, cfg)
    ensures Sound(Opening(s), cfg)
  {
    MonitoredLog(s.(pending := false, attempted := false, completed := false), Opened);
  }

  lemma {:induction false} RestartsSound(s: State, cfg: Settings, restarts: seq<ActivationEnv>)
    requires Sound(s, cfg) && AtRest(s)
    ensures Sound(Restarts(s, cfg, restarts).0, cfg) && AtRest(Restarts(s, cfg, restarts).0)
    decreases |restarts|
  {
    if restarts != [] {
      ActivateSound(Deactivate(s), cfg, restarts[0].turns, ATTEMPTS, restarts[0].reuseOk);
      ActivateRests(Deactivate(s), cfg, restarts[0].turns, ATTEMPTS, restarts[0].reuseOk);
      var (s1, ok) := Activate(Deactivate(s), cfg, restarts[0].turns, ATTEMPTS, restarts[0].reuseOk);
      if ok {
        RestartsSound(s1, cfg, restarts[1..]);
      }
    }
  }

  lemma WarmOpenSound(s: State, cfg: Settings, warm: ActivationEnv)
    requires Sound(s, cfg) && AtRest(s)
    ensures Sound(Apply(s, cfg, WarmOpen(warm)), cfg) && AtRest(Apply(s, cfg, WarmOpen(warm)))
  {
    OpeningSound(s, cfg);
    ActivateSound(Opening(s), cfg, warm.turns, ATTEMPTS, warm.reuseOk);
    ActivateRests(Opening(s), cfg, warm.turns, ATTEMPTS, warm.reuseOk);
  }

  lemma DeactivateSound(s: State, cfg: Settings)
    requires Sound(s, cfg)
    ensures Sound(Deactivate(s), cfg) && AtRest(Deactivate(s))
  {
  }

  /** The captures of an action on its activated session, and what is kept of it. */
  lemma CapturesSound(s1: State, cfg: Settings, restarts: seq<ActivationEnv>)
    requires Sound(s1, cfg) && AtRest(s1)
    ensures var s2 := Restarts(s1, cfg, restarts).0;
            Sound(s2, cfg) && AtRest(s2) && Sound(Deactivate(s2), cfg) && AtRest(Deactivate(s2))
  {
    RestartsSound(s1, cfg, restarts);
    DeactivateSound(Restarts(s1, cfg, restarts).0, cfg);
  }

  lemma ActionSound(s: State, cfg: Settings, op: Op)
    requires op.Action? && Sound(s, cfg) && AtRest(s)
    ensures Sound(Apply(s, cfg, op), cfg) && AtRest(Apply(s, cfg, op))
  {
    var (s1, ok) := Activate(s, cfg, op.start.turns, ATTEMPTS, op.start.reuseOk);
    ActivateSound(s, cfg, op.start.turns, ATTEMPTS, op.start.reuseOk);
    ActivateRests(s, cfg, op.start.turns, ATTEMPTS, op.start.reuseOk);
    DeactivateSound(s1, cfg);
    if ok {
      CapturesSound(s1, cfg, op.restarts);
      var s2 := Restarts(s1, cfg, op.restarts).0;
      assert Apply(s, cfg, op) == s2 || Apply(s, cfg, op) == Deactivate(s2);
    } else {
      assert Apply(s, cfg, op) == Deactivate(s1);
    }
  }

  lemma ApplySound(s: State, cfg: Settings, op: Op)
    requires Sound(s, cfg) && AtRest(s)
    ensures Sound(Apply(s, cfg, op), cfg) && AtRest(Apply(s, cfg, op))
  {
    match op
    case Open => OpeningSound(s, cfg);
    case WarmOpen(warm) => WarmOpenSound(s, cfg, warm);
    case Action(_, _, _, _) => ActionSound(s, cfg, op);
    case Suspend =>
    case Close =>
  }

  lemma {:induction false} RunSound(s: State, cfg: Settings, ops: seq<Op>)
    requires Sound(s, cfg) && AtRest(s)
    ensures Sound(RunOps(s, cfg, ops), cfg) && AtRest(RunOps(s, cfg, ops))
    decreases |ops|
  {
    if ops != [] {
      ApplySound(s, cfg, ops[0]);
      RunSound(Apply(s, cfg, ops[0]), cfg, ops[1..]);
    }
  }

  // ---- what the monitor means --------------------------------------------------------------------

  /** No open after position j. */
  ghost predicate SinceOpen(trace: seq<Event>, j: int) {
    forall k | 0 <= j < k < |trace| :: !trace[k].Opened?
  }

  /** A handshake here failed twice, each time with full evidence of a stale key, and no open followed. */
  ghost predicate EvidenceAt(trace: seq<Event>, j: nat)
    requires j < |trace|
  {
    IsMismatch(trace[j]) && SinceOpen(trace, j)
  }

  ghost predicate MismatchSinceOpen(trace: seq<Event>) {
    exists j: nat | j < |trace| :: EvidenceAt(trace, j)
  }

  ghost predicate RepairSinceOpen(trace: seq<Event>) {
    exists j | 0 <= j < |trace| :: trace[j].RepairBegun? && SinceOpen(trace, j)
  }

  /** What must hold when a repair begins: evidence from the same open, and no earlier repair in it. */
  ghost predicate RepairAllowed(before: seq<Event>) {
    MismatchSinceOpen(before) && !RepairSinceOpen(before)
  }

  ghost predicate RepairSafe(trace: seq<Event>) {
    forall i | 0 <= i < |trace| && trace[i].RepairBegun? :: RepairAllowed(trace[..i])
  }

  /** What is known of the sensor key from the provisioning writes so far. */
  function LastProvision(trace: seq<Event>): LastWrite {
    if trace == [] then Never else LastAfter(LastProvision(trace[..|trace| - 1]), trace[|trace| - 1])
  }

  /** Every handshake that has a last verified key uses that key. */
  ghost predicate KeysAgree(trace: seq<Event>) {
    forall i | 0 <= i < |trace| :: KeyAgrees(LastProvision(trace[..i]), trace[i])
  }

  lemma {:induction false} MonitorLast(trace: seq<Event>)
    ensures Monitored(trace).last == LastProvision(trace)
  {
    if trace != [] {
      MonitorLast(trace[..|trace| - 1]);
    }
  }

  lemma SinceOpenLast(trace: seq<Event>, j: nat)
    requires j + 1 < |trace|
    ensures SinceOpen(trace, j) <==> SinceOpen(trace[..|trace| - 1], j) && !trace[|trace| - 1].Opened?
  {
    var before := trace[..|trace| - 1];
    assert forall k | 0 <= k < |before| :: before[k] == trace[k];
  }

  lemma EvidenceLasts(trace: seq<Event>, j: nat)
    requires j + 1 < |trace| && EvidenceAt(trace[..|trace| - 1], j) && !trace[|trace| - 1].Opened?
    ensures EvidenceAt(trace, j)
  {
    SinceOpenLast(trace, j);
    assert trace[..|trace| - 1][j] == trace[j];
  }

  lemma {:induction false} MonitorMismatch(trace: seq<Event>)
    ensures Monitored(trace).mismatch ==> MismatchSinceOpen(trace)
  {
    if trace != [] && Monitored(trace).mismatch {
      var n := |trace| - 1;
      if IsMismatch(trace[n]) {
        assert EvidenceAt(trace, n);
      } else {
        MonitorMismatch(trace[..n]);
        var j: nat :| j < n && EvidenceAt(trace[..n], j);
        EvidenceLasts(trace, j);
      }
    }
  }

  lemma {:induction false} MonitorRepairs(trace: seq<Event>)
    ensures RepairSinceOpen(trace) ==> Monitored(trace).repairs > 0
  {
    if RepairSinceOpen(trace) {
      var n := |trace| - 1;
      var j :| 0 <= j <= n && trace[j].RepairBegun? && SinceOpen(trace, j);
      if j < n {
        SinceOpenLast(trace, j);
        assert trace[..n][j].RepairBegun?;
        MonitorRepairs(trace[..n]);
      }
    }
  }

  lemma {:induction false} MonitorRepairsSafe(trace: seq<Event>)
    ensures Monitored(trace).repairsSafe ==> RepairSafe(trace)
  {
    if trace != [] && Monitored(trace).repairsSafe {
      var n := |trace| - 1;
      MonitorRepairsSafe(trace[..n]);
      if trace[n].RepairBegun? {
        MonitorMismatch(trace[..n]);
        MonitorRepairs(trace[..n]);
      }
      RepairSafeLast(trace);
    }
  }

  lemma RepairSafeLast(trace: seq<Event>)
    requires trace != [] && RepairSafe(trace[..|trace| - 1])
    requires trace[|trace| - 1].RepairBegun? ==> RepairAllowed(trace[..|trace| - 1])
    ensures RepairSafe(trace)
  {
    var before := trace[..|trace| - 1];
    forall i | 0 <= i < |trace| && trace[i].RepairBegun? ensures RepairAllowed(trace[..i]) {
      if i < |before| {
        assert before[..i] == trace[..i] && before[i] == trace[i];
        assert RepairAllowed(before[..i]);
      }
    }
  }

  lemma KeysAgreeLast(trace: seq<Event>)
    requires trace != [] && KeysAgree(trace[..|trace| - 1])
    requires KeyAgrees(LastProvision(trace[..|trace| - 1]), trace[|trace| - 1])
    ensures KeysAgree(trace)
  {
    var before := trace[..|trace| - 1];
    forall i | 0 <= i < |trace| ensures KeyAgrees(LastProvision(trace[..i]), trace[i]) {
      if i < |before| {
        assert before[..i] == trace[..i] && before[i] == trace[i];
      }
    }
  }

  lemma {:induction false} MonitorKeysAgree(trace: seq<Event>)
    ensures Monitored(trace).keysAgree ==> KeysAgree(trace)
  {
    if trace != [] && Monitored(trace).keysAgree {
      MonitorKeysAgree(trace[..|trace| - 1]);
      MonitorLast(trace[..|trace| - 1]);
      KeysAgreeLast(trace);
    }
  }

  ghost predicate ActivatedBetween(trace: seq<Event>, i: nat, j: nat) {
    exists k | i < k < j && k < |trace| :: trace[k].ActivationCall?
  }

  /** No handshake follows a repair before the next activation, which begins with a hard reset. */
  ghost predicate ResetsKept(trace: seq<Event>) {
    forall i, j | 0 <= i < j < |trace| && trace[i].RepairBegun? && trace[j].Handshake? :: ActivatedBetween(trace, i, j)
  }

  lemma {:induction false} MonitorResetDue(trace: seq<Event>, i: nat)
    requires i < |trace| && trace[i].RepairBegun? && !Monitored(trace).resetDue
    ensures ActivatedBetween(trace, i, |trace|)
  {
    var n := |trace| - 1;
    if !trace[n].ActivationCall? {
      MonitorResetDue(trace[..n], i);
      var k :| i < k < n && trace[..n][k].ActivationCall?;
      assert trace[k].ActivationCall?;
    }
  }

  lemma {:induction false} MonitorResets(trace: seq<Event>)
    ensures Monitored(trace).resetsKept ==> ResetsKept(trace)
  {
    if trace != [] && Monitored(trace).resetsKept {
      var before, n := trace[..|trace| - 1], |trace| - 1;
      MonitorResets(before);
      forall i, j | 0 <= i < j < |trace| && trace[i].RepairBegun? && trace[j].Handshake?
        ensures ActivatedBetween(trace, i, j)
      {
        assert before[i] == trace[i];
        if j < n {
          assert before[j] == trace[j];
        } else {
          MonitorResetDue(before, i);
        }
        assert ActivatedBetween(before, i, j);
        var k :| i < k < j && k < |before| && before[k].ActivationCall?;
        assert trace[k].ActivationCall?;
      }
    }
  }

  /**
    For every run of opens, actions, suspends and closes, under constant settings: repairs are bounded and
    justified and followed by a reset, every handshake after a verified write uses the key written, and at every
    rest point the TLS session is ready exactly when a listener exists.
   */
  lemma EveryRun(stateFile: Option<string>, cfg: Settings, ops: seq<Op>)
    ensures var s := RunOps(Initial(stateFile), cfg, ops);
            RepairSafe(s.trace) && ResetsKept(s.trace) && KeysAgree(s.trace) && AtRest(s)
  {
    RunSound(Initial(stateFile), cfg, ops);
    MonitorRepairsSafe(RunOps(Initial(stateFile), cfg, ops).trace);
    MonitorKeysAgree(RunOps(Initial(stateFile), cfg, ops).trace);
    MonitorResets(RunOps(Initial(stateFile), cfg, ops).trace);
  }

  /** Two refused attempts of one handshake call, each with its own complete client flight and evidence. */
  ghost predicate TwiceRefused(e: Event) {
    && e.Handshake?
    && TlsAdapter.Confirmed(e.exchange.first) && TlsAdapter.Confirmed(e.exchange.second)
  }

  /** Every repair write of every run follows such a handshake of the same open, and is its only repair. */
  lemma RepairNeedsTwoFlights(stateFile: Option<string>, cfg: Settings, ops: seq<Op>, i: nat)
    requires i < |RunOps(Initial(stateFile), cfg, ops).trace|
    requires RunOps(Initial(stateFile), cfg, ops).trace[i].RepairBegun?
    ensures var trace := RunOps(Initial(stateFile), cfg, ops).trace;
            && !RepairSinceOpen(trace[..i])
            && exists j | 0 <= j < i :: TwiceRefused(trace[j]) && SinceOpen(trace[..i], j)
  {
    var trace := RunOps(Initial(stateFile), cfg, ops).trace;
    EveryRun(stateFile, cfg, ops);
    RepairHasEvidence(trace, i);
  }

  lemma RepairHasEvidence(trace: seq<Event>, i: nat)
    requires i < |trace| && trace[i].RepairBegun? && RepairSafe(trace)
    ensures !RepairSinceOpen(trace[..i])
    ensures exists j | 0 <= j < i :: TwiceRefused(trace[j]) && SinceOpen(trace[..i], j)
  {
    assert RepairAllowed(trace[..i]);
    var j: nat :| j < i && EvidenceAt(trace[..i], j);
    assert trace[..i][j] == trace[j];
    assert TwiceRefused(trace[j]);
  }
}

/** Which key is written when: the exact condition of every write, and the key of whole runs. */
module SessionKeys {
  import opened Common
  import opened PskState
  import opened Records
  import opened SessionSpec
  import T = TlsAdapter

  // ---- one start -----------------------------------------------------------------

  /** A destructive write of the sensor key, verified or not. */
  predicate IsKeyWrite(e: Event) {
    e.Provisioned? || e.ProvisionFailed?
  }

  predicate IsRepair(e: Event) {
    e.RepairBegun?
  }

  function KeyWrites(trace: seq<Event>): nat {
    Count(trace, IsKeyWrite)
  }

  function Repairs(trace: seq<Event>): nat {
    Count(trace, IsRepair)
  }

  lemma CountLog(s: State, e: Event)
    ensures KeyWrites(s.Log(e).trace) == KeyWrites(s.trace) + if IsKeyWrite(e) then 1 else 0
    ensures Repairs(s.Log(e).trace) == Repairs(s.trace) + if IsRepair(e) then 1 else 0
  {
    assert (s.trace + [e])[..|s.trace|] == s.trace;
  }

  /** The plan for this start. */
  function PlanFor(s: State, cfg: Settings, e: StartEnv): Plan {
    PlanKey(cfg, s.pending, KnownKey(cfg, s.stateFile), e.randomKey)
  }

  lemma ConnectWritesNothing(s: State, cfg: Settings, key: Key, haveKnown: bool, e: StartEnv)
    ensures var t := Connect(s, cfg, key, haveKnown, e).0;
            KeyWrites(t.trace) == KeyWrites(s.trace) && Repairs(t.trace) == Repairs(s.trace)
  {
    ConnectTrace(s, cfg, key, haveKnown, e);
    CountLog(s, Handshake(key, e.exchange));
  }

  lemma ConnectTrace(s: State, cfg: Settings, key: Key, haveKnown: bool, e: StartEnv)
    ensures Connect(s, cfg, key, haveKnown, e).0.trace
            == if e.contextOk then s.Log(Handshake(key, e.exchange)).trace else s.trace
  {
  }

  lemma WriteCounted(s: State, want: Key, e: StartEnv)
    ensures var t := FinishWrite(BeginWrite(s, want), s.pending, want, e);
            && KeyWrites(t.trace) == KeyWrites(s.trace) + 1
            && Repairs(t.trace) == Repairs(s.trace) + if s.pending then 1 else 0
  {
    var begun := BeginWrite(s, want);
    CountLog(s.(pending := false, attempted := true), RepairBegun(want));
    CountLog(begun, if e.writeVerified then Provisioned(want) else ProvisionFailed);
  }

  /** A start writes the sensor key exactly when its plan is a write; it is a repair exactly when one is pending. */
  lemma StartWritesExactly(s: State, cfg: Settings, e: StartEnv)
    ensures var t := TlsStart(s, cfg, e).0;
            && KeyWrites(t.trace) == KeyWrites(s.trace) + (if PlanFor(s, cfg, e).Write? then 1 else 0)
            && Repairs(t.trace) == Repairs(s.trace) + if PlanFor(s, cfg, e).Write? && s.pending then 1 else 0
  {
    var known := KnownKey(cfg, s.stateFile);
    match PlanFor(s, cfg, e)
    case Abort =>
    case Write(want) =>
      WriteCounted(s, want, e);
      ConnectWritesNothing(FinishWrite(BeginWrite(s, want), s.pending, want, e), cfg, want, true, e);
    case Keep =>
      if known.Some? {
        ConnectWritesNothing(s, cfg, known.value, true, e);
      } else if e.sensorKey.Some? {
        ConnectWritesNothing(s, cfg, e.sensorKey.value, false, e);
      }
  }

  /** A well-formed override hides the state file. */
  predicate Overridden(cfg: Settings) {
    cfg.keyOverride != "" && ParseHex(cfg.keyOverride).Some?
  }

  lemma ConnectKeepsFile(s: State, cfg: Settings, key: Key, haveKnown: bool, e: StartEnv)
    ensures Connect(s, cfg, key, haveKnown, e).0.stateFile == s.stateFile
  {
  }

  /** The state file changes only to a key that was just verified and could be saved. */
  lemma StateFileAfter(s: State, cfg: Settings, e: StartEnv)
    ensures TlsStart(s, cfg, e).0.stateFile == FileAfter(PlanFor(s, cfg, e), s.stateFile, e)
  {
    var known := KnownKey(cfg, s.stateFile);
    match PlanFor(s, cfg, e)
    case Abort =>
    case Write(want) => WriteSaves(s, cfg, e, want);
    case Keep =>
      if known.Some? {
        ConnectKeepsFile(s, cfg, known.value, true, e);
      } else if e.sensorKey.Some? {
        ConnectKeepsFile(s, cfg, e.sensorKey.value, false, e);
      }
  }

  function FileAfter(plan: Plan, stateFile: Option<string>, e: StartEnv): Option<string> {
    if plan.Write? && e.writeVerified && e.keySaved then Some(SaveText(plan.key)) else stateFile
  }

  lemma WriteSaves(s: State, cfg: Settings, e: StartEnv, want: Key)
    requires PlanFor(s, cfg, e) == Write(want)
    ensures TlsStart(s, cfg, e).0.stateFile == FileAfter(Write(want), s.stateFile, e)
  {
    var t := FinishWrite(BeginWrite(s, want), s.pending, want, e);
    assert t.stateFile == FileAfter(Write(want), s.stateFile, e);
    ConnectKeepsFile(t, cfg, want, true, e);
  }

  lemma KnownAfterSave(cfg: Settings, key: Key)
    ensures Overridden(cfg) ==> forall file :: KnownKey(cfg, file) == ParseHex(cfg.keyOverride)
    ensures !Overridden(cfg) ==> KnownKey(cfg, Some(SaveText(key))) == Some(key)
  {
    LoadOfSave(key);
  }

  /** This handshake call found the sensor key stale, and the one repair of this open is still to be had. */
  ghost predicate Refused(s: State, e: StartEnv) {
    e.contextOk && e.exchange.outcome == T.Mismatch && !s.attempted
  }

  /** A repair is pending after this start. */
  ghost predicate PendingAfter(s: State, cfg: Settings, e: StartEnv) {
    match PlanFor(s, cfg, e)
    case Abort => s.pending
    case Write(_) => !s.pending && e.writeVerified && Refused(s, e)
    case Keep => s.pending || (!cfg.provision.NotRequested? && KnownKey(cfg, s.stateFile).Some? && Refused(s, e))
  }

  /** A start schedules a repair exactly when a key it knows is refused; a scheduled one lasts until its write. */
  lemma PendingExactly(s: State, cfg: Settings, e: StartEnv)
    ensures TlsStart(s, cfg, e).0.pending <==> PendingAfter(s, cfg, e)
  {
    var known := KnownKey(cfg, s.stateFile);
    match PlanFor(s, cfg, e)
    case Abort =>
    case Write(want) => WritePending(s, cfg, e, want);
    case Keep =>
      if known.Some? {
        ConnectPending(s, cfg, known.value, true, e);
      } else if e.sensorKey.Some? {
        ConnectPending(s, cfg, e.sensorKey.value, false, e);
      }
  }

  lemma WritePending(s: State, cfg: Settings, e: StartEnv, want: Key)
    requires PlanFor(s, cfg, e) == Write(want)
    ensures TlsStart(s, cfg, e).0.pending <==> !s.pending && e.writeVerified && Refused(s, e)
  {
    var t := FinishWrite(BeginWrite(s, want), s.pending, want, e);
    assert !t.pending && (!s.pending ==> t.attempted == s.attempted);
    ConnectPending(t, cfg, want, true, e);
  }

  lemma ConnectPending(s: State, cfg: Settings, key: Key, haveKnown: bool, e: StartEnv)
    ensures Connect(s, cfg, key, haveKnown, e).0.pending
            <==> s.pending || (!cfg.provision.NotRequested? && haveKnown && Refused(s, e))
  {
  }

  /**
    After an ordinary write of an explicit key the next start writes again exactly when an override hides the state
    file, the write was not verified or not saved, or the new key was refused; in the last case, and only then, that
    next write is a repair.
   */
  lemma ExplicitKeyWrittenAgain(s: State, cfg: Settings, e: StartEnv, next: StartEnv)
    requires cfg.provision.KeyText? && !s.pending && PlanFor(s, cfg, e).Write?
    ensures var t := TlsStart(s, cfg, e).0;
            && (PlanFor(t, cfg, next).Write?
                <==> Overridden(cfg) || !e.writeVerified || !e.keySaved || Refused(s, e))
            && (t.pending <==> e.writeVerified && Refused(s, e))
  {
    StateFileAfter(s, cfg, e);
    PendingExactly(s, cfg, e);
    KnownAfterSave(cfg, PlanFor(s, cfg, e).key);
    assert KnownKey(cfg, s.stateFile) != ParseHex(cfg.provision.text);
  }

  /**
    Under "random" a saved key is written again exactly when it was refused, and as a repair; without a saved key the
    next write is a fresh key, which needs randomness again.
   */
  lemma RandomKeyWrittenAgain(s: State, cfg: Settings, e: StartEnv, next: StartEnv)
    requires cfg.provision.RandomKey? && !s.pending && PlanFor(s, cfg, e).Write?
    ensures var t, saved := TlsStart(s, cfg, e).0, e.writeVerified && e.keySaved;
            && PlanFor(t, cfg, next)
               == (if saved then (if Refused(s, e) then Write(PlanFor(s, cfg, e).key) else Keep)
                   else if next.randomKey.Some? then Write(next.randomKey.value) else Abort)
            && (t.pending <==> e.writeVerified && Refused(s, e))
  {
    StateFileAfter(s, cfg, e);
    PendingExactly(s, cfg, e);
    KnownAfterSave(cfg, PlanFor(s, cfg, e).key);
    assert KnownKey(cfg, s.stateFile).None?;
  }

  // ---- runs that write more than once ---------------------------------------------------

  lemma LogTwice(s: State, a: Event, b: Event)
    ensures s.trace + [a] + [b] == s.trace + [a, b]
  {
  }

  lemma LogThrice(s: State, a: Event, b: Event, c: Event)
    ensures s.trace + [a] + [b] + [c] == s.trace + [a, b, c]
  {
  }

  /** A turn whose start fails, and whether the action is cancelled after it. */
  function FailingTurn(start: StartEnv, last: bool): TurnEnv {
    TurnEnv(false, OnceEnv(true, true, start, false, false), last, false)
  }

  /** A failed turn resets the session; the loop ends here or turns again. */
  lemma TurnFails(s: State, cfg: Settings, start: StartEnv, last: bool, failures: nat, granted: bool)
    requires failures < 3
    requires var (t, r) := TlsStart(s.(desynced := false).Log(ActivationCall), cfg, start);
             r != Ready && (!last ==> t.completed == s.completed)
    ensures var t := Deactivate(TlsStart(s.(desynced := false).Log(ActivationCall), cfg, start).0);
            Turn(s, cfg, FailingTurn(start, last), failures, 4, granted)
            == if last then Done(t.(desynced := true), false) else Again(t, failures + 1, granted)
  {
  }

  /** An action over these turns, not kept. */
  function OneAction(env: nat -> TurnEnv): Op {
    Action(ActivationEnv(env, false), [], false, false)
  }

  lemma ActionFails(s: State, cfg: Settings, env: nat -> TurnEnv)
    requires !s.tlsReady && !ActivateLoop(s, cfg, env, 0, 0, 4, false).1
    ensures Apply(s, cfg, OneAction(env)).trace == ActivateLoop(s, cfg, env, 0, 0, 4, false).0.trace
  {
    assert Activate(s, cfg, env, ATTEMPTS, false) == ActivateLoop(s, cfg, env, 0, 0, 4, false);
  }

  lemma OpenThenAct(cfg: Settings, stateFile: Option<string>, env: nat -> TurnEnv, ops: seq<Op>)
    requires ops == [Open, OneAction(env)]
    ensures RunOps(Initial(stateFile), cfg, ops) == Apply(Opening(Initial(stateFile)), cfg, OneAction(env))
  {
    var s := Initial(stateFile);
    var o := Apply(s, cfg, ops[0]);
    assert RunOps(s, cfg, ops) == RunOps(o, cfg, ops[1..]);
    assert ops[1..][0] == ops[1] && ops[1..][1..] == [];
  }

  /** A start whose write is verified but not saved, and whose handshake meets a confirmed mismatch. */
  function RefusedStart(randomKey: Option<Key>, exchange: T.Handshaken): StartEnv {
    StartEnv(randomKey, true, false, None, true, exchange, false)
  }

  /** A start whose write, if it makes one, is verified as given; it never connects. */
  function WritingStart(randomKey: Option<Key>, verified: bool, exchange: T.Handshaken): StartEnv {
    StartEnv(randomKey, verified, false, None, false, exchange, false)
  }

  /** One turn of a failing start, from the state before it to the state after its reset. */
  ghost function AfterTurn(s: State, cfg: Settings, start: StartEnv): State {
    Deactivate(TlsStart(s.(desynced := false).Log(ActivationCall), cfg, start).0)
  }

  /** An unsaved write and a confirmed mismatch leave a repair pending, with no key known. */
  lemma RefusedTurn(s: State, cfg: Settings, start: StartEnv, k: Key)
    requires cfg.keyOverride == "" && s.stateFile.None? && !s.pending && !s.attempted
    requires PlanFor(s, cfg, start) == Write(k) && !cfg.provision.NotRequested?
    requires start == RefusedStart(start.randomKey, start.exchange) && start.exchange.outcome == T.Mismatch
    ensures var t := AfterTurn(s, cfg, start);
            && TlsStart(s.(desynced := false).Log(ActivationCall), cfg, start).1 == StartFailed
            && t.trace == s.trace + [ActivationCall, Provisioned(k), Handshake(k, start.exchange)]
            && t.pending && !t.attempted && t.stateFile.None? && t.completed == s.completed && !t.tlsReady
  {
    var a := s.(desynced := false).Log(ActivationCall);
    assert BeginWrite(a, k) == a;
    LogThrice(s, ActivationCall, Provisioned(k), Handshake(k, start.exchange));
  }

  /** A pending repair is consumed by its write, whether verified or not. */
  lemma RepairTurn(s: State, cfg: Settings, start: StartEnv, k: Key)
    requires s.pending && PlanFor(s, cfg, start) == Write(k)
    requires start == WritingStart(start.randomKey, start.writeVerified, start.exchange)
    ensures var t := AfterTurn(s, cfg, start);
            && TlsStart(s.(desynced := false).Log(ActivationCall), cfg, start).1 != Ready
            && t.trace == s.trace + [ActivationCall, RepairBegun(k),
                                     if start.writeVerified then Provisioned(k) else ProvisionFailed]
            && !t.pending && t.attempted && t.stateFile == s.stateFile && !t.tlsReady
            && (!start.writeVerified ==> t.completed == s.completed)
  {
    var last := if start.writeVerified then Provisioned(k) else ProvisionFailed;
    LogThrice(s.(desynced := false), ActivationCall, RepairBegun(k), last);
  }

  /** An ordinary write that fails. */
  lemma FailedWriteTurn(s: State, cfg: Settings, start: StartEnv, k: Key)
    requires !s.pending && PlanFor(s, cfg, start) == Write(k)
    requires start == WritingStart(start.randomKey, false, start.exchange)
    ensures var t := AfterTurn(s, cfg, start);
            && TlsStart(s.(desynced := false).Log(ActivationCall), cfg, start).1 != Ready
            && t.trace == s.trace + [ActivationCall, ProvisionFailed]
  {
    LogTwice(s.(desynced := false), ActivationCall, ProvisionFailed);
  }

  /** The loop over two failing turns. */
  lemma LoopTwice(s: State, cfg: Settings, env: nat -> TurnEnv, first: StartEnv, second: StartEnv)
    requires env(0) == FailingTurn(first, false) && env(1) == FailingTurn(second, true)
    requires var (t, r) := TlsStart(s.(desynced := false).Log(ActivationCall), cfg, first);
             r != Ready && t.completed == s.completed
    requires TlsStart(AfterTurn(s, cfg, first).(desynced := false).Log(ActivationCall), cfg, second).1 != Ready
    ensures var (t, ok) := ActivateLoop(s, cfg, env, 0, 0, 4, false);
            !ok && t.trace == AfterTurn(AfterTurn(s, cfg, first), cfg, second).trace
  {
    var s1 := AfterTurn(s, cfg, first);
    TurnFails(s, cfg, first, false, 0, false);
    TurnFails(s1, cfg, second, true, 1, false);
    assert ActivateLoop(s, cfg, env, 0, 0, 4, false) == ActivateLoop(s1, cfg, env, 1, 1, 4, false);
  }

  /** The loop over three failing turns. */
  lemma LoopThrice(s: State, cfg: Settings, env: nat -> TurnEnv, first: StartEnv, second: StartEnv, third: StartEnv)
    requires env(0) == FailingTurn(first, false) && env(1) == FailingTurn(second, false)
    requires env(2) == FailingTurn(third, true)
    requires var (t, r) := TlsStart(s.(desynced := false).Log(ActivationCall), cfg, first);
             r != Ready && t.completed == s.completed
    requires var s1 := AfterTurn(s, cfg, first);
             var (t, r) := TlsStart(s1.(desynced := false).Log(ActivationCall), cfg, second);
             r != Ready && t.completed == s1.completed
    requires var s2 := AfterTurn(AfterTurn(s, cfg, first), cfg, second);
             TlsStart(s2.(desynced := false).Log(ActivationCall), cfg, third).1 != Ready
    ensures var (t, ok) := ActivateLoop(s, cfg, env, 0, 0, 4, false);
            !ok && t.trace == AfterTurn(AfterTurn(AfterTurn(s, cfg, first), cfg, second), cfg, third).trace
  {
    var s1 := AfterTurn(s, cfg, first);
    var s2 := AfterTurn(s1, cfg, second);
    TurnFails(s, cfg, first, false, 0, false);
    TurnFails(s1, cfg, second, false, 1, false);
    TurnFails(s2, cfg, third, true, 2, false);
    assert ActivateLoop(s, cfg, env, 0, 0, 4, false) == ActivateLoop(s1, cfg, env, 1, 1, 4, false);
    assert ActivateLoop(s1, cfg, env, 1, 1, 4, false) == ActivateLoop(s2, cfg, env, 2, 2, 4, false);
  }

  /** A verified write that is not saved, in a start that gets no further. */
  function UnsavedStart(exchange: T.Handshaken): StartEnv {
    StartEnv(None, true, false, None, false, exchange, false)
  }

  lemma UnsavedTurn(s: State, cfg: Settings, start: StartEnv, k: Key)
    requires !s.pending && PlanFor(s, cfg, start) == Write(k) && start == UnsavedStart(start.exchange)
    ensures var t := AfterTurn(s, cfg, start);
            && TlsStart(s.(desynced := false).Log(ActivationCall), cfg, start).1 != Ready
            && t.trace == s.trace + [ActivationCall, Provisioned(k)]
            && !t.pending && t.completed == s.completed && t.stateFile == s.stateFile && !t.tlsReady
  {
    LogTwice(s.(desynced := false), ActivationCall, Provisioned(k));
  }

  /**
    Ordinary writes need no evidence and can repeat: with an explicit key that cannot be saved, one open writes it in
    two starts, without a handshake before either.
   */
  lemma OrdinaryWritesRepeat(cfg: Settings, k: Key, x: T.Handshaken, env: nat -> TurnEnv, ops: seq<Op>)
    requires cfg.keyOverride == "" && cfg.provision.KeyText? && ParseHex(cfg.provision.text) == Some(k)
    requires env(0) == FailingTurn(UnsavedStart(x), false) && env(1) == FailingTurn(UnsavedStart(x), true)
    requires ops == [Open, OneAction(env)]
    ensures RunOps(Initial(None), cfg, ops).trace
            == [Opened] + [ActivationCall, Provisioned(k)] + [ActivationCall, Provisioned(k)]
  {
    var start := UnsavedStart(x);
    var s0 := Opening(Initial(None));
    UnsavedTurn(s0, cfg, start, k);
    UnsavedTurn(AfterTurn(s0, cfg, start), cfg, start, k);
    LoopTwice(s0, cfg, env, start, start);
    OpenThenAct(cfg, None, env, ops);
    ActionFails(s0, cfg, env);
  }

  /** A failed repair does not end the writing: the same open goes on with an ordinary write of the same key. */
  lemma WriteAfterFailedRepair(cfg: Settings, k: Key, x: T.Handshaken, env: nat -> TurnEnv, ops: seq<Op>)
    requires cfg.keyOverride == "" && cfg.provision.KeyText? && ParseHex(cfg.provision.text) == Some(k)
    requires x.outcome == T.Mismatch && ops == [Open, OneAction(env)]
    requires env(0) == FailingTurn(RefusedStart(None, x), false)
    requires env(1) == FailingTurn(WritingStart(None, false, x), false)
    requires env(2) == FailingTurn(WritingStart(None, false, x), true)
    ensures RunOps(Initial(None), cfg, ops).trace
            == [Opened] + [ActivationCall, Provisioned(k), Handshake(k, x)]
               + [ActivationCall, RepairBegun(k), ProvisionFailed] + [ActivationCall, ProvisionFailed]
  {
    var first, second := RefusedStart(None, x), WritingStart(None, false, x);
    var s0 := Opening(Initial(None));
    var s1 := AfterTurn(s0, cfg, first);
    var s2 := AfterTurn(s1, cfg, second);
    RefusedTurn(s0, cfg, first, k);
    RepairTurn(s1, cfg, second, k);
    FailedWriteTurn(s2, cfg, second, k);
    LoopThrice(s0, cfg, env, first, second, second);
    OpenThenAct(cfg, None, env, ops);
    ActionFails(s0, cfg, env);
  }

  /** Under "random" a repair with no known key is reachable, and it rotates the key. */
  lemma RandomRepairRotates(cfg: Settings, a: Key, b: Key, x: T.Handshaken, env: nat -> TurnEnv, ops: seq<Op>)
    requires cfg.keyOverride == "" && cfg.provision.RandomKey?
    requires x.outcome == T.Mismatch && ops == [Open, OneAction(env)]
    requires env(0) == FailingTurn(RefusedStart(Some(a), x), false)
    requires env(1) == FailingTurn(WritingStart(Some(b), true, x), true)
    ensures RunOps(Initial(None), cfg, ops).trace
            == [Opened] + [ActivationCall, Provisioned(a), Handshake(a, x)]
               + [ActivationCall, RepairBegun(b), Provisioned(b)]
  {
    var first, second := RefusedStart(Some(a), x), WritingStart(Some(b), true, x);
    var s0 := Opening(Initial(None));
    var s1 := AfterTurn(s0, cfg, first);
    RefusedTurn(s0, cfg, first, a);
    RepairTurn(s1, cfg, second, b);
    LoopTwice(s0, cfg, env, first, second);
    OpenThenAct(cfg, None, env, ops);
    ActionFails(s0, cfg, env);
  }

  // ---- a mismatch exists --------------------------------------------------------------------

  /** A client flight in one packet: hello, key exchange, cipher change. */
  function Flight(): seq<Record> {
    [Record(0x16, 3, 3, [1, 0, 0, 0]), Record(0x16, 3, 3, [0x10, 0, 0, 0]), Record(0x14, 3, 3, [1])]
  }

  function RefusedAttempt(packet: Bytes): T.Attempt {
    T.Attempt(true, true, [T.Request(0, T.Refill(true, Some(packet), false, None))],
              T.Refused(true, [T.DecryptionFailed]))
  }

  lemma FlightIsComplete(packet: Bytes, requests: seq<T.Request>)
    requires packet == EncodeAll(Flight()) && requests == [T.Request(0, T.Refill(true, Some(packet), false, None))]
    ensures T.CompleteFlight(T.Fed(T.FRESH, requests))
  {
    var rs := Flight();
    assert rs[0] in rs && rs[1] in rs && rs[2] in rs;
    ParseEncoded(rs, []);
    assert EncodeAll(rs) + [] == EncodeAll(rs);
    assert requests[1..] == [];
    assert T.Fed(T.FRESH, requests) == [packet];
    assert packet in T.Fed(T.FRESH, requests);
    assert ShowsHandshake(packet, 0x01) && ShowsHandshake(packet, 0x10) && ShowsCipherChange(packet);
  }

  /** Such a mismatch is not excluded by its definition: two refused flights are one. */
  lemma MismatchExists() returns (x: T.Handshaken)
    ensures x.outcome == T.Mismatch
  {
    var packet := EncodeAll(Flight());
    var a := RefusedAttempt(packet);
    FlightIsComplete(packet, a.requests);
    assert T.DecryptionFailed in a.verdict.reasons;
    assert T.Confirmed(a);
    x := T.Exchange(a, a, T.HandshakeOutcome(a, a));
  }

  // ---- one key for whole runs ------------------------------------------------------------------

  /** Every write and every handshake uses this key. */
  ghost predicate OnlyKey(trace: seq<Event>, k: Key) {
    forall i | 0 <= i < |trace| :: UsesKey(trace[i], k)
  }

  predicate UsesKey(e: Event, k: Key) {
    e.RepairBegun? || e.Provisioned? || e.Handshake? ==> e.key == k
  }

  /** The known key is this one, and nothing else was ever used. */
  ghost predicate Held(s: State, cfg: Settings, k: Key) {
    KnownKey(cfg, s.stateFile) == Some(k) && OnlyKey(s.trace, k)
  }

  lemma LogHolds(s: State, cfg: Settings, k: Key, e: Event)
    requires Held(s, cfg, k) && UsesKey(e, k)
    ensures Held(s.Log(e), cfg, k)
  {
  }

  lemma WriteHolds(s: State, cfg: Settings, k: Key, e: StartEnv)
    requires Held(s, cfg, k)
    ensures Held(FinishWrite(BeginWrite(s, k), s.pending, k, e), cfg, k)
  {
    var cleared := s.(pending := false, attempted := true);
    var begun := BeginWrite(s, k);
    LogHolds(cleared, cfg, k, RepairBegun(k));
    LogHolds(begun, cfg, k, if e.writeVerified then Provisioned(k) else ProvisionFailed);
    KnownAfterSave(cfg, k);
  }

  lemma StartHolds(s: State, cfg: Settings, k: Key, e: StartEnv)
    requires Held(s, cfg, k) && cfg.provision.RandomKey?
    ensures Held(TlsStart(s, cfg, e).0, cfg, k)
  {
    LogHolds(s, cfg, k, Handshake(k, e.exchange));
    if s.pending {
      WriteHolds(s, cfg, k, e);
    }
  }

  lemma TurnHolds(s: State, cfg: Settings, k: Key, e: TurnEnv, failures: nat, max: nat, granted: bool)
    requires Held(s, cfg, k) && cfg.provision.RandomKey? && failures < max
    ensures Held(Turn(s, cfg, e, failures, max, granted).s, cfg, k)
  {
    var s0 := s.(desynced := false).Log(ActivationCall);
    LogHolds(s.(desynced := false), cfg, k, ActivationCall);
    StartHolds(s0, cfg, k, e.once.start);
    var (s1, _) := ActivateOnce(s, cfg, e.once);
    assert Held(s1, cfg, k);
    LogHolds(Deactivate(s1), cfg, k, BudgetGranted);
  }

  lemma {:induction false} LoopHolds(s: State, cfg: Settings, k: Key, env: nat -> TurnEnv, n: nat,
                                     failures: nat, max: nat, granted: bool)
    requires Held(s, cfg, k) && cfg.provision.RandomKey? && failures < max
    ensures Held(ActivateLoop(s, cfg, env, n, failures, max, granted).0, cfg, k)
    decreases if granted then 0 else 1, max - failures
  {
    TurnHolds(s, cfg, k, env(n), failures, max, granted);
    match Turn(s, cfg, env(n), failures, max, granted)
    case Done(_, _) =>
    case Again(t, f, g) => LoopHolds(t, cfg, k, env, n + 1, f, max, g);
  }

  lemma ActivateHolds(s: State, cfg: Settings, k: Key, env: nat -> TurnEnv, maxAttempts: nat, reuseOk: bool)
    requires Held(s, cfg, k) && cfg.provision.RandomKey?
    ensures Held(Activate(s, cfg, env, maxAttempts, reuseOk).0, cfg, k)
  {
    if !s.tlsReady {
      LoopHolds(s, cfg, k, env, 0, 0, if maxAttempts < 1 then 1 else maxAttempts, false);
    }
  }

  lemma {:induction false} RestartsHold(s: State, cfg: Settings, k: Key, restarts: seq<ActivationEnv>)
    requires Held(s, cfg, k) && cfg.provision.RandomKey?
    ensures Held(Restarts(s, cfg, restarts).0, cfg, k)
    decreases |restarts|
  {
    if restarts != [] {
      var e := restarts[0];
      ActivateHolds(Deactivate(s), cfg, k, e.turns, ATTEMPTS, e.reuseOk);
      var (s1, ok) := Activate(Deactivate(s), cfg, e.turns, ATTEMPTS, e.reuseOk);
      if ok {
        RestartsHold(s1, cfg, k, restarts[1..]);
      }
    }
  }

  lemma ApplyHolds(s: State, cfg: Settings, k: Key, op: Op)
    requires Held(s, cfg, k) && cfg.provision.RandomKey?
    ensures Held(Apply(s, cfg, op), cfg, k)
  {
    match op
    case Open => OpeningHolds(s, cfg, k);
    case WarmOpen(warm) =>
      OpeningHolds(s, cfg, k);
      ActivateHolds(Opening(s), cfg, k, warm.turns, ATTEMPTS, warm.reuseOk);
    case Action(start, restarts, _, _) =>
      ActivateHolds(s, cfg, k, start.turns, ATTEMPTS, start.reuseOk);
      RestartsHold(Activate(s, cfg, start.turns, ATTEMPTS, start.reuseOk).0, cfg, k, restarts);
    case _ =>
  }

  lemma OpeningHolds(s: State, cfg: Settings, k: Key)
    requires Held(s, cfg, k)
    ensures Held(Opening(s), cfg, k)
  {
    LogHolds(s.(pending := false, attempted := false, completed := false), cfg, k, Opened);
  }

  lemma {:induction false} RunHolds(s: State, cfg: Settings, k: Key, ops: seq<Op>)
    requires Held(s, cfg, k) && cfg.provision.RandomKey?
    ensures Held(RunOps(s, cfg, ops), cfg, k)
    decreases |ops|
  {
    if ops != [] {
      ApplyHolds(s, cfg, k, ops[0]);
      RunHolds(Apply(s, cfg, ops[0]), cfg, k, ops[1..]);
    }
  }

  /**
    Under "random" a key that is known at the start of a run is the only key of that run: every write, repair or not,
    and every handshake uses it, and it stays the known key.
   */
  lemma KnownRandomKeyNeverRotates(stateFile: Option<string>, cfg: Settings, k: Key, ops: seq<Op>)
    requires cfg.provision.RandomKey? && KnownKey(cfg, stateFile) == Some(k)
    ensures var s := RunOps(Initial(stateFile), cfg, ops);
            OnlyKey(s.trace, k) && KnownKey(cfg, s.stateFile) == Some(k)
  {
    RunHolds(Initial(stateFile), cfg, k, ops);
  }
}

/** The device object: fields updated in place, each method tied to its transition. */
module Session {
  import opened Common
  import opened PskState
  import opened S = SessionSpec
  import TlsAdapter

  class Device {
    var listener: bool
    var tls: TlsAdapter.Adapter
    var tlsReady: bool
    var desynced: bool
    var reprovisionPending: bool
    var reprovisionAttempted: bool
    var reprovisionCompleted: bool
    var stateFile: Option<string>
    ghost var trace: seq<Event>

    ghost function State(): S.State
      reads this
    {
      S.State.State(listener, tlsReady, desynced, reprovisionPending, reprovisionAttempted, reprovisionCompleted,
                    stateFile, trace)
    }

    constructor (file: Option<string>)
      ensures State() == Initial(file)
    {
      listener, tlsReady, desynced := false, false, false;
      reprovisionPending, reprovisionAttempted, reprovisionCompleted := false, false, false;
      tls := new TlsAdapter.Adapter();
      stateFile, trace := file, [];
    }

    method Open()
      modifies this
      ensures State() == Opening(old(State()))
    {
      reprovisionPending := false;
      reprovisionAttempted := false;
      reprovisionCompleted := false;
      trace := trace + [Opened];
    }

    /** Whether the sensor key must be rewritten, and with what. */
    static method PlanWrite(cfg: Settings, repairRequested: bool, existing: Option<Key>, randomKey: Option<Key>)
      returns (plan: Plan)
      requires !cfg.provision.NotRequested?
      ensures plan == PlanKey(cfg, repairRequested, existing, randomKey)
    {
      if cfg.provision.RandomKey? {
        if repairRequested && existing.Some? {
          return Write(existing.value);
        } else if existing.Some? {
          return Keep;
        } else if randomKey.None? {
          return Abort;
        }
        return Write(randomKey.value);
      }
      var want := ParseHex(cfg.provision.text);
      if want.None? {
        return Abort;
      } else if !repairRequested && existing.Some? && want == existing {
        return Keep;
      }
      plan := Write(want.value);
    }

    /** Writes the key to the sensor and, once verified, to the state file; consumes a pending repair first. */
    method WriteKey(want: Key, e: StartEnv)
      modifies this
      ensures State() == FinishWrite(BeginWrite(old(State()), want), old(reprovisionPending), want, e)
    {
      var repairRequested := reprovisionPending;
      if repairRequested {
        reprovisionPending := false;
        reprovisionAttempted := true;
        trace := trace + [RepairBegun(want)];
      }
      assert State() == BeginWrite(old(State()), want);
      if !e.writeVerified {
        trace := trace + [ProvisionFailed];
        return;
      }
      trace := trace + [Provisioned(want)];
      if repairRequested {
        reprovisionCompleted := true;
      }
      if e.keySaved {
        stateFile := Some(SaveText(want));
      }
    }

    /** Handshake with the chosen key, then the mandatory acknowledgement. */
    method Connect(cfg: Settings, psk: Key, haveExisting: bool, e: StartEnv) returns (r: StartResult)
      modifies this
      ensures (State(), r) == S.Connect(old(State()), cfg, psk, haveExisting, e)
    {
      if !e.contextOk {
        return StartFailed;
      }
      tls := new TlsAdapter.Adapter();
      var outcome := tls.Handshake(e.exchange.first, e.exchange.second);
      assert outcome == e.exchange.outcome;
      trace := trace + [Handshake(psk, e.exchange)];
      if outcome != TlsAdapter.Established {
        if outcome == TlsAdapter.Mismatch && !cfg.provision.NotRequested? && haveExisting && !reprovisionAttempted {
          reprovisionPending := true;
        }
        return StartFailed;
      }
      if !e.establishedAcked {
        return StartFailed;
      }
      tlsReady := true;
      r := Ready;
    }

    /** Chooses the key, rewrites the sensor when asked to, and connects. */
    method TlsStart(cfg: Settings, e: StartEnv) returns (r: StartResult)
      modifies this
      ensures (State(), r) == S.TlsStart(old(State()), cfg, e)
    {
      var repairRequested := reprovisionPending;
      var existing: Option<Key> := None;
      if cfg.keyOverride != "" {
        existing := ParseHex(cfg.keyOverride);
      }
      if existing.None? {
        existing := LoadText(stateFile);
      }
      assert existing == KnownKey(cfg, stateFile);
      if !cfg.provision.NotRequested? {
        var plan := PlanWrite(cfg, repairRequested, existing, e.randomKey);
        if plan == Abort {
          return StartFailed;
        }
        if plan.Write? {
          WriteKey(plan.key, e);
          if !e.writeVerified {
            return StartFailed;
          } else if repairRequested {
            return ResetRequired;
          }
          r := Connect(cfg, plan.key, true, e);
          return;
        }
        assert plan == Keep;
      }
      if existing.Some? {
        r := Connect(cfg, existing.value, true, e);
      } else if e.sensorKey.Some? {
        r := Connect(cfg, e.sensorKey.value, false, e);
      } else {
        r := StartFailed;
      }
    }

    method ActivateOnce(cfg: Settings, e: OnceEnv) returns (ok: bool)
      requires !listener
      modifies this
      ensures (State(), ok) == S.ActivateOnce(old(State()), cfg, e)
    {
      desynced := false;
      trace := trace + [ActivationCall];
      if !e.probeOk || !e.initOk {
        return false;
      }
      var r := TlsStart(cfg, e.start);
      if r != Ready {
        return false;
      }
      assert !listener;
      if !e.listenerOk {
        return false;
      }
      listener := true;
      ok := e.primeOk;
    }

    method Deactivate()
      modifies this
      ensures State() == S.Deactivate(old(State()))
    {
      listener := false;
      if tlsReady {
        tlsReady := false;
      }
      desynced := false;
    }

    /** One turn of the loop: returns whether it ended, and otherwise the new failure count and budget flag. */
    method RunTurn(cfg: Settings, e: TurnEnv, failures: nat, attempts: nat, granted: bool)
      returns (done: bool, ok: bool, failures': nat, granted': bool)
      requires failures < attempts && !listener
      modifies this
      ensures Turn(old(State()), cfg, e, failures, attempts, granted)
              == if done then Done(State(), ok) else Again(State(), failures', granted')
    {
      failures', granted' := failures, granted;
      if e.cancelBefore {
        desynced := true;
        return true, false, failures', granted';
      }
      var completedBefore := reprovisionCompleted;
      ok := ActivateOnce(cfg, e.once);
      if ok {
        return true, true, failures', granted';
      }
      var completedNow := !completedBefore && reprovisionCompleted;
      Deactivate();
      if e.cancelAfter {
        desynced := true;
        return true, false, failures', granted';
      }
      if completedNow && !granted {
        trace := trace + [BudgetGranted];
        return false, false, 0, true;
      }
      failures' := failures + 1;
      if failures' == attempts {
        return true, false, failures', granted';
      }
      if e.cancelWaiting {
        desynced := true;
        return true, false, failures', granted';
      }
      done := false;
    }

    /** The activation loop, with one extra budget after a completed repair. */
    method ActivateWithAttempts(cfg: Settings, env: nat -> TurnEnv, maxAttempts: nat, reuseOk: bool) returns (ok: bool)
      requires AtRest(State())
      modifies this
      ensures (State(), ok) == Activate(old(State()), cfg, env, maxAttempts, reuseOk)
    {
      var failures: nat, turn: nat, repairBudgetGranted := 0, 0, false;
      var attempts := if maxAttempts < 1 then 1 else maxAttempts;
      if tlsReady {
        desynced := false;
        return reuseOk;
      }
      while true
        invariant failures < attempts && !listener && !tlsReady
        invariant ActivateLoop(State(), cfg, env, turn, failures, attempts, repairBudgetGranted)
               == ActivateLoop(old(State()), cfg, env, 0, 0, attempts, false)
        decreases if repairBudgetGranted then 0 else 1, attempts - failures
      {
        TurnRests(State(), cfg, env(turn), failures, attempts, repairBudgetGranted);
        var done;
        done, ok, failures, repairBudgetGranted := RunTurn(cfg, env(turn), failures, attempts, repairBudgetGranted);
        if done {
          return;
        }
        turn := turn + 1;
      }
    }

    method Close()
      modifies this
      ensures State() == Release(old(State()))
    {
      listener := false;
      tlsReady := false;
    }

    /** One action: activate, survive capture restarts, and end or keep the session. */
    method Action(cfg: Settings, start: ActivationEnv, restarts: seq<ActivationEnv>, keepIfClean: bool, clean: bool)
      requires AtRest(State())
      modifies this
      ensures State() == Apply(old(State()), cfg, Op.Action(start, restarts, keepIfClean, clean))
    {
      ActivateRests(State(), cfg, start.turns, ATTEMPTS, start.reuseOk);
      var ok := ActivateWithAttempts(cfg, start.turns, ATTEMPTS, start.reuseOk);
      if !ok {
        Deactivate();
        return;
      }
      ghost var begun := State();
      var captured := true;
      for i := 0 to |restarts|
        invariant AtRest(State())
        invariant captured && Restarts(begun, cfg, restarts) == Restarts(State(), cfg, restarts[i..])
      {
        ghost var rest := restarts[i..];
        assert rest[0] == restarts[i] && rest[1..] == restarts[i + 1..];
        Deactivate();
        ActivateRests(State(), cfg, restarts[i].turns, ATTEMPTS, restarts[i].reuseOk);
        captured := ActivateWithAttempts(cfg, restarts[i].turns, ATTEMPTS, restarts[i].reuseOk);
        if !captured {
          Deactivate();
          return;
        }
      }
      if !(keepIfClean && clean && !desynced) {
        Deactivate();
      }
    }

    /** A background activation right after open; its failure releases the handles. */
    method WarmOpen(cfg: Settings, warm: ActivationEnv)
      requires AtRest(State())
      modifies this
      ensures State() == Apply(old(State()), cfg, Op.WarmOpen(warm))
    {
      Open();
      var ok := ActivateWithAttempts(cfg, warm.turns, ATTEMPTS, warm.reuseOk);
      if !ok {
        Close();
      }
    }

    method Suspend(cfg: Settings)
      modifies this
      ensures State() == Apply(old(State()), cfg, Op.Suspend)
    {
      desynced := true;
    }

    /** One operation of a run. */
    method Operate(cfg: Settings, op: Op)
      requires AtRest(State())
      modifies this
      ensures State() == Apply(old(State()), cfg, op)
    {
      match op {
        case Open => Open();
        case WarmOpen(warm) => WarmOpen(cfg, warm);
        case Action(start, restarts, keepIfClean, clean) => Action(cfg, start, restarts, keepIfClean, clean);
        case Suspend => Suspend(cfg);
        case Close => Close();
      }
    }

    /** A whole run of operations on the object is the run of the transitions, from rest to rest. */
    method Run(cfg: Settings, ops: seq<Op>)
      requires Sound(State(), cfg) && AtRest(State())
      modifies this
      ensures State() == RunOps(old(State()), cfg, ops) && AtRest(State())
    {
      RunSound(State(), cfg, ops);
      for i := 0 to |ops|
        invariant Sound(State(), cfg) && AtRest(State())
        invariant RunOps(State(), cfg, ops[i..]) == RunOps(old(State()), cfg, ops)
      {
        ghost var rest := ops[i..];
        assert rest[0] == ops[i] && rest[1..] == ops[i + 1..];
        ApplySound(State(), cfg, ops[i]);
        Operate(cfg, ops[i]);
      }
    }
  }
}

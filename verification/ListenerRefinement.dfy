/** What a sending thread's calls compute is what some interleaving of the atomic steps does, after any run. */
module ListenerRefinement {
  import opened Common
  import opened L = ListenerSteps
  import opened Queues
  import S = SenderSpec

  // ---- runs ------------------------------------------------------------------------

  function RunFrom(s: State, steps: seq<Step>): State
    decreases |steps|
  {
    if steps == [] then s else RunFrom(Next(s, steps[0]), steps[1..])
  }

  lemma {:induction false} RunFromAppend(s: State, a: seq<Step>, b: seq<Step>)
    ensures RunFrom(s, a + b) == RunFrom(RunFrom(s, a), b)
    decreases |a|
  {
    if a == [] {
      assert a + b == b;
    } else {
      assert (a + b)[0] == a[0] && (a + b)[1..] == a[1..] + b;
      RunFromAppend(Next(s, a[0]), a[1..], b);
    }
  }

  lemma RunOne(s: State, a: Step)
    ensures RunFrom(s, [a]) == Next(s, a)
  {
    assert [a][1..] == [];
  }

  lemma RunTwo(s: State, a: Step, b: Step)
    ensures RunFrom(s, [a, b]) == Next(Next(s, a), b)
  {
    assert [a, b][1..] == [b];
    RunOne(Next(s, a), b);
  }

  lemma RunThree(s: State, a: Step, b: Step, c: Step)
    ensures RunFrom(s, [a, b, c]) == Next(Next(Next(s, a), b), c)
  {
    assert [a, b, c][1..] == [b, c];
    RunTwo(Next(s, a), b, c);
  }

  /** From the initial state this is the run of the step machine. */
  lemma {:induction false} RunFromInitial(steps: seq<Step>)
    ensures RunFrom(INITIAL, steps) == Run(steps)
  {
    if steps != [] {
      var n := |steps| - 1;
      RunFromInitial(steps[..n]);
      RunFromAppend(INITIAL, steps[..n], [steps[n]]);
      RunOne(Run(steps[..n]), steps[n]);
      assert steps[..n] + [steps[n]] == steps;
    }
  }

  /** Steps after a run make a longer run. */
  lemma RunContinues(past: seq<Step>, more: seq<Step>)
    ensures Run(past + more) == RunFrom(Run(past), more)
  {
    RunFromInitial(past + more);
    RunFromInitial(past);
    RunFromAppend(INITIAL, past, more);
  }

  // ---- what a call leaves behind -------------------------------------------------------

  /** Nobody uses the bus, and the reader is not suppressed. */
  predicate Quiescent(s: State) {
    !s.suppress && s.bus.owner.None? && s.bus.current.None?
  }

  /** The reader is at the top of its loop, and neither flag nor bus holds it up. */
  predicate Free(s: State) {
    s.reader == AtStop && !s.stop && Quiescent(s)
  }

  /** A stop was requested when the reader had already passed its check, so one more packet may come. */
  predicate Stopping(s: State) {
    s.reader == AtBus && s.stop && Quiescent(s)
  }

  predicate IsSend(t: Transaction) {
    t.Write?
  }

  function Sends(s: State): nat {
    Count(s.bus.done, IsSend)
  }

  /** The waits of a call, as the step machine records their ends. */
  function AnswersOf(id: nat, log: seq<S.Event>): seq<Answer> {
    if log == [] then []
    else
      var before := AnswersOf(id, log[..|log| - 1]);
      match log[|log| - 1]
      case Received(packet) => before + [Answer(id, Taken(packet))]
      case Lost(_) => before + [Answer(id, Stopped)]
      case GaveUp(_) => before + [Answer(id, Expired)]
      case _ => before
  }

  /** The run did what the call says: same queues and stop flag, the same answers, as many writes on the bus. */
  predicate Carried(s: State, t: State, id: nat, st: Store, stop: bool, log: seq<S.Event>) {
    && t.store == st && t.stop == stop && (!stop ==> Free(t))
    && t.answers == s.answers + AnswersOf(id, log)
    && Sends(t) == Sends(s) + Count(log, S.IsWrite)
    && id !in t.waiters && id !in t.senders
  }

  lemma {:induction false} AnswersAppend(id: nat, a: seq<S.Event>, b: seq<S.Event>)
    ensures AnswersOf(id, a + b) == AnswersOf(id, a) + AnswersOf(id, b)
  {
    if b == [] {
      assert a + b == a;
    } else {
      assert (a + b)[..|a + b| - 1] == a + b[..|b| - 1];
      AnswersAppend(id, a, b[..|b| - 1]);
    }
  }

  lemma CarriedOn(s: State, t: State, u: State, id: nat, st: Store, stop: bool, a: seq<S.Event>, b: seq<S.Event>)
    requires Carried(s, t, id, t.store, t.stop, a) && Carried(t, u, id, st, stop, b)
    ensures Carried(s, u, id, st, stop, a + b)
  {
    AnswersAppend(id, a, b);
    CountAppend(a, b, S.IsWrite);
  }

  /** A call that may be made now: nothing in the way, and this thread neither waits nor writes. */
  predicate Callable(s: State, id: nat) {
    Free(s) && id !in s.waiters && id !in s.senders
  }

  // ---- arrivals ---------------------------------------------------------------------------

  /** One packet later: queued, every waiter woken, and nothing else that a sender sees. */
  predicate Delivered(s: State, t: State, p: Payload) {
    && t.reader == AtStop && t.stop == s.stop && Quiescent(t)
    && t.store == Enqueue(s.store, p) && t.waiters == Broadcast(s.waiters)
    && t.answers == s.answers && t.senders == s.senders && Sends(t) == Sends(s)
  }

  const GO: Step := ReaderStep(true, true, Header)

  lemma ToBus(s: State)
    requires Free(s)
    ensures RunFrom(s, [GO, GO, GO]) == s.(reader := AtBus)
  {
    RunThree(s, GO, GO, GO);
    assert Next(s, GO) == s.(reader := AtSuppress);
    assert Next(s.(reader := AtSuppress), GO) == s.(reader := AtLine);
    assert Next(s.(reader := AtLine), GO) == s.(reader := AtBus);
  }

  /** Taking the bus, a header and a payload transfer. */
  lemma ToRead(s: State)
    requires s.reader == AtBus && s.bus.owner.None?
    ensures var t := Next(Next(Next(s, GO), GO), ReaderStep(true, true, Chunk));
            && t.reader == Reading(1, 1) && t.bus.current == Some(Read(1, 1)) && t.bus.done == s.bus.done
            && t.(reader := s.reader, bus := s.bus, flags := s.flags) == s
  {
    var t1 := Next(s, GO);
    assert t1.reader == Reading(0, 0) && t1.(reader := s.reader, bus := s.bus, flags := s.flags) == s;
    var t2 := Next(t1, GO);
    assert t2.reader == Reading(1, 0) && t2.(reader := s.reader, bus := s.bus, flags := s.flags) == s;
  }

  lemma ToQueue(s: State, p: Payload)
    requires s.reader == Reading(1, 1) && s.bus.current == Some(Read(1, 1)) && !s.suppress
    ensures Delivered(s, Next(Next(s, ReaderStep(true, true, Finish(Some(p)))), GO), p)
  {
    var t := Next(s, ReaderStep(true, true, Finish(Some(p))));
    assert t.reader == Holding(p) && t.(reader := s.reader, bus := s.bus) == s;
    CountAppend(s.bus.done, [Read(1, 1)], IsSend);
    assert [Read(1, 1)][..0] == [];
  }

  /** From the bus lock on: taking the bus, a read of one packet, and its dispatch. */
  lemma DeliverFromBus(s: State, p: Payload) returns (steps: seq<Step>)
    requires s.reader == AtBus && Quiescent(s)
    ensures Delivered(s, RunFrom(s, steps), p)
  {
    var chunk, finish := ReaderStep(true, true, Chunk), ReaderStep(true, true, Finish(Some(p)));
    RunThree(s, GO, GO, chunk);
    ToRead(s);
    var read := RunFrom(s, [GO, GO, chunk]);
    RunTwo(read, finish, GO);
    ToQueue(read, p);
    RunFromAppend(s, [GO, GO, chunk], [finish, GO]);
    steps := [GO, GO, chunk] + [finish, GO];
  }

  /** One packet from the sensor, through eight reader steps, into its queue. */
  lemma Deliver(s: State, p: Payload) returns (steps: seq<Step>)
    requires Free(s)
    ensures Delivered(s, RunFrom(s, steps), p)
  {
    ToBus(s);
    var rest := DeliverFromBus(s.(reader := AtBus), p);
    RunFromAppend(s, [GO, GO, GO], rest);
    steps := [GO, GO, GO] + rest;
  }

  /** Packets that arrive while a waiter is off the lock; any arrival makes it ready. */
  lemma {:induction false} DeliverAll(s: State, batch: seq<Payload>) returns (steps: seq<Step>)
    requires Free(s)
    ensures var t := RunFrom(s, steps);
            && Free(t) && t.store == EnqueueAll(s.store, batch)
            && t.waiters == (if batch == [] then s.waiters else Broadcast(s.waiters))
            && t.answers == s.answers && t.senders == s.senders && Sends(t) == Sends(s)
    decreases |batch|
  {
    if batch == [] {
      steps := [];
    } else {
      var first := Deliver(s, batch[0]);
      var t := RunFrom(s, first);
      var rest := DeliverAll(t, batch[1..]);
      steps := first + rest;
      RunFromAppend(s, first, rest);
      assert Broadcast(Broadcast(s.waiters)) == Broadcast(s.waiters);
    }
  }

  /** A read that fails costs only itself: woken again, the reader is back where it was, and nothing was queued. */
  lemma FailedReadReturns(s: State) returns (steps: seq<Step>)
    requires Free(s)
    ensures var t := RunFrom(s, steps);
            Free(t) && t.store == s.store && t.waiters == s.waiters && t.answers == s.answers && |t.flags| > |s.flags|
  {
    var b, fail := s.(reader := AtBus), ReaderStep(true, true, Finish(None));
    ToBus(s);
    RunThree(b, GO, GO, fail);
    var t1 := Next(b, GO);
    assert t1.reader == Reading(0, 0) && t1.(reader := s.reader, bus := s.bus, flags := s.flags) == s;
    var t2 := Next(t1, GO);
    assert t2.reader == Reading(1, 0) && t2.(reader := s.reader, bus := s.bus, flags := s.flags) == s;
    var t3 := Next(t2, fail);
    assert t3.reader == Polling && t3.(reader := s.reader, bus := s.bus, flags := s.flags) == s;
    RunOne(t3, GO);
    RunFromAppend(b, [GO, GO, fail], [GO]);
    RunFromAppend(s, [GO, GO, GO], [GO, GO, fail] + [GO]);
    steps := [GO, GO, GO] + ([GO, GO, fail] + [GO]);
  }

  /** An empty packet sends the reader straight back for the next one, without waiting to be woken. */
  lemma EmptyReadsOn(s: State, h: nat, c: nat, woken: bool, lineHigh: bool)
    requires s.reader == Reading(h, c) && h > 0
    ensures Next(s, ReaderStep(woken, lineHigh, Finish(Some([])))) == s.(reader := AtStop, bus := Release(s.bus))
  {
  }

  /** A stopped reader leaves its loop, in two steps from the top. */
  lemma StoppedReaderExits(s: State)
    requires s.reader == AtStop && s.stop
    ensures RunFrom(s, [GO, GO]) == s.(reader := Exited)
  {
    RunTwo(s, GO, GO);
    assert Next(s, GO) == s.(reader := Polling);
  }

  // ---- waiting -----------------------------------------------------------------------------

  /** One look: the state after it, with its end recorded unless the waiter goes back to sleep. */
  predicate Looked(s: State, t: State, id: nat, stopped: bool, seen: Checked)
    requires id in s.waiters
  {
    && t.senders == s.senders && Sends(t) == Sends(s)
    && if seen.Nothing? then
         && Free(t) && t.store == s.store && t.answers == s.answers
         && id in t.waiters && t.waiters[id] == Asleep(s.waiters[id].kind)
       else
         && t.store == (if seen.Taken? && s.store.queues[s.waiters[id].kind] != []
                        then Pop(s.store, s.waiters[id].kind, Fate.Delivered) else s.store)
         && t.stop == stopped && (if stopped then Stopping(t) else Free(t))
         && t.answers == s.answers + [Answer(id, seen)] && id !in t.waiters
  }

  /** The waiter wakes up, possibly after a stop request, and looks. */
  lemma LookOnce(s: State, id: nat, stopped: bool, expired: bool) returns (steps: seq<Step>)
    requires Free(s) && id in s.waiters
    ensures Looked(s, RunFrom(s, steps), id, stopped, Look(s.store, s.waiters[id].kind, stopped, expired))
  {
    var woken := s.(waiters := s.waiters[id := Ready(s.waiters[id].kind)]);
    var check := Check(id, expired);
    if stopped {
      var b := s.(reader := AtBus);
      ToBus(s);
      RunThree(b, Wake(id), RequestStop, check);
      RunFromAppend(s, [GO, GO, GO], [Wake(id), RequestStop, check]);
      steps := [GO, GO, GO] + [Wake(id), RequestStop, check];
      assert Next(b, Wake(id)) == woken.(reader := AtBus);
      assert RunFrom(s, steps) == Next(woken.(reader := AtBus, stop := true), check);
    } else {
      assert Next(s, Wake(id)) == woken;
      steps := [Wake(id), check];
      RunTwo(s, Wake(id), check);
    }
  }

  function EndOf(r: S.Awaited): Checked {
    match r
    case Got(packet) => Taken(packet)
    case Closed => Stopped
    case TimedOut => Expired
  }

  /** What was asked for: queues, stop flag and the value returned are those of the run. */
  predicate Answered(s: State, t: State, id: nat, k: Kind, turns: seq<S.Turn>) {
    var (store, stop, r) := S.Await(s.store, s.stop, k, turns);
    && t.store == store && t.stop == stop && (if stop then Stopping(t) else Free(t))
    && t.answers == s.answers + [Answer(id, EndOf(r))]
    && t.senders == s.senders && Sends(t) == Sends(s) && id !in t.waiters
  }

  /** Every outcome of the waiting call is reached by an interleaving of reader, waiter and stop steps. */
  lemma {:induction false} AwaitIsARun(s: State, id: nat, turns: seq<S.Turn>) returns (steps: seq<Step>)
    requires Free(s) && id in s.waiters
    ensures Answered(s, RunFrom(s, steps), id, s.waiters[id].kind, turns)
    decreases |turns|
  {
    var k := s.waiters[id].kind;
    var now := if turns == [] then S.Turn([], false, true) else turns[0];
    var arriving := DeliverAll(s, now.arrived);
    var t := RunFrom(s, arriving);
    var looking := LookOnce(t, id, now.stopped, now.expired);
    RunFromAppend(s, arriving, looking);
    steps := arriving + looking;
    if Look(t.store, k, now.stopped, now.expired).Nothing? {
      var rest := AwaitIsARun(RunFrom(t, looking), id, turns[1..]);
      RunFromAppend(s, steps, rest);
      steps := steps + rest;
    }
  }

  /** The event a call logs for one of its waits. */
  function EventOf(k: Kind, r: S.Awaited): S.Event {
    match r
    case Got(packet) => S.Received(packet)
    case Closed => S.Lost(k)
    case TimedOut => S.GaveUp(k)
  }

  lemma WaitIsARun(s: State, id: nat, k: Kind, turns: seq<S.Turn>) returns (steps: seq<Step>)
    requires Callable(s, id)
    ensures var (store, stop, r) := S.Await(s.store, false, k, turns);
            && Carried(s, RunFrom(s, steps), id, store, stop, [EventOf(k, r)])
            && (stop ==> Stopping(RunFrom(s, steps)))
  {
    var call := AwaitCall(id, k);
    var t := s.(waiters := s.waiters[id := Ready(k)]);
    RunOne(s, call);
    var rest := AwaitIsARun(t, id, turns);
    RunFromAppend(s, [call], rest);
    steps := [call] + rest;
    OneEvent(id, EventOf(k, S.Await(s.store, false, k, turns).2));
  }

  /** What has arrived when a wait looks for the first time. */
  function FirstBatch(turns: seq<S.Turn>): seq<Payload> {
    if turns == [] then [] else turns[0].arrived
  }

  /** A wait that begins after a stop was requested sees at most one more packet, and ends at its first look. */
  lemma LastWaitIsARun(s: State, id: nat, k: Kind, turns: seq<S.Turn>) returns (steps: seq<Step>)
    requires Stopping(s) && id !in s.waiters && id !in s.senders && |FirstBatch(turns)| <= 1
    ensures var (store, stop, r) := S.Await(s.store, true, k, turns);
            stop && Carried(s, RunFrom(s, steps), id, store, stop, [EventOf(k, r)])
  {
    var batch, arriving := FirstBatch(turns), [];
    if |batch| == 1 {
      arriving := DeliverFromBus(s, batch[0]);
      assert EnqueueAll(s.store, batch) == EnqueueAll(Enqueue(s.store, batch[0]), batch[1..]) && batch[1..] == [];
    }
    var t := RunFrom(s, arriving);
    assert t.store == EnqueueAll(s.store, batch);
    var waiting := t.(waiters := t.waiters[id := Ready(k)]);
    var calls := [AwaitCall(id, k), Check(id, false)];
    RunTwo(t, AwaitCall(id, k), Check(id, false));
    assert Next(t, AwaitCall(id, k)) == waiting;
    RunFromAppend(s, arriving, calls);
    steps := arriving + calls;
    OneEvent(id, EventOf(k, S.Await(s.store, true, k, turns).2));
  }

  /** A wait can follow now: freely, or as the last one after a stop request. */
  predicate Awaitable(s: State, id: nat, turns: seq<S.Turn>) {
    id !in s.waiters && id !in s.senders && (Free(s) || (Stopping(s) && |FirstBatch(turns)| <= 1))
  }

  lemma EitherWaitIsARun(s: State, id: nat, k: Kind, turns: seq<S.Turn>) returns (steps: seq<Step>)
    requires Awaitable(s, id, turns)
    ensures var (store, stop, r) := S.Await(s.store, s.stop, k, turns);
            Carried(s, RunFrom(s, steps), id, store, stop, [EventOf(k, r)])
  {
    if s.stop {
      steps := LastWaitIsARun(s, id, k, turns);
    } else {
      steps := WaitIsARun(s, id, k, turns);
    }
  }

  lemma OneEvent(id: nat, e: S.Event)
    ensures Count([e], S.IsWrite) == if e.Wrote? then 1 else 0
    ensures e.Received? ==> AnswersOf(id, [e]) == [Answer(id, Taken(e.packet))]
    ensures e.Lost? ==> AnswersOf(id, [e]) == [Answer(id, Stopped)]
    ensures e.GaveUp? ==> AnswersOf(id, [e]) == [Answer(id, Expired)]
    ensures e.Wrote? || e.Suppress? || e.Decrypted? ==> AnswersOf(id, [e]) == []
  {
    assert [e][..0] == [];
  }

  // ---- writing and draining -------------------------------------------------------------------

  lemma DrainIsARun(s: State, id: nat, k: Kind)
    requires Callable(s, id)
    ensures Carried(s, RunFrom(s, [DrainCmd(k)]), id, DrainKind(s.store, k), false, [])
  {
    RunOne(s, DrainCmd(k));
  }

  /** A write takes the bus, sends header and payload, or fails after the header, and releases the bus. */
  lemma WriteIsARun(s: State, id: nat, payload: Bytes, ok: bool) returns (steps: seq<Step>)
    requires Callable(s, id)
    ensures Carried(s, RunFrom(s, steps), id, s.store, false, [S.Wrote(payload)])
  {
    var taken := s.(senders := s.senders[id := AtHeader], bus := Take(s.bus, Sender(id), Write(id, 0)));
    var header := Next(taken, Send(id, ok));
    RunThree(s, Acquire(id), Send(id, ok), Send(id, true));
    OneEvent(id, S.Wrote(payload));
    if ok {
      RunFromAppend(s, [Acquire(id), Send(id, ok), Send(id, true)], [Send(id, true)]);
      steps := [Acquire(id), Send(id, ok), Send(id, true)] + [Send(id, true)];
      var sent := Next(header, Send(id, true));
      RunOne(sent, Send(id, true));
      SendCounted(s, sent, id, 2);
    } else {
      steps := [Acquire(id), Send(id, ok), Send(id, true)];
      SendCounted(s, header, id, 1);
    }
  }

  lemma SendCounted(s: State, t: State, id: nat, parts: nat)
    requires Callable(s, id)
    requires id in t.senders && t.senders[id] == AtRelease(parts)
    requires t.bus.current == Some(Write(id, parts)) && t.bus.done == s.bus.done
    requires t.(senders := s.senders, bus := s.bus) == s
    ensures var u := Next(t, Send(id, true));
            && Free(u) && Sends(u) == Sends(s) + 1 && id !in u.senders
            && u.(senders := s.senders, bus := s.bus) == s
  {
    CountAppend(s.bus.done, [Write(id, parts)], IsSend);
    assert [Write(id, parts)][..0] == [];
  }

  lemma SuppressIsARun(s: State, id: nat, turns: seq<S.Turn>)
    requires Awaitable(s, id, turns)
    ensures var t := RunFrom(s, [SetSuppress(true), SetSuppress(false)]);
            && Carried(s, t, id, s.store, s.stop, [S.Suppress(true), S.Suppress(false)])
            && Awaitable(t, id, turns)
  {
    RunTwo(s, SetSuppress(true), SetSuppress(false));
    OneEvent(id, S.Suppress(true));
    OneEvent(id, S.Suppress(false));
    AnswersAppend(id, [S.Suppress(true)], [S.Suppress(false)]);
    CountAppend([S.Suppress(true)], [S.Suppress(false)], S.IsWrite);
    assert [S.Suppress(true)] + [S.Suppress(false)] == [S.Suppress(true), S.Suppress(false)];
  }

  // ---- whole calls --------------------------------------------------------------------------------

  lemma SubmitIsARun(s: State, id: nat, payload: Bytes, e: S.Submit) returns (steps: seq<Step>)
    requires Callable(s, id)
    ensures var a := S.AckOnce(s.store, false, payload, e);
            Carried(s, RunFrom(s, steps), id, a.st, a.stop, a.log) && (a.stop ==> Stopping(RunFrom(s, steps)))
  {
    steps := WriteIsARun(s, id, payload, e.writeOk);
    if e.writeOk {
      var t := RunFrom(s, steps);
      var waiting := WaitIsARun(t, id, S.ACK, e.turns);
      RunFromAppend(s, steps, waiting);
      var (store, stop, r) := S.Await(s.store, false, S.ACK, e.turns);
      CarriedOn(s, t, RunFrom(t, waiting), id, store, stop, [S.Wrote(payload)], [EventOf(S.ACK, r)]);
      assert [S.Wrote(payload)] + [EventOf(S.ACK, r)] == [S.Wrote(payload), EventOf(S.ACK, r)];
      steps := steps + waiting;
    }
  }

  lemma AckAttemptsRun(s: State, id: nat, payload: Bytes, mark: nat, env: nat -> S.Submit, attempt: nat)
    returns (steps: seq<Step>)
    requires Callable(s, id) && 1 <= attempt <= 2
    ensures var o := S.AckAttempts(s.store, false, payload, mark, env, attempt);
            Carried(s, RunFrom(s, steps), id, o.st, o.stop, o.log) && (o.stop ==> Stopping(RunFrom(s, steps)))
    decreases 2 - attempt
  {
    var a := S.AckOnce(s.store, false, payload, env(attempt));
    steps := SubmitIsARun(s, id, payload, env(attempt));
    if a.result.None? && attempt == 1 {
      TimeoutIsNoStop(s.store, payload, env(1));
      var t := RunFrom(s, steps);
      var rest := AckAttemptsRun(t, id, payload, mark, env, 2);
      RunFromAppend(s, steps, rest);
      var o := S.AckAttempts(a.st, a.stop, payload, mark, env, 2);
      CarriedOn(s, t, RunFrom(t, rest), id, o.st, o.stop, a.log, o.log);
      steps := steps + rest;
    }
  }

  lemma TimeoutIsNoStop(st: Store, payload: Bytes, e: S.Submit)
    ensures var a := S.AckOnce(st, false, payload, e); a.result.None? ==> !a.stop
  {
    S.AwaitLeavesNothing(st, false, S.ACK, e.turns);
  }

  /** An acknowledged submit with all its resends. */
  lemma SendAckIsARun(s: State, id: nat, payload: Bytes, env: nat -> S.Submit) returns (steps: seq<Step>)
    requires Callable(s, id)
    ensures var o := S.SendAck(s.store, false, payload, env);
            Carried(s, RunFrom(s, steps), id, o.st, o.stop, o.log) && (o.stop ==> Stopping(RunFrom(s, steps)))
  {
    var drain := [DrainCmd(S.ACK)];
    DrainIsARun(s, id, S.ACK);
    var t := RunFrom(s, drain);
    var rest := AckAttemptsRun(t, id, payload, |s.store.arrivals|, env, 1);
    RunFromAppend(s, drain, rest);
    steps := drain + rest;
    var o := S.SendAck(s.store, false, payload, env);
    CarriedOn(s, t, RunFrom(t, rest), id, o.st, o.stop, [], o.log);
    assert [] + o.log == o.log;
  }

  /** An accepted ACK or a timeout leaves the listener running. */
  lemma {:induction false} AckedIsNoStop(st: Store, payload: Bytes, mark: nat, env: nat -> S.Submit, attempt: nat)
    requires 1 <= attempt <= 2
    ensures var o := S.AckAttempts(st, false, payload, mark, env, attempt); o.result.Acked? && o.stop ==> Stops(env)
    decreases 2 - attempt
  {
    var a := S.AckOnce(st, false, payload, env(attempt));
    if a.result.None? && attempt == 1 {
      TimeoutIsNoStop(st, payload, env(1));
      AckedIsNoStop(a.st, payload, mark, env, 2);
    }
    if a.result.Some? && a.result.value.Acked? && a.stop {
      AwaitStops(st, S.ACK, env(attempt).turns);
    }
  }

  /** A stop was requested during one of the waits of a submit. */
  ghost predicate Stops(env: nat -> S.Submit) {
    exists n: nat :: StopIn(env(n).turns)
  }

  ghost predicate StopIn(turns: seq<S.Turn>) {
    exists i | 0 <= i < |turns| :: turns[i].stopped
  }

  lemma {:induction false} AwaitStops(st: Store, k: Kind, turns: seq<S.Turn>)
    ensures S.Await(st, false, k, turns).1 ==> StopIn(turns)
    decreases |turns|
  {
    if turns != [] {
      if turns[0].stopped {
      } else {
        var seen := EnqueueAll(st, turns[0].arrived);
        AwaitStops(seen, k, turns[1..]);
        if StopIn(turns[1..]) {
          var i :| 0 <= i < |turns| - 1 && turns[1..][i].stopped;
          assert turns[i + 1].stopped;
        }
      }
    }
  }

  /** Where a stop is requested during the submit, at most one more packet arrives before the response is looked for. */
  ghost predicate OneLate(e: S.Request) {
    Stops(e.submits) ==> |FirstBatch(e.turns)| <= 1
  }

  /** One attempt at a command. */
  lemma RequestIsARun(s: State, id: nat, payload: Bytes, k: Kind, e: S.Request) returns (steps: seq<Step>)
    requires Callable(s, id) && OneLate(e)
    ensures var a := S.CommandOnce(s.store, false, payload, k, e);
            Carried(s, RunFrom(s, steps), id, a.st, a.stop, a.log) && (a.result.None? ==> !a.stop)
  {
    var sent := S.SendAck(DrainKind(s.store, k), false, payload, e.submits);
    steps := DrainedSubmitIsARun(s, id, payload, k, e);
    if sent.result.Acked? {
      var t := RunFrom(s, steps);
      var (store, stop, r) := S.Await(sent.st, sent.stop, k, e.turns);
      var waiting := EitherWaitIsARun(t, id, k, e.turns);
      RunFromAppend(s, steps, waiting);
      CarriedOn(s, t, RunFrom(t, waiting), id, store, stop, sent.log, [EventOf(k, r)]);
      S.AwaitLeavesNothing(sent.st, sent.stop, k, e.turns);
      steps := steps + waiting;
    }
  }

  lemma DrainedSubmitIsARun(s: State, id: nat, payload: Bytes, k: Kind, e: S.Request) returns (steps: seq<Step>)
    requires Callable(s, id) && OneLate(e)
    ensures var o := S.SendAck(DrainKind(s.store, k), false, payload, e.submits);
            && Carried(s, RunFrom(s, steps), id, o.st, o.stop, o.log)
            && (o.result.Acked? ==> Awaitable(RunFrom(s, steps), id, e.turns))
  {
    DrainIsARun(s, id, k);
    var t := RunFrom(s, [DrainCmd(k)]);
    var sending := SendAckIsARun(t, id, payload, e.submits);
    var o := S.SendAck(t.store, false, payload, e.submits);
    RunFromAppend(s, [DrainCmd(k)], sending);
    CarriedOn(s, t, RunFrom(t, sending), id, o.st, o.stop, [], o.log);
    assert [] + o.log == o.log;
    AckedIsNoStop(DrainKind(t.store, S.ACK), payload, |t.store.arrivals|, e.submits, 1);
    steps := [DrainCmd(k)] + sending;
  }

  /** A whole command with both retry levels. */
  lemma {:induction false} CommandIsARun(s: State, id: nat, payload: Bytes, k: Kind, env: nat -> S.Request,
                                         attempt: nat)
    returns (steps: seq<Step>)
    requires Callable(s, id) && 1 <= attempt <= 2 && forall n: nat :: OneLate(env(n))
    ensures var o := S.Command(s.store, false, payload, k, env, attempt);
            Carried(s, RunFrom(s, steps), id, o.st, o.stop, o.log)
    decreases 2 - attempt
  {
    var a := S.CommandOnce(s.store, false, payload, k, env(attempt));
    steps := RequestIsARun(s, id, payload, k, env(attempt));
    if a.result.None? && attempt == 1 {
      var t := RunFrom(s, steps);
      var rest := CommandIsARun(t, id, payload, k, env, 2);
      RunFromAppend(s, steps, rest);
      var o := S.Command(a.st, false, payload, k, env, 2);
      CarriedOn(s, t, RunFrom(t, rest), id, o.st, o.stop, a.log, o.log);
      steps := steps + rest;
    }
  }

  /** The decryption of a record is no step of the listener. */
  lemma OpeningIsNoStep(s: State, t: State, id: nat, st: Store, stop: bool, log: seq<S.Event>, record: Packet)
    requires Carried(s, t, id, st, stop, log)
    ensures Carried(s, t, id, st, stop, log + [S.Decrypted(record)])
  {
    OneEvent(id, S.Decrypted(record));
    AnswersAppend(id, log, [S.Decrypted(record)]);
    CountAppend(log, [S.Decrypted(record)], S.IsWrite);
  }

  /** The silent readout and the wait for the record. */
  lemma RecordIsARun(s: State, id: nat, turns: seq<S.Turn>, decrypt: Bytes -> Option<Bytes>) returns (steps: seq<Step>)
    requires Awaitable(s, id, turns)
    ensures var a := S.RecordOnce(s.store, s.stop, turns, decrypt);
            && Carried(s, RunFrom(s, steps), id, a.st, a.stop, S.QuietLog([]) + a.log)
            && (a.result.None? ==> !a.stop)
  {
    var quiet := [SetSuppress(true), SetSuppress(false)];
    SuppressIsARun(s, id, turns);
    var t := RunFrom(s, quiet);
    var waiting := EitherWaitIsARun(t, id, S.IMAGE_RECORD, turns);
    RunFromAppend(s, quiet, waiting);
    steps := quiet + waiting;
    var (store, stop, r) := S.Await(s.store, s.stop, S.IMAGE_RECORD, turns);
    S.AwaitLeavesNothing(s.store, s.stop, S.IMAGE_RECORD, turns);
    var heard := [EventOf(S.IMAGE_RECORD, r)];
    assert S.QuietLog([]) == [S.Suppress(true), S.Suppress(false)];
    CarriedOn(s, t, RunFrom(t, waiting), id, store, stop, S.QuietLog([]), heard);
    if r.Got? {
      OpeningIsNoStep(s, RunFrom(s, steps), id, store, stop, S.QuietLog([]) + heard, r.packet);
      Associative(S.QuietLog([]), heard, [S.Decrypted(r.packet)]);
      assert heard + [] == heard;
    }
  }

  /** One attempt at an image. */
  lemma ImageIsARun(s: State, id: nat, payload: Bytes, e: S.Request, decrypt: Bytes -> Option<Bytes>)
    returns (steps: seq<Step>)
    requires Callable(s, id) && OneLate(e)
    ensures var a := S.CaptureOnce(s.store, false, payload, e, decrypt);
            Carried(s, RunFrom(s, steps), id, a.st, a.stop, a.log) && (a.result.None? ==> !a.stop)
  {
    var sent := S.SendAck(DrainKind(s.store, S.IMAGE_RECORD), false, payload, e.submits);
    steps := DrainedSubmitIsARun(s, id, payload, S.IMAGE_RECORD, e);
    if sent.result.Acked? {
      var t := RunFrom(s, steps);
      var a := S.RecordOnce(sent.st, sent.stop, e.turns, decrypt);
      var opening := RecordIsARun(t, id, e.turns, decrypt);
      RunFromAppend(s, steps, opening);
      CarriedOn(s, t, RunFrom(t, opening), id, a.st, a.stop, sent.log, S.QuietLog([]) + a.log);
      QuietMoves(sent.log, a.log);
      steps := steps + opening;
    }
  }

  lemma QuietMoves(log: seq<S.Event>, rest: seq<S.Event>)
    ensures log + (S.QuietLog([]) + rest) == S.QuietLog(log) + rest
  {
  }

  /** A whole image capture with both retry levels. */
  lemma {:induction false} CaptureIsARun(s: State, id: nat, payload: Bytes, env: nat -> S.Request,
                                         decrypt: Bytes -> Option<Bytes>, attempt: nat) returns (steps: seq<Step>)
    requires Callable(s, id) && 1 <= attempt <= 2 && forall n: nat :: OneLate(env(n))
    ensures var o := S.Capture(s.store, false, payload, env, decrypt, attempt);
            Carried(s, RunFrom(s, steps), id, o.st, o.stop, o.log)
    decreases 2 - attempt
  {
    var a := S.CaptureOnce(s.store, false, payload, env(attempt), decrypt);
    steps := ImageIsARun(s, id, payload, env(attempt), decrypt);
    if a.result.None? && attempt == 1 {
      var t := RunFrom(s, steps);
      var rest := CaptureIsARun(t, id, payload, env, decrypt, 2);
      RunFromAppend(s, steps, rest);
      var o := S.Capture(a.st, false, payload, env, decrypt, 2);
      CarriedOn(s, t, RunFrom(t, rest), id, o.st, o.stop, a.log, o.log);
      steps := steps + rest;
    }
  }

  // ---- after any run --------------------------------------------------------------------------------

  /** Any run that leaves a caller free can be continued by the whole wait, and stays one of the interleavings. */
  lemma WaitAfterAnyRun(past: seq<Step>, id: nat, k: Kind, turns: seq<S.Turn>) returns (more: seq<Step>)
    requires Callable(Run(past), id)
    ensures var s := Run(past);
            var (store, stop, r) := S.Await(s.store, false, k, turns);
            Carried(s, Run(past + more), id, store, stop, [EventOf(k, r)]) && Invariant(Run(past + more))
  {
    more := WaitIsARun(Run(past), id, k, turns);
    RunContinues(past, more);
    RunInvariant(past + more);
  }

  /** The same for an acknowledged submit. */
  lemma SendAckAfterAnyRun(past: seq<Step>, id: nat, payload: Bytes, env: nat -> S.Submit) returns (more: seq<Step>)
    requires Callable(Run(past), id)
    ensures var s := Run(past);
            var o := S.SendAck(s.store, false, payload, env);
            Carried(s, Run(past + more), id, o.st, o.stop, o.log) && Invariant(Run(past + more))
  {
    more := SendAckIsARun(Run(past), id, payload, env);
    RunContinues(past, more);
    RunInvariant(past + more);
  }

  /** And for a command, where at most one packet arrives after a stop request in its submit; no run allows more. */
  lemma CommandAfterAnyRun(past: seq<Step>, id: nat, payload: Bytes, k: Kind, env: nat -> S.Request)
    returns (more: seq<Step>)
    requires Callable(Run(past), id) && forall n: nat :: OneLate(env(n))
    ensures var s := Run(past);
            var o := S.Command(s.store, false, payload, k, env);
            Carried(s, Run(past + more), id, o.st, o.stop, o.log) && Invariant(Run(past + more))
  {
    more := CommandIsARun(Run(past), id, payload, k, env, 1);
    RunContinues(past, more);
    RunInvariant(past + more);
  }

  /** And for an image capture, under the same condition. */
  lemma CaptureAfterAnyRun(past: seq<Step>, id: nat, payload: Bytes, env: nat -> S.Request,
                           decrypt: Bytes -> Option<Bytes>) returns (more: seq<Step>)
    requires Callable(Run(past), id) && forall n: nat :: OneLate(env(n))
    ensures var s := Run(past);
            var o := S.Capture(s.store, false, payload, env, decrypt);
            Carried(s, Run(past + more), id, o.st, o.stop, o.log) && Invariant(Run(past + more))
  {
    more := CaptureIsARun(Run(past), id, payload, env, decrypt, 1);
    RunContinues(past, more);
    RunInvariant(past + more);
  }
}

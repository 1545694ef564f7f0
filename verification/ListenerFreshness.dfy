/** What a drain and a stop request mean in every interleaving, whatever the other threads do. */
module ListenerFreshness {
  import opened Common
  import opened L = ListenerSteps
  import opened Queues
  import S = SenderSpec

  // ---- steps and prefixes ----------------------------------------------------------

  lemma RunPrefix(steps: seq<Step>, j: nat)
    requires j < |steps|
    ensures Run(steps[..j + 1]) == Next(Run(steps[..j]), steps[j])
  {
    assert steps[..j + 1][..j] == steps[..j];
  }

  // ---- a drained queue stays fresh ---------------------------------------------------

  /** This step empties the queue of that kind. */
  predicate Drains(step: Step, k: Kind) {
    step == DrainCmd(k) || step.DrainAll?
  }

  lemma EnqueueFresh(st: Store, p: Payload, k: Kind, mark: nat)
    requires S.FreshFrom(st, k, mark)
    ensures S.FreshFrom(Enqueue(st, p), k, mark)
  {
  }

  lemma CheckFresh(s: State, id: nat, expired: bool, k: Kind, mark: nat)
    requires S.FreshFrom(s.store, k, mark)
    ensures S.FreshFrom(CheckNext(s, id, expired).store, k, mark)
  {
  }

  lemma DrainFresh(st: Store, step: Step, k: Kind, mark: nat)
    requires Valid(st) && (step.DrainCmd? || step.DrainAll?)
    requires S.FreshFrom(st, k, mark) || (Drains(step, k) && mark == |st.arrivals|)
    ensures S.FreshFrom(if step.DrainAll? then DrainFrom(st, 0) else DrainKind(st, step.kind), k, mark)
  {
    DrainKeeps(st, step);
  }

  lemma DrainKeeps(st: Store, step: Step)
    requires Valid(st) && (step.DrainCmd? || step.DrainAll?)
    ensures (if step.DrainAll? then DrainFrom(st, 0) else DrainKind(st, step.kind)).arrivals == st.arrivals
  {
    if step.DrainAll? {
      DrainFromValid(st, 0);
    } else {
      DrainKindValid(st, step.kind);
    }
  }

  /** These steps concern neither the queues nor the reader, and answer nobody. */
  predicate Aside(step: Step) {
    step.Acquire? || step.Send? || step.AwaitCall? || step.Wake? || step.SetSuppress? || step.RequestStop?
  }

  lemma AsideFrame(s: State, step: Step)
    requires Aside(step)
    ensures var t := Next(s, step);
            && t.store == s.store && t.reader == s.reader && t.answers == s.answers && (s.stop ==> t.stop)
            && forall id | id in s.waiters :: id in t.waiters && t.waiters[id].kind == s.waiters[id].kind
  {
    if step.Send? {
      SendFrame(s, step.id, step.ok);
    }
  }

  lemma StepFresh(s: State, step: Step, k: Kind, mark: nat)
    requires Valid(s.store)
    requires S.FreshFrom(s.store, k, mark) || (Drains(step, k) && mark == |s.store.arrivals|)
    ensures S.FreshFrom(Next(s, step).store, k, mark)
  {
    if Aside(step) {
      AsideFrame(s, step);
    } else if step.ReaderStep? {
      ReaderFresh(s, step.woken, step.lineHigh, step.move, k, mark);
    } else if step.Check? {
      CheckFresh(s, step.id, step.expired, k, mark);
    } else {
      DrainFresh(s.store, step, k, mark);
    }
  }

  lemma ReaderFresh(s: State, woken: bool, lineHigh: bool, move: Move, k: Kind, mark: nat)
    requires S.FreshFrom(s.store, k, mark)
    ensures S.FreshFrom(ReaderNext(s, woken, lineHigh, move).store, k, mark)
  {
    match s.reader
    case Holding(p) => EnqueueFresh(s.store, p, k, mark);
    case Reading(h, c) => ReadFrame(s, h, c, move);
    case _ =>
  }

  lemma RunFresh(steps: seq<Step>, j: nat, k: Kind, mark: nat)
    requires j < |steps|
    requires var st := Run(steps[..j]).store;
             S.FreshFrom(st, k, mark) || (Drains(steps[j], k) && mark == |st.arrivals|)
    ensures S.FreshFrom(Run(steps[..j + 1]).store, k, mark)
  {
    RunInvariant(steps[..j]);
    RunPrefix(steps, j);
    StepFresh(Run(steps[..j]), steps[j], k, mark);
  }

  /** From a drain on, the queue holds nothing that arrived before it. */
  lemma DrainedStaysFresh(steps: seq<Step>, i: nat, j: nat, k: Kind)
    requires i < j <= |steps| && Drains(steps[i], k)
    ensures S.FreshFrom(Run(steps[..j]).store, k, |Run(steps[..i]).store.arrivals|)
  {
    var mark := |Run(steps[..i]).store.arrivals|;
    var newer := seq(j + 1, m requires 0 <= m <= j => S.FreshFrom(Run(steps[..m]).store, k, mark));
    RunFresh(steps, i, k, mark);
    forall m: nat | m < j && newer[m] ensures newer[m + 1] {
      RunFresh(steps, m, k, mark);
    }
    Onwards(newer, i + 1, j);
  }

  lemma {:induction false} Onwards(holds: seq<bool>, i: nat, j: nat)
    requires i <= j < |holds| && holds[i]
    requires forall m: nat | m < j && holds[m] :: holds[m + 1]
    ensures holds[j]
    decreases j
  {
    if i < j {
      Onwards(holds, i, j - 1);
    }
  }

  /** This step gave a waiting thread a packet. */
  predicate Hands(s: State, t: State, id: nat, packet: Packet) {
    t.answers == s.answers + [Answer(id, Taken(packet))]
  }

  /**
    In every interleaving a packet that any thread takes is newer than every earlier drain of its kind, whoever
    drained and whatever happened in between.
   */
  lemma TakenIsFresh(steps: seq<Step>, i: nat, j: nat, id: nat, packet: Packet)
    requires i < j < |steps| && Drains(steps[i], packet.payload[0])
    requires Hands(Run(steps[..j]), Run(steps[..j + 1]), id, packet)
    ensures packet.stamp >= |Run(steps[..i]).store.arrivals|
  {
    RunPrefix(steps, j);
    RunInvariant(steps[..j]);
    DrainedStaysFresh(steps, i, j, packet.payload[0]);
    HandsHead(Run(steps[..j]), steps[j], id, packet);
  }

  /** A packet is only handed out from the head of its own queue, to the thread that waits for that kind. */
  lemma HandsHead(s: State, step: Step, id: nat, packet: Packet)
    requires Valid(s.store) && Hands(s, Next(s, step), id, packet)
    ensures var k := packet.payload[0];
            id in s.waiters && s.waiters[id] == Ready(k) && s.store.queues[k] != [] && s.store.queues[k][0] == packet
  {
    assert |Next(s, step).answers| > |s.answers|;
    if Aside(step) {
      AsideFrame(s, step);
    } else if step.ReaderStep? {
      ReaderAnswersNobody(s, step.woken, step.lineHigh, step.move);
    } else if step.Check? {
      CheckHands(s, step.id, step.expired, id, packet);
    }
  }

  lemma CheckHands(s: State, waiter: nat, expired: bool, id: nat, packet: Packet)
    requires Valid(s.store) && Hands(s, CheckNext(s, waiter, expired), id, packet)
    ensures var k := packet.payload[0];
            id in s.waiters && s.waiters[id] == Ready(k) && s.store.queues[k] != [] && s.store.queues[k][0] == packet
  {
    assert CheckNext(s, waiter, expired).answers[|s.answers|] == Answer(id, Taken(packet));
    Own(s.store, s.waiters[id].kind);
  }

  lemma ReaderAnswersNobody(s: State, woken: bool, lineHigh: bool, move: Move)
    ensures ReaderNext(s, woken, lineHigh, move).answers == s.answers
  {
    if s.reader.Reading? {
      ReadFrame(s, s.reader.headers, s.reader.chunks, move);
    }
  }

  // ---- a call in any interleaving --------------------------------------------------------

  /** What this thread waits for, if it does. */
  function WaitsFor(s: State, id: nat): Option<Kind> {
    if id in s.waiters then Some(s.waiters[id].kind) else None
  }

  /** The same at every position of a run up to this one. */
  function Waits(steps: seq<Step>, id: nat, n: nat): (w: seq<Option<Kind>>)
    requires n <= |steps|
    ensures |w| == n + 1 && forall m: nat | m <= n :: w[m] == WaitsFor(Run(steps[..m]), id)
  {
    seq(n + 1, m requires 0 <= m <= n => WaitsFor(Run(steps[..m]), id))
  }

  /** This thread waits at every position from one to another. */
  ghost predicate WaitsFrom(waits: seq<Option<Kind>>, first: nat, last: nat) {
    last < |waits| && forall m | first <= m <= last :: waits[m].Some?
  }

  lemma RunKeepsKind(steps: seq<Step>, j: nat, id: nat)
    requires j < |steps|
    ensures var now, next := WaitsFor(Run(steps[..j]), id), WaitsFor(Run(steps[..j + 1]), id);
            now.Some? && next.Some? ==> now == next
  {
    RunPrefix(steps, j);
    var s := Run(steps[..j]);
    if id in s.waiters && id in Next(s, steps[j]).waiters {
      StepKeepsKind(s, steps[j], id);
    }
  }

  lemma WaitKeepsKind(steps: seq<Step>, id: nat, first: nat, last: nat)
    requires first <= last <= |steps| && WaitsFrom(Waits(steps, id, last), first, last)
    ensures Waits(steps, id, last)[first] == Waits(steps, id, last)[last]
  {
    var w := Waits(steps, id, last);
    forall m: nat | m < last && w[m].Some? && w[m + 1].Some? ensures w[m] == w[m + 1] {
      RunKeepsKind(steps, m, id);
    }
    Constant(w, first, last);
  }

  lemma {:induction false} Constant(w: seq<Option<Kind>>, first: nat, last: nat)
    requires first <= last && WaitsFrom(w, first, last)
    requires forall m: nat | m < last && w[m].Some? && w[m + 1].Some? :: w[m] == w[m + 1]
    ensures w[first] == w[last]
    decreases last
  {
    if first < last {
      Constant(w, first, last - 1);
    }
  }

  lemma StepKeepsKind(s: State, step: Step, id: nat)
    requires id in s.waiters && id in Next(s, step).waiters
    ensures Next(s, step).waiters[id].kind == s.waiters[id].kind
  {
    if Aside(step) {
      AsideFrame(s, step);
    } else if step.ReaderStep? && s.reader.Reading? {
      ReadFrame(s, s.reader.headers, s.reader.chunks, step.move);
    }
  }

  lemma CalledFor(steps: seq<Step>, id: nat, k: Kind, call: nat)
    requires call < |steps| && steps[call] == AwaitCall(id, k) && id !in Run(steps[..call]).waiters
    ensures WaitsFor(Run(steps[..call + 1]), id) == Some(k)
  {
    RunPrefix(steps, call);
  }

  lemma HandedFor(steps: seq<Step>, j: nat, id: nat, packet: Packet)
    requires j < |steps| && Hands(Run(steps[..j]), Run(steps[..j + 1]), id, packet)
    ensures WaitsFor(Run(steps[..j]), id) == Some(packet.payload[0])
  {
    RunPrefix(steps, j);
    RunInvariant(steps[..j]);
    HandsHead(Run(steps[..j]), steps[j], id, packet);
  }

  /**
    For every interleaving in which one thread drains a kind, later calls for it and waits until it is handed a
    packet: that packet is of the kind asked for and arrived after the drain. This is the ACK of a submit and the
    response of a command, with everything else of the call, and every other thread, anywhere in between.
   */
  lemma CallIsFresh(steps: seq<Step>, id: nat, k: Kind, drain: nat, call: nat, check: nat, packet: Packet)
    requires drain < call < check < |steps| && Drains(steps[drain], k)
    requires steps[call] == AwaitCall(id, k) && id !in Run(steps[..call]).waiters
    requires WaitsFrom(Waits(steps, id, check), call + 1, check)
    requires Hands(Run(steps[..check]), Run(steps[..check + 1]), id, packet)
    ensures packet.payload[0] == k && packet.stamp >= |Run(steps[..drain]).store.arrivals|
  {
    CalledFor(steps, id, k, call);
    WaitKeepsKind(steps, id, call + 1, check);
    HandedFor(steps, check, id, packet);
    TakenIsFresh(steps, drain, check, id, packet);
  }

  // ---- after a stop request ------------------------------------------------------------------

  /** The reader is past its check of the stop flag, so it may still deliver one packet. */
  function PastStop(reader: ReaderPc): nat {
    if reader.Polling? || reader.AtStop? || reader.Exited? then 0 else 1
  }

  lemma StepAfterStop(s: State, step: Step)
    requires s.stop && Valid(s.store)
    ensures var t := Next(s, step);
            t.stop && |t.store.arrivals| + PastStop(t.reader) <= |s.store.arrivals| + PastStop(s.reader)
  {
    if Aside(step) {
      AsideFrame(s, step);
    } else if step.ReaderStep? {
      ReaderAfterStop(s, step.woken, step.lineHigh, step.move);
    } else if step.Check? {
      CheckFrame(s, step.id, step.expired);
    } else {
      DrainKeeps(s.store, step);
    }
  }

  lemma ReaderAfterStop(s: State, woken: bool, lineHigh: bool, move: Move)
    requires s.stop
    ensures var t := ReaderNext(s, woken, lineHigh, move);
            t.stop && |t.store.arrivals| + PastStop(t.reader) <= |s.store.arrivals| + PastStop(s.reader)
  {
    match s.reader
    case Reading(h, c) => ReadFrame(s, h, c, move);
    case _ =>
  }

  lemma {:induction false} StoppedFrom(steps: seq<Step>, i: nat, j: nat)
    requires i < j <= |steps| && steps[i].RequestStop?
    ensures var s, t := Run(steps[..i]), Run(steps[..j]);
            t.stop && |t.store.arrivals| + PastStop(t.reader) <= |s.store.arrivals| + PastStop(s.reader)
    decreases j
  {
    RunPrefix(steps, j - 1);
    if i < j - 1 {
      StoppedFrom(steps, i, j - 1);
      RunInvariant(steps[..j - 1]);
      StepAfterStop(Run(steps[..j - 1]), steps[j - 1]);
    }
  }

  /** In every interleaving at most one packet arrives after a stop request. */
  lemma OnePacketAfterStop(steps: seq<Step>, i: nat, j: nat)
    requires i < j <= |steps| && steps[i].RequestStop?
    ensures |Run(steps[..j]).store.arrivals| <= |Run(steps[..i]).store.arrivals| + 1
  {
    StoppedFrom(steps, i, j);
  }
}

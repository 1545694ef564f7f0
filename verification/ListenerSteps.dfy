/** The listener as a state machine over atomic steps: reader, senders, waiters, drains and flags, in any order. */
module ListenerSteps {
  import opened Common
  import opened Queues

  const HEADER_ATTEMPTS: nat := 4

  // ---- state ---------------------------------------------------------------------

  datatype Actor = Reader | Sender(id: nat)

  datatype BusOp = HeaderIn(who: Actor) | PayloadIn(who: Actor) | HeaderOut(who: Actor) | PayloadOut(who: Actor)

  /** Where the reader thread is in its loop; AtLine and AtBus are past the suppress check. */
  datatype ReaderPc =
    | Polling
    | AtStop
    | AtSuppress
    | AtLine
    | AtBus
    | Reading(headers: nat, chunks: nat)
    | Holding(payload: Payload)
    | Exited

  datatype SenderPc = AtHeader | AtPayload | AtRelease(parts: nat)

  datatype Waiter = Ready(kind: Kind) | Asleep(kind: Kind)

  /** One exclusive use of the bus, as far as it got. */
  datatype Transaction = Read(headers: nat, chunks: nat) | Write(id: nat, parts: nat)

  datatype Flag = SuppressSet(on: bool) | ReadBegun

  datatype Bus = Bus(owner: Option<Actor>, trace: seq<BusOp>, done: seq<Transaction>, current: Option<Transaction>)

  /** How a wait ended. */
  datatype Answer = Answer(id: nat, result: Checked)

  datatype State = State(
    store: Store,
    waiters: map<nat, Waiter>,
    answers: seq<Answer>,
    stop: bool,
    suppress: bool,
    reader: ReaderPc,
    senders: map<nat, SenderPc>,
    bus: Bus,
    flags: seq<Flag>)

  const INITIAL: State := State(EMPTY, map[], [], false, false, AtStop, map[], Bus(None, [], [], None), [])

  // ---- steps ---------------------------------------------------------------------

  /** What an open read does next: another header attempt, another payload chunk, or its result. */
  datatype Move = Header | Chunk | Finish(result: Option<Bytes>)

  datatype Step =
    | ReaderStep(woken: bool, lineHigh: bool, move: Move)
    | Acquire(id: nat)
    | Send(id: nat, ok: bool)
    | AwaitCall(id: nat, kind: Kind)
    | Check(id: nat, expired: bool)
    | Wake(id: nat)
    | DrainCmd(kind: Kind)
    | DrainAll
    | SetSuppress(on: bool)
    | RequestStop

  function Op(bus: Bus, op: BusOp, now: Transaction): Bus {
    bus.(trace := bus.trace + [op], current := Some(now))
  }

  function Take(bus: Bus, who: Actor, now: Transaction): Bus {
    bus.(owner := Some(who), current := Some(now))
  }

  function Release(bus: Bus): Bus {
    if bus.current.None? then bus
    else bus.(owner := None, done := bus.done + [bus.current.value], current := None)
  }

  function Broadcast(waiters: map<nat, Waiter>): map<nat, Waiter> {
    map id | id in waiters :: Ready(waiters[id].kind)
  }

  /** The reader's moves between its critical sections. */
  function Advance(pc: ReaderPc, stop: bool, suppress: bool, woken: bool, lineHigh: bool): ReaderPc {
    match pc
    case Polling => if stop then Exited else if woken then AtStop else Polling
    case AtStop => if stop then Polling else AtSuppress
    case AtSuppress => if suppress then Polling else AtLine
    case AtLine => if lineHigh then AtBus else Polling
    case _ => pc
  }

  /** The reader's next atomic action. */
  function ReaderNext(s: State, woken: bool, lineHigh: bool, move: Move): State {
    match s.reader
    case AtBus =>
      if s.bus.owner.Some? then s
      else s.(reader := Reading(0, 0), bus := Take(s.bus, Reader, Read(0, 0)), flags := s.flags + [ReadBegun])
    case Reading(h, c) => ReadNext(s, h, c, move)
    case Holding(p) => s.(reader := AtStop, store := Enqueue(s.store, p), waiters := Broadcast(s.waiters))
    case _ => s.(reader := Advance(s.reader, s.stop, s.suppress, woken, lineHigh))
  }

  /** Inside a read: up to four header attempts, then payload chunks, then the lock is released. */
  function ReadNext(s: State, h: nat, c: nat, move: Move): State {
    match move
    case Header =>
      if c > 0 || h >= HEADER_ATTEMPTS then s
      else s.(reader := Reading(h + 1, 0), bus := Op(s.bus, HeaderIn(Reader), Read(h + 1, 0)))
    case Chunk =>
      if h == 0 then s
      else s.(reader := Reading(h, c + 1), bus := Op(s.bus, PayloadIn(Reader), Read(h, c + 1)))
    case Finish(result) =>
      if h == 0 then s else s.(reader := AfterRead(result), bus := Release(s.bus))
  }

  /** A failed read goes back to poll, an empty one reads again, a packet is dispatched. */
  function AfterRead(result: Option<Bytes>): ReaderPc {
    if result.None? then Polling else if |result.value| == 0 then AtStop else Holding(result.value)
  }

  function SendNext(s: State, id: nat, ok: bool): State {
    if id !in s.senders then s
    else
      match s.senders[id]
      case AtHeader =>
        s.(senders := s.senders[id := if ok then AtPayload else AtRelease(1)],
           bus := Op(s.bus, HeaderOut(Sender(id)), Write(id, 1)))
      case AtPayload =>
        s.(senders := s.senders[id := AtRelease(2)], bus := Op(s.bus, PayloadOut(Sender(id)), Write(id, 2)))
      case AtRelease(_) => s.(senders := s.senders - {id}, bus := Release(s.bus))
  }

  /** A waiter's critical section: it takes a packet, gives up, or goes to sleep, atomically. */
  function CheckNext(s: State, id: nat, expired: bool): State {
    if id !in s.waiters || s.waiters[id].Asleep? then s
    else
      var k := s.waiters[id].kind;
      var seen := Look(s.store, k, s.stop, expired);
      if seen.Nothing? then s.(waiters := s.waiters[id := Asleep(k)])
      else
        s.(store := if seen.Taken? then Pop(s.store, k, Delivered) else s.store,
           waiters := s.waiters - {id}, answers := s.answers + [Answer(id, seen)])
  }

  /** A step that is blocked leaves the state as it is. */
  function Next(s: State, step: Step): State {
    match step
    case ReaderStep(woken, lineHigh, move) => ReaderNext(s, woken, lineHigh, move)
    case Acquire(id) =>
      if id in s.senders || s.bus.owner.Some? then s
      else s.(senders := s.senders[id := AtHeader], bus := Take(s.bus, Sender(id), Write(id, 0)))
    case Send(id, ok) => SendNext(s, id, ok)
    case AwaitCall(id, k) => if id in s.waiters then s else s.(waiters := s.waiters[id := Ready(k)])
    case Check(id, expired) => CheckNext(s, id, expired)
    case Wake(id) =>
      if id in s.waiters then s.(waiters := s.waiters[id := Ready(s.waiters[id].kind)]) else s
    case DrainCmd(k) => s.(store := DrainKind(s.store, k))
    case DrainAll => s.(store := DrainFrom(s.store, 0))
    case SetSuppress(on) => s.(suppress := on, flags := s.flags + [SuppressSet(on)])
    case RequestStop => s.(stop := true)
  }

  function Run(steps: seq<Step>): State {
    if steps == [] then INITIAL else Next(Run(steps[..|steps| - 1]), steps[|steps| - 1])
  }

  // ---- what each kind of step leaves alone ------------------------------------------------

  lemma ReadFrame(s: State, h: nat, c: nat, move: Move)
    requires s.reader == Reading(h, c)
    ensures var t := ReadNext(s, h, c, move);
            t.(reader := s.reader, bus := s.bus) == s && PastCheck(t.reader) == 0
  {
  }

  lemma SendFrame(s: State, id: nat, ok: bool)
    ensures SendNext(s, id, ok).(senders := s.senders, bus := s.bus) == s
  {
  }

  lemma CheckFrame(s: State, id: nat, expired: bool)
    ensures CheckNext(s, id, expired).(store := s.store, waiters := s.waiters, answers := s.answers) == s
  {
  }

  function PastCheck(reader: ReaderPc): nat {
    if reader.AtLine? || reader.AtBus? then 1 else 0
  }

  // ---- waiters ---------------------------------------------------------------------

  /** No waiter sleeps on a queue that holds a packet. */
  ghost predicate NoLostWakeup(queues: Table, waiters: map<nat, Waiter>) {
    forall id | id in waiters && waiters[id].Asleep? :: queues[waiters[id].kind] == []
  }

  ghost predicate Sound(store: Store, waiters: map<nat, Waiter>) {
    Valid(store) && NoLostWakeup(store.queues, waiters)
  }

  lemma EnqueueSound(store: Store, waiters: map<nat, Waiter>, p: Payload)
    requires Sound(store, waiters)
    ensures Sound(Enqueue(store, p), Broadcast(waiters))
  {
    EnqueueValid(store, p);
  }

  lemma TakenSound(store: Store, waiters: map<nat, Waiter>, id: nat, k: Kind)
    requires Sound(store, waiters) && store.queues[k] != []
    ensures Sound(Pop(store, k, Delivered), waiters - {id})
  {
    PopValid(store, k, Delivered);
  }

  lemma AsleepSound(store: Store, waiters: map<nat, Waiter>, id: nat, k: Kind)
    requires Sound(store, waiters) && store.queues[k] == []
    ensures Sound(store, waiters[id := Asleep(k)])
  {
  }

  lemma ReadySound(store: Store, waiters: map<nat, Waiter>, id: nat, k: Kind)
    requires Sound(store, waiters)
    ensures Sound(store, waiters[id := Ready(k)]) && Sound(store, waiters - {id})
  {
  }

  /** Draining only empties queues, so it strands nobody. */
  lemma DrainSound(store: Store, waiters: map<nat, Waiter>, k: Kind)
    requires Sound(store, waiters)
    ensures Sound(DrainKind(store, k), waiters)
  {
    DrainKindValid(store, k);
  }

  lemma DrainAllSound(store: Store, waiters: map<nat, Waiter>, k: nat)
    requires Sound(store, waiters) && k <= 256
    ensures Sound(DrainFrom(store, k), waiters)
  {
    DrainFromValid(store, k);
  }

  lemma ReaderKeepsQueues(s: State, woken: bool, lineHigh: bool, move: Move)
    requires Sound(s.store, s.waiters)
    ensures var t := ReaderNext(s, woken, lineHigh, move); Sound(t.store, t.waiters)
  {
    match s.reader
    case Holding(p) => EnqueueSound(s.store, s.waiters, p);
    case Reading(h, c) => ReadFrame(s, h, c, move);
    case _ =>
  }

  lemma CheckKeepsQueues(s: State, id: nat, expired: bool)
    requires Sound(s.store, s.waiters)
    ensures var t := CheckNext(s, id, expired); Sound(t.store, t.waiters)
  {
    if id in s.waiters && s.waiters[id].Ready? {
      var k := s.waiters[id].kind;
      match Look(s.store, k, s.stop, expired)
      case Taken(_) => TakenSound(s.store, s.waiters, id, k);
      case Nothing => AsleepSound(s.store, s.waiters, id, k);
      case _ => ReadySound(s.store, s.waiters, id, k);
    }
  }

  lemma WaiterKeepsQueues(s: State, step: Step)
    requires Sound(s.store, s.waiters) && (step.AwaitCall? || step.Check? || step.Wake?)
    ensures Sound(Next(s, step).store, Next(s, step).waiters)
  {
    match step
    case Check(id, expired) => CheckKeepsQueues(s, id, expired);
    case AwaitCall(id, k) => ReadySound(s.store, s.waiters, id, k);
    case Wake(id) =>
      if id in s.waiters {
        ReadySound(s.store, s.waiters, id, s.waiters[id].kind);
      }
  }

  lemma StepKeepsQueues(s: State, step: Step)
    requires Sound(s.store, s.waiters)
    ensures Sound(Next(s, step).store, Next(s, step).waiters)
  {
    match step
    case ReaderStep(woken, lineHigh, move) => ReaderKeepsQueues(s, woken, lineHigh, move);
    case DrainCmd(k) => DrainSound(s.store, s.waiters, k);
    case DrainAll => DrainAllSound(s.store, s.waiters, 0);
    case Send(id, ok) => SendFrame(s, id, ok);
    case Acquire(_) =>
    case SetSuppress(_) =>
    case RequestStop =>
    case _ => WaiterKeepsQueues(s, step);
  }

  // ---- bus ----------------------------------------------------------------------------

  function Repeat(op: BusOp, n: nat): seq<BusOp> {
    if n == 0 then [] else Repeat(op, n - 1) + [op]
  }

  function Ops(t: Transaction): seq<BusOp> {
    match t
    case Read(h, c) => Repeat(HeaderIn(Reader), h) + Repeat(PayloadIn(Reader), c)
    case Write(id, parts) => [HeaderOut(Sender(id)), PayloadOut(Sender(id))][..if parts <= 2 then parts else 2]
  }

  function AllOps(done: seq<Transaction>): seq<BusOp> {
    if done == [] then [] else AllOps(done[..|done| - 1]) + Ops(done[|done| - 1])
  }

  /** A read begins with its headers; a write is its header and then its payload. */
  predicate WellFormed(t: Transaction) {
    match t
    case Read(h, c) => h <= HEADER_ATTEMPTS && (c > 0 ==> h > 0)
    case Write(_, parts) => parts <= 2
  }

  /** The bus trace is one transaction after the other, the last one possibly open. */
  ghost predicate Contiguous(bus: Bus) {
    && (forall t | t in bus.done :: WellFormed(t))
    && (bus.current.Some? ==> WellFormed(bus.current.value))
    && bus.trace == AllOps(bus.done) + if bus.current.Some? then Ops(bus.current.value) else []
  }

  /** Whoever is past its lock acquisition is the owner, and its progress is the open transaction. */
  ghost predicate Exclusive(bus: Bus, reader: ReaderPc, senders: map<nat, SenderPc>) {
    && (bus.owner.None? <==> bus.current.None?)
    && (reader.Reading? ==> bus.owner == Some(Reader) && bus.current == Some(Read(reader.headers, reader.chunks)))
    && (forall id | id in senders ::
          bus.owner == Some(Sender(id)) && bus.current == Some(Write(id, Parts(senders[id]))))
  }

  ghost predicate Orderly(s: State) {
    Contiguous(s.bus) && Exclusive(s.bus, s.reader, s.senders)
  }

  function Parts(pc: SenderPc): nat {
    match pc
    case AtHeader => 0
    case AtPayload => 1
    case AtRelease(parts) => parts
  }

  lemma TakeContiguous(bus: Bus, who: Actor, now: Transaction)
    requires Contiguous(bus) && bus.current.None? && WellFormed(now) && Ops(now) == []
    ensures Contiguous(Take(bus, who, now))
  {
  }

  lemma OpContiguous(bus: Bus, op: BusOp, now: Transaction)
    requires Contiguous(bus) && bus.current.Some? && WellFormed(now)
    requires Ops(now) == Ops(bus.current.value) + [op]
    ensures Contiguous(Op(bus, op, now))
  {
    var all, open := AllOps(bus.done), Ops(bus.current.value);
    assert (all + open) + [op] == all + (open + [op]);
  }

  lemma ReleaseContiguous(bus: Bus)
    requires Contiguous(bus) && bus.current.Some?
    ensures Contiguous(Release(bus))
  {
    var done := bus.done + [bus.current.value];
    assert done[..|done| - 1] == bus.done;
  }

  lemma ReadGrows(h: nat, c: nat)
    ensures c == 0 ==> Ops(Read(h + 1, 0)) == Ops(Read(h, 0)) + [HeaderIn(Reader)]
    ensures Ops(Read(h, c + 1)) == Ops(Read(h, c)) + [PayloadIn(Reader)]
  {
  }

  lemma WriteGrows(id: nat)
    ensures Ops(Write(id, 1)) == Ops(Write(id, 0)) + [HeaderOut(Sender(id))]
    ensures Ops(Write(id, 2)) == Ops(Write(id, 1)) + [PayloadOut(Sender(id))]
  {
  }

  lemma ReadKeepsBus(s: State, h: nat, c: nat, move: Move)
    requires Orderly(s) && s.reader == Reading(h, c)
    ensures Orderly(ReadNext(s, h, c, move))
  {
    ReadGrows(h, c);
    match move
    case Header =>
      if c == 0 && h < HEADER_ATTEMPTS {
        OpContiguous(s.bus, HeaderIn(Reader), Read(h + 1, 0));
      }
    case Chunk =>
      if h > 0 {
        OpContiguous(s.bus, PayloadIn(Reader), Read(h, c + 1));
      }
    case Finish(_) => ReleaseContiguous(s.bus);
  }

  lemma ReaderKeepsBus(s: State, woken: bool, lineHigh: bool, move: Move)
    requires Orderly(s)
    ensures Orderly(ReaderNext(s, woken, lineHigh, move))
  {
    match s.reader
    case Reading(h, c) => ReadKeepsBus(s, h, c, move);
    case AtBus =>
      if s.bus.owner.None? {
        TakeContiguous(s.bus, Reader, Read(0, 0));
      }
    case Holding(_) =>
    case pc => AdvanceNeverReads(pc, s.stop, s.suppress, woken, lineHigh);
  }

  lemma AdvanceNeverReads(pc: ReaderPc, stop: bool, suppress: bool, woken: bool, lineHigh: bool)
    ensures Advance(pc, stop, suppress, woken, lineHigh).Reading? ==> pc.Reading?
  {
  }

  lemma SendKeepsBus(s: State, id: nat, ok: bool)
    requires Orderly(s)
    ensures Orderly(SendNext(s, id, ok))
  {
    if id in s.senders {
      WriteGrows(id);
      match s.senders[id]
      case AtHeader => OpContiguous(s.bus, HeaderOut(Sender(id)), Write(id, 1));
      case AtPayload => OpContiguous(s.bus, PayloadOut(Sender(id)), Write(id, 2));
      case AtRelease(_) => ReleaseContiguous(s.bus);
    }
  }

  lemma StepKeepsBus(s: State, step: Step)
    requires Orderly(s)
    ensures Orderly(Next(s, step))
  {
    match step
    case ReaderStep(woken, lineHigh, move) => ReaderKeepsBus(s, woken, lineHigh, move);
    case Acquire(id) =>
      if id !in s.senders && s.bus.owner.None? {
        TakeContiguous(s.bus, Sender(id), Write(id, 0));
      }
    case Send(id, ok) => SendKeepsBus(s, id, ok);
    case _ =>
  }

  // ---- suppress -------------------------------------------------------------------------

  function Suppressed(flags: seq<Flag>): bool {
    if flags == [] then false
    else
      match flags[|flags| - 1]
      case SuppressSet(on) => on
      case ReadBegun => Suppressed(flags[..|flags| - 1])
  }

  /** Reads begun since the flag last went from clear to set. */
  function ReadsSince(flags: seq<Flag>): nat {
    if flags == [] then 0
    else
      var before := flags[..|flags| - 1];
      match flags[|flags| - 1]
      case SuppressSet(on) => if on && Suppressed(before) then ReadsSince(before) else 0
      case ReadBegun => ReadsSince(before) + 1
  }

  function Reads(flags: seq<Flag>): nat {
    if flags == [] then 0
    else Reads(flags[..|flags| - 1]) + if flags[|flags| - 1].ReadBegun? then 1 else 0
  }

  ghost predicate Quiet(suppress: bool, flags: seq<Flag>, reader: ReaderPc) {
    suppress == Suppressed(flags) && (suppress ==> ReadsSince(flags) + PastCheck(reader) <= 1)
  }

  lemma FlagLog(flags: seq<Flag>, f: Flag)
    ensures Suppressed(flags + [f]) == if f.SuppressSet? then f.on else Suppressed(flags)
    ensures ReadsSince(flags + [f]) == if f.ReadBegun? then ReadsSince(flags) + 1
                                       else if f.on && Suppressed(flags) then ReadsSince(flags) else 0
  {
    assert (flags + [f])[..|flags|] == flags;
  }

  lemma ReaderKeepsQuiet(s: State, woken: bool, lineHigh: bool, move: Move)
    requires Quiet(s.suppress, s.flags, s.reader)
    ensures var t := ReaderNext(s, woken, lineHigh, move); Quiet(t.suppress, t.flags, t.reader)
  {
    match s.reader
    case AtBus =>
      BegunQuiet(s.suppress, s.flags);
    case Reading(h, c) => ReadFrame(s, h, c, move);
    case Holding(_) =>
    case pc => AdvanceChecks(pc, s.stop, s.suppress, woken, lineHigh);
  }

  lemma BegunQuiet(suppress: bool, flags: seq<Flag>)
    requires Quiet(suppress, flags, AtBus)
    ensures Quiet(suppress, flags + [ReadBegun], Reading(0, 0))
  {
    FlagLog(flags, ReadBegun);
  }

  lemma AdvanceChecks(pc: ReaderPc, stop: bool, suppress: bool, woken: bool, lineHigh: bool)
    ensures suppress ==> PastCheck(Advance(pc, stop, suppress, woken, lineHigh)) <= PastCheck(pc)
  {
  }

  lemma StepKeepsQuiet(s: State, step: Step)
    requires Quiet(s.suppress, s.flags, s.reader)
    ensures var t := Next(s, step); Quiet(t.suppress, t.flags, t.reader)
  {
    match step
    case SetSuppress(on) => FlagLog(s.flags, SuppressSet(on));
    case ReaderStep(woken, lineHigh, move) => ReaderKeepsQuiet(s, woken, lineHigh, move);
    case Send(id, ok) => SendFrame(s, id, ok);
    case Check(id, expired) => CheckFrame(s, id, expired);
    case _ =>
  }

  /** Suppression holds from position i to the end. */
  ghost predicate Window(flags: seq<Flag>, i: nat) {
    i < |flags| && flags[i] == SuppressSet(true) && SuppressSet(false) !in flags[i..]
  }

  lemma {:induction false} WindowReads(flags: seq<Flag>, i: nat)
    requires Window(flags, i)
    ensures Suppressed(flags) && Reads(flags[i..]) <= ReadsSince(flags)
  {
    var n := |flags| - 1;
    assert flags[i..][..n - i] == flags[..n][i..];
    assert flags[i..][n - i] == flags[n] && flags[n] in flags[i..];
    if i < n {
      assert flags[..n][i] == flags[i];
      WindowReads(flags[..n], i);
    } else {
      assert flags[i..] == [flags[n]];
    }
  }

  // ---- every interleaving ------------------------------------------------------------------

  ghost predicate Invariant(s: State) {
    Sound(s.store, s.waiters) && Orderly(s) && Quiet(s.suppress, s.flags, s.reader)
  }

  lemma {:induction false} RunInvariant(steps: seq<Step>)
    ensures Invariant(Run(steps))
  {
    if steps != [] {
      var s, step := Run(steps[..|steps| - 1]), steps[|steps| - 1];
      RunInvariant(steps[..|steps| - 1]);
      StepKeepsQueues(s, step);
      StepKeepsBus(s, step);
      StepKeepsQuiet(s, step);
    }
  }

  /**
    For every interleaving: packets are conserved and ordered per kind, no waiter sleeps beside a packet, every
    write and every listener read is contiguous on the bus, and while suppression holds at most one further
    listener read begins.
   */
  lemma EveryInterleaving(steps: seq<Step>)
    ensures var s := Run(steps);
            && (forall k: Kind :: Balanced(s.store, k)) && InOrder(s.store.departed)
            && NoLostWakeup(s.store.queues, s.waiters)
            && Contiguous(s.bus)
            && (forall i: nat | Window(s.flags, i) :: Reads(s.flags[i..]) <= 1)
  {
    RunInvariant(steps);
    var s := Run(steps);
    Conservation(s.store, 0);
    forall i: nat | Window(s.flags, i) ensures Reads(s.flags[i..]) <= 1 {
      WindowReads(s.flags, i);
    }
  }

  lemma RunLog(steps: seq<Step>, step: Step)
    ensures Run(steps + [step]) == Next(Run(steps), step)
  {
    assert (steps + [step])[..|steps|] == steps;
  }

  /** This step saw the line high when the reader looked. */
  predicate SawLineHigh(s: State, step: Step) {
    step.ReaderStep? && step.lineHigh && s.reader == AtLine
  }

  lemma ReachesBus(s: State, step: Step)
    requires Next(s, step).reader == AtBus
    ensures s.reader == AtBus || SawLineHigh(s, step)
  {
    match step
    case ReaderStep(woken, lineHigh, move) =>
      if s.reader.Reading? {
        ReadFrame(s, s.reader.headers, s.reader.chunks, move);
      }
    case Send(id, ok) => SendFrame(s, id, ok);
    case Check(id, expired) => CheckFrame(s, id, expired);
    case _ =>
  }

  /** The last rise of a property that only rises with a cause. */
  lemma {:induction false} LastRise(holds: seq<bool>, cause: seq<bool>, n: nat) returns (i: nat)
    requires n < |holds| && n <= |cause| && !holds[0] && holds[n]
    requires forall m: nat | m < n && holds[m + 1] :: holds[m] || cause[m]
    ensures i < n && cause[i] && forall j | i < j <= n :: holds[j]
    decreases n
  {
    if cause[n - 1] {
      i := n - 1;
    } else {
      i := LastRise(holds, cause, n - 1);
    }
  }

  /** Where the reader goes for the bus, and where it sees the line high, along a run. */
  function BusTrail(steps: seq<Step>): (t: seq<bool>)
    ensures |t| == |steps| + 1 && forall m: nat | m <= |steps| :: t[m] <==> Run(steps[..m]).reader == AtBus
  {
    seq(|steps| + 1, m requires 0 <= m <= |steps| => Run(steps[..m]).reader == AtBus)
  }

  function LineTrail(steps: seq<Step>): (t: seq<bool>)
    ensures |t| == |steps| && forall m: nat | m < |steps| :: t[m] <==> SawLineHigh(Run(steps[..m]), steps[m])
  {
    seq(|steps|, m requires 0 <= m < |steps| => SawLineHigh(Run(steps[..m]), steps[m]))
  }

  lemma BusStep(steps: seq<Step>, m: nat)
    requires m < |steps| && Run(steps[..m + 1]).reader == AtBus
    ensures Run(steps[..m]).reader == AtBus || SawLineHigh(Run(steps[..m]), steps[m])
  {
    assert steps[..m + 1][..m] == steps[..m];
    ReachesBus(Run(steps[..m]), steps[m]);
  }

  /** In every interleaving the reader only goes for the bus after it has seen the line high. */
  lemma BusNeedsHighLine(steps: seq<Step>) returns (i: nat)
    requires Run(steps).reader == AtBus
    ensures i < |steps| && SawLineHigh(Run(steps[..i]), steps[i])
    ensures forall j: nat | i < j <= |steps| :: Run(steps[..j]).reader == AtBus
  {
    var n := |steps|;
    assert steps[..n] == steps;
    forall m: nat | m < n && BusTrail(steps)[m + 1] ensures BusTrail(steps)[m] || LineTrail(steps)[m] {
      BusStep(steps, m);
    }
    i := LastRise(BusTrail(steps), LineTrail(steps), n);
  }

  /** A run in which suppression is set just after the reader has checked the flag. */
  lemma SuppressedPastCheck() returns (steps: seq<Step>)
    ensures Run(steps) == INITIAL.(reader := AtLine, suppress := true, flags := [SuppressSet(true)])
  {
    var go := ReaderStep(true, true, Header);
    RunLog([], go);
    RunLog([] + [go], go);
    steps := [] + [go] + [go];
    assert Run(steps) == INITIAL.(reader := AtLine);
    RunLog(steps, SetSuppress(true));
    steps := steps + [SetSuppress(true)];
  }

  /** A reader past the check, on a free bus, begins a read in two steps. */
  lemma BeginsRead(s: State, go: Step)
    requires s.reader == AtLine && s.bus.owner.None? && go.ReaderStep? && go.lineHigh
    ensures var t := Next(Next(s, go), go);
            t.flags == s.flags + [ReadBegun] && t.reader == Reading(0, 0)
  {
    assert Next(s, go) == s.(reader := AtBus);
  }

  /** The one further read does happen. */
  lemma OneReadAfterSuppress() returns (steps: seq<Step>)
    ensures Window(Run(steps).flags, 0) && Reads(Run(steps).flags) == 1 && Run(steps).reader.Reading?
  {
    var go := ReaderStep(true, true, Header);
    var before := SuppressedPastCheck();
    RunLog(before, go);
    RunLog(before + [go], go);
    BeginsRead(Run(before), go);
    steps := before + [go] + [go];
    OneReadCounted(Run(steps).flags);
  }

  lemma OneReadCounted(flags: seq<Flag>)
    requires flags == [SuppressSet(true)] + [ReadBegun]
    ensures Window(flags, 0) && Reads(flags) == 1
  {
    assert flags[..1] == [SuppressSet(true)];
    assert Reads(flags[..1]) == Reads(flags[..1][..0]) == 0;
  }
}

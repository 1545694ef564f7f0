/** One sending thread: drain, submit, wait and resend, while the reader keeps delivering packets. */
module SenderSpec {
  import opened Common
  import opened Queues
  import opened Records

  const ACK: Kind := 0xb0
  const IMAGE_RECORD: Kind := 0x17
  const IMAGE_PREFIX: nat := 8
  const FRAME_BYTES: nat := 7680

  type Packed = b: Bytes | |b| == FRAME_BYTES witness seq(FRAME_BYTES, _ => 0)

  /** What arrived, and how flag and clock stand, when a waiter looks at its queue again. */
  datatype Turn = Turn(arrived: seq<Payload>, stopped: bool, expired: bool)

  datatype Awaited = Got(packet: Packet) | Closed | TimedOut

  datatype Event =
    | Wrote(payload: Bytes)
    | Received(packet: Packet)
    | Lost(kind: Kind)
    | GaveUp(kind: Kind)
    | Suppress(on: bool)
    | Decrypted(record: Packet)

  // ---- waiting ---------------------------------------------------------------------

  /** Looks again after every wakeup; the last look is past the deadline. */
  function Await(st: Store, stop: bool, k: Kind, turns: seq<Turn>): (Store, bool, Awaited)
    decreases |turns|
  {
    var now := if turns == [] then Turn([], false, true) else turns[0];
    var seen, stopped := EnqueueAll(st, now.arrived), stop || now.stopped;
    match Look(seen, k, stopped, now.expired)
    case Taken(packet) => (Pop(seen, k, Delivered), stopped, Got(packet))
    case Stopped => (seen, stopped, Closed)
    case Expired => (seen, stopped, TimedOut)
    case Nothing => if turns == [] then (seen, stopped, TimedOut) else Await(seen, stopped, k, turns[1..])
  }

  // ---- submitting --------------------------------------------------------------------

  datatype Result =
    | Acked(ack: Packet)
    | Response(packet: Packet)
    | Image(packed: Packed)
    | WriteFailed
    | ListenerClosed
    | NoAck
    | NoResponse
    | BadRecord
    | DecryptFailed
    | ShortImage

  /** The mark is the number of arrivals at the drain the result relies on. */
  datatype Outcome = Outcome(st: Store, stop: bool, log: seq<Event>, mark: nat, result: Result)
  {
    function After(before: seq<Event>): Outcome {
      this.(log := before + log)
    }
  }

  lemma AfterAfter(o: Outcome, a: seq<Event>, b: seq<Event>)
    ensures o.After(b).After(a) == o.After(a + b)
  {
    assert a + (b + o.log) == (a + b) + o.log;
  }

  /** One attempt; no result means that it timed out and may be repeated. */
  datatype Attempt = Attempt(st: Store, stop: bool, log: seq<Event>, result: Option<Result>)

  datatype Submit = Submit(writeOk: bool, turns: seq<Turn>)

  function AckOnce(st: Store, stop: bool, payload: Bytes, e: Submit): Attempt {
    if !e.writeOk then Attempt(st, stop, [Wrote(payload)], Some(WriteFailed))
    else
      var (seen, stopped, awaited) := Await(st, stop, ACK, e.turns);
      match awaited
      case Got(ack) => Attempt(seen, stopped, [Wrote(payload), Received(ack)], Some(Acked(ack)))
      case Closed => Attempt(seen, stopped, [Wrote(payload), Lost(ACK)], Some(ListenerClosed))
      case TimedOut => Attempt(seen, stopped, [Wrote(payload), GaveUp(ACK)], None)
  }

  /** Submits until an ACK arrives; only an ACK timeout of the first attempt leads to a second. */
  function AckAttempts(st: Store, stop: bool, payload: Bytes, mark: nat, env: nat -> Submit, attempt: nat): Outcome
    requires 1 <= attempt <= 2
    decreases 2 - attempt
  {
    var a := AckOnce(st, stop, payload, env(attempt));
    if a.result.Some? then Outcome(a.st, a.stop, a.log, mark, a.result.value)
    else if attempt == 2 then Outcome(a.st, a.stop, a.log, mark, NoAck)
    else AckAttempts(a.st, a.stop, payload, mark, env, attempt + 1).After(a.log)
  }

  function SendAck(st: Store, stop: bool, payload: Bytes, env: nat -> Submit): Outcome {
    AckAttempts(DrainKind(st, ACK), stop, payload, |st.arrivals|, env, 1)
  }

  datatype Request = Request(submits: nat -> Submit, turns: seq<Turn>)

  /** How the wait for the response ends the attempt. */
  function Concluded(st: Store, stop: bool, log: seq<Event>, k: Kind, awaited: Awaited): Attempt {
    match awaited
    case Got(packet) => Attempt(st, stop, log + [Received(packet)], Some(Response(packet)))
    case Closed => Attempt(st, stop, log + [Lost(k)], Some(ListenerClosed))
    case TimedOut => Attempt(st, stop, log + [GaveUp(k)], None)
  }

  function CommandOnce(st: Store, stop: bool, payload: Bytes, k: Kind, e: Request): Attempt {
    var sent := SendAck(DrainKind(st, k), stop, payload, e.submits);
    if !sent.result.Acked? then Attempt(sent.st, sent.stop, sent.log, Some(sent.result))
    else
      var (seen, stopped, awaited) := Await(sent.st, sent.stop, k, e.turns);
      Concluded(seen, stopped, sent.log, k, awaited)
  }

  /** A complete submit and its typed response; only a response timeout of the first attempt leads to a second. */
  function Command(st: Store, stop: bool, payload: Bytes, k: Kind, env: nat -> Request, attempt: nat := 1): Outcome
    requires 1 <= attempt <= 2
    decreases 2 - attempt
  {
    var a := CommandOnce(st, stop, payload, k, env(attempt));
    if a.result.Some? then Outcome(a.st, a.stop, a.log, |st.arrivals|, a.result.value)
    else if attempt == 2 then Outcome(a.st, a.stop, a.log, |st.arrivals|, NoResponse)
    else Command(a.st, a.stop, payload, k, env, attempt + 1).After(a.log)
  }

  // ---- image capture --------------------------------------------------------------------

  /** Checks, decrypts once, and cuts out the packed frame. */
  function Opened(record: Packet, decrypt: Bytes -> Option<Bytes>): (seq<Event>, Result) {
    if |record.payload| < 5 || !RecordHeaderOk(record.payload) || record.payload[0] != IMAGE_RECORD then
      ([], BadRecord)
    else
      match decrypt(record.payload)
      case None => ([Decrypted(record)], DecryptFailed)
      case Some(plain) =>
        if |plain| < IMAGE_PREFIX + FRAME_BYTES then ([Decrypted(record)], ShortImage)
        else ([Decrypted(record)], Image(plain[IMAGE_PREFIX..IMAGE_PREFIX + FRAME_BYTES]))
  }

  /** After the ACK the reader is kept off the bus while the sensor reads out its array, then released. */
  function QuietLog(log: seq<Event>): seq<Event> {
    log + [Suppress(true), Suppress(false)]
  }

  lemma QuietAppended(before: seq<Event>, log: seq<Event>)
    ensures before + log + [Suppress(true)] + [Suppress(false)] == before + QuietLog(log)
  {
  }

  function RecordOnce(st: Store, stop: bool, turns: seq<Turn>, decrypt: Bytes -> Option<Bytes>): Attempt {
    var (seen, stopped, awaited) := Await(st, stop, IMAGE_RECORD, turns);
    match awaited
    case Got(record) =>
      var (events, result) := Opened(record, decrypt);
      Attempt(seen, stopped, [Received(record)] + events, Some(result))
    case Closed => Attempt(seen, stopped, [Lost(IMAGE_RECORD)], Some(ListenerClosed))
    case TimedOut => Attempt(seen, stopped, [GaveUp(IMAGE_RECORD)], None)
  }

  function CaptureOnce(st: Store, stop: bool, payload: Bytes, e: Request, decrypt: Bytes -> Option<Bytes>): Attempt {
    var sent := SendAck(DrainKind(st, IMAGE_RECORD), stop, payload, e.submits);
    if !sent.result.Acked? then Attempt(sent.st, sent.stop, sent.log, Some(sent.result))
    else
      var a := RecordOnce(sent.st, sent.stop, e.turns, decrypt);
      a.(log := QuietLog(sent.log) + a.log)
  }

  /** One capture; only a missing record of the first attempt leads to a second. */
  function Capture(st: Store, stop: bool, payload: Bytes, env: nat -> Request, decrypt: Bytes -> Option<Bytes>,
                   attempt: nat := 1): Outcome
    requires 1 <= attempt <= 2
    decreases 2 - attempt
  {
    var a := CaptureOnce(st, stop, payload, env(attempt), decrypt);
    if a.result.Some? then Outcome(a.st, a.stop, a.log, |st.arrivals|, a.result.value)
    else if attempt == 2 then Outcome(a.st, a.stop, a.log, |st.arrivals|, NoResponse)
    else Capture(a.st, a.stop, payload, env, decrypt, attempt + 1).After(a.log)
  }

  // ---- what the logs keep ------------------------------------------------------------------

  predicate IsWrite(e: Event) {
    e.Wrote?
  }

  predicate IsDecryption(e: Event) {
    e.Decrypted?
  }

  /** Every write after the first follows directly on a timeout, and nothing but writes of this payload happens. */
  ghost predicate OnlyTimeoutsResend(log: seq<Event>, payload: Bytes) {
    && log != [] && log[0] == Wrote(payload)
    && forall i | 0 < i < |log| && log[i].Wrote? :: log[i] == Wrote(payload) && log[i - 1].GaveUp?
  }

  ghost predicate Orderly(log: seq<Event>, payload: Bytes, writes: nat, decrypts: nat) {
    OnlyTimeoutsResend(log, payload) && Count(log, IsWrite) <= writes && Count(log, IsDecryption) <= decrypts
  }

  /** A resend continues a log that ends in a timeout. */
  lemma ResendAppend(a: seq<Event>, b: seq<Event>, payload: Bytes, aWrites: nat, bWrites: nat, decrypts: nat)
    requires Orderly(a, payload, aWrites, 0) && Orderly(b, payload, bWrites, decrypts) && a[|a| - 1].GaveUp?
    ensures Orderly(a + b, payload, aWrites + bWrites, decrypts)
  {
    CountAppend(a, b, IsWrite);
    CountAppend(a, b, IsDecryption);
  }

  lemma EventAppend(a: seq<Event>, e: Event, payload: Bytes, writes: nat, decrypts: nat)
    requires Orderly(a, payload, writes, decrypts) && !e.Wrote?
    ensures Orderly(a + [e], payload, writes, decrypts + if e.Decrypted? then 1 else 0)
  {
    assert (a + [e])[..|a|] == a;
  }

  lemma SubmitLog(payload: Bytes, e: Event)
    requires !e.Wrote? && !e.Decrypted?
    ensures Orderly([Wrote(payload)], payload, 1, 0) && Orderly([Wrote(payload), e], payload, 1, 0)
  {
    assert [Wrote(payload)][..0] == [];
    EventAppend([Wrote(payload)], e, payload, 1, 0);
    assert [Wrote(payload)] + [e] == [Wrote(payload), e];
  }

  // ---- freshness ------------------------------------------------------------------------------

  /** Nothing in this queue arrived before the mark. */
  ghost predicate FreshFrom(st: Store, k: Kind, mark: nat) {
    mark <= |st.arrivals| && forall i | 0 <= i < |st.queues[k]| :: st.queues[k][i].stamp >= mark
  }

  lemma {:induction false} EnqueueAllFresh(st: Store, batch: seq<Payload>, k: Kind, mark: nat)
    requires FreshFrom(st, k, mark)
    ensures FreshFrom(EnqueueAll(st, batch), k, mark)
    decreases |batch|
  {
    if batch != [] {
      EnqueueAllFresh(Enqueue(st, batch[0]), batch[1..], k, mark);
    }
  }

  /** Waiting on any kind keeps a queue fresh, and what it returns from a fresh queue is fresh. */
  lemma {:induction false} AwaitFresh(st: Store, stop: bool, awaited: Kind, turns: seq<Turn>, k: Kind, mark: nat)
    requires FreshFrom(st, k, mark) && Valid(st)
    ensures var (seen, _, r) := Await(st, stop, awaited, turns);
            && FreshFrom(seen, k, mark) && Valid(seen) && |st.arrivals| <= |seen.arrivals|
            && (r.Got? && awaited == k ==> r.packet.stamp >= mark)
            && (r.Got? ==> r.packet.payload[0] == awaited)
    decreases |turns|
  {
    var now := if turns == [] then Turn([], false, true) else turns[0];
    var seen, stopped := EnqueueAll(st, now.arrived), stop || now.stopped;
    EnqueueAllFresh(st, now.arrived, k, mark);
    EnqueueAllValid(st, now.arrived);
    if seen.queues[awaited] != [] {
      Own(seen, awaited);
      PopValid(seen, awaited, Delivered);
    } else if !stopped && !now.expired && turns != [] {
      AwaitFresh(seen, stopped, awaited, turns[1..], k, mark);
    }
  }

  /**
    A wait never leaves a packet behind: it ends empty-handed only beside an empty queue, closed only if stopped
    and timed out only if not; a packet is its latest delivery.
   */
  lemma {:induction false} AwaitLeavesNothing(st: Store, stop: bool, k: Kind, turns: seq<Turn>)
    ensures var (seen, stopped, r) := Await(st, stop, k, turns);
            match r
            case Got(packet) =>
              seen.departed != [] && seen.departed[|seen.departed| - 1] == Departure(packet, Delivered)
            case Closed => seen.queues[k] == [] && stopped
            case TimedOut => seen.queues[k] == [] && !stopped
    decreases |turns|
  {
    var now := if turns == [] then Turn([], false, true) else turns[0];
    var seen, stopped := EnqueueAll(st, now.arrived), stop || now.stopped;
    if seen.queues[k] == [] && !stopped && !now.expired && turns != [] {
      AwaitLeavesNothing(seen, stopped, k, turns[1..]);
    }
  }

  lemma DrainFresh(st: Store, drained: Kind, k: Kind, mark: nat)
    requires Valid(st) && (FreshFrom(st, k, mark) || (drained == k && mark == |st.arrivals|))
    ensures FreshFrom(DrainKind(st, drained), k, mark) && Valid(DrainKind(st, drained))
    ensures DrainKind(st, drained).arrivals == st.arrivals
  {
    DrainKindValid(st, drained);
  }

  /** No image record was received. */
  ghost predicate Recordless(log: seq<Event>) {
    forall e | e in log && e.Received? :: e.packet.payload[0] != IMAGE_RECORD
  }

  // ---- one acknowledged submit ----------------------------------------------------------------

  lemma AckOnceWell(st: Store, stop: bool, payload: Bytes, e: Submit, mark: nat, k: Kind, since: nat)
    requires Valid(st) && FreshFrom(st, ACK, mark) && FreshFrom(st, k, since)
    ensures var a := AckOnce(st, stop, payload, e);
            && Valid(a.st) && FreshFrom(a.st, ACK, mark) && FreshFrom(a.st, k, since)
            && |st.arrivals| <= |a.st.arrivals|
            && Orderly(a.log, payload, 1, 0) && Recordless(a.log)
            && (a.result.None? ==> a.log[|a.log| - 1].GaveUp?)
            && (a.result.Some? && a.result.value.Acked? ==>
                  a.result.value.ack.stamp >= mark && a.result.value.ack.payload[0] == ACK)
  {
    var (_, _, awaited) := Await(st, stop, ACK, e.turns);
    AwaitFresh(st, stop, ACK, e.turns, ACK, mark);
    AwaitFresh(st, stop, ACK, e.turns, k, since);
    SubmitLog(payload, if awaited.Got? then Received(awaited.packet)
                       else if awaited.Closed? then Lost(ACK) else GaveUp(ACK));
  }

  lemma AckAttemptsWell(st: Store, stop: bool, payload: Bytes, mark: nat, env: nat -> Submit, attempt: nat,
                        k: Kind, since: nat)
    requires 1 <= attempt <= 2 && Valid(st)
    requires FreshFrom(st, ACK, mark) && FreshFrom(st, k, since)
    ensures var o := AckAttempts(st, stop, payload, mark, env, attempt);
            && Valid(o.st) && FreshFrom(o.st, k, since) && |st.arrivals| <= |o.st.arrivals|
            && Orderly(o.log, payload, 3 - attempt, 0) && Recordless(o.log)
            && (o.result.Acked? ==> o.result.ack.stamp >= mark && o.result.ack.payload[0] == ACK)
    decreases 2 - attempt
  {
    var a := AckOnce(st, stop, payload, env(attempt));
    AckOnceWell(st, stop, payload, env(attempt), mark, k, since);
    if a.result.None? && attempt == 1 {
      AckAttemptsWell(a.st, a.stop, payload, mark, env, 2, k, since);
      ResendAppend(a.log, AckAttempts(a.st, a.stop, payload, mark, env, 2).log, payload, 1, 1, 0);
    }
  }

  /** An accepted ACK arrived after this call's drain; at most two writes; only an ACK timeout resends. */
  lemma SendAckFresh(st: Store, stop: bool, payload: Bytes, env: nat -> Submit)
    requires Valid(st)
    ensures var o := SendAck(st, stop, payload, env);
            && Valid(o.st)
            && Orderly(o.log, payload, 2, 0)
            && (o.result.Acked? ==> o.result.ack.stamp >= |st.arrivals| && o.result.ack.payload[0] == ACK)
  {
    SubmitKeeps(st, stop, payload, env, ACK, 0);
  }

  /** The same, and another queue stays as fresh as it was. */
  lemma SubmitKeeps(st: Store, stop: bool, payload: Bytes, env: nat -> Submit, k: Kind, since: nat)
    requires Valid(st) && FreshFrom(st, k, since)
    ensures var o := SendAck(st, stop, payload, env);
            && Valid(o.st) && FreshFrom(o.st, k, since) && |st.arrivals| <= |o.st.arrivals|
            && Orderly(o.log, payload, 2, 0) && Recordless(o.log)
            && (o.result.Acked? ==> o.result.ack.stamp >= |st.arrivals| && o.result.ack.payload[0] == ACK)
  {
    DrainFresh(st, ACK, ACK, |st.arrivals|);
    DrainFresh(st, ACK, k, since);
    AckAttemptsWell(DrainKind(st, ACK), stop, payload, |st.arrivals|, env, 1, k, since);
  }

  // ---- a command and its response -----------------------------------------------------------------

  /** The two halves of one attempt: a submit after draining the response queue, and the wait for the response. */
  lemma AttemptFresh(st: Store, stop: bool, payload: Bytes, k: Kind, e: Request)
    requires Valid(st)
    ensures var sent := SendAck(DrainKind(st, k), stop, payload, e.submits);
            && Valid(sent.st) && |st.arrivals| <= |sent.st.arrivals| && Orderly(sent.log, payload, 2, 0)
            && Recordless(sent.log)
            && var (seen, _, r) := Await(sent.st, sent.stop, k, e.turns);
            && Valid(seen) && |st.arrivals| <= |seen.arrivals|
            && (r.Got? ==> r.packet.stamp >= |st.arrivals| && r.packet.payload[0] == k)
  {
    DrainFresh(st, k, k, |st.arrivals|);
    var drained := DrainKind(st, k);
    SubmitKeeps(drained, stop, payload, e.submits, k, |st.arrivals|);
    var sent := SendAck(drained, stop, payload, e.submits);
    AwaitFresh(sent.st, sent.stop, k, e.turns, k, |st.arrivals|);
  }

  lemma CommandOnceWell(st: Store, stop: bool, payload: Bytes, k: Kind, e: Request)
    requires Valid(st)
    ensures var a := CommandOnce(st, stop, payload, k, e);
            && Valid(a.st) && |st.arrivals| <= |a.st.arrivals|
            && Orderly(a.log, payload, 2, 0)
            && (a.result.None? ==> a.log[|a.log| - 1].GaveUp?)
            && (a.result.Some? && a.result.value.Response? ==>
                  a.result.value.packet.stamp >= |st.arrivals| && a.result.value.packet.payload[0] == k)
  {
    AttemptFresh(st, stop, payload, k, e);
    var sent := SendAck(DrainKind(st, k), stop, payload, e.submits);
    if sent.result.Acked? {
      var (seen, stopped, awaited) := Await(sent.st, sent.stop, k, e.turns);
      ConcludedWell(seen, stopped, sent.log, k, awaited, payload);
    } else {
      NotResponse(DrainKind(DrainKind(st, k), ACK), stop, payload, |DrainKind(st, k).arrivals|, e.submits, 1);
    }
  }

  lemma ConcludedWell(st: Store, stop: bool, log: seq<Event>, k: Kind, awaited: Awaited, payload: Bytes)
    requires Orderly(log, payload, 2, 0)
    ensures var a := Concluded(st, stop, log, k, awaited);
            && a.st == st && Orderly(a.log, payload, 2, 0)
            && (a.result.None? ==> a.log[|a.log| - 1].GaveUp?)
            && (a.result.Some? && a.result.value.Response? ==> awaited == Got(a.result.value.packet))
  {
    var last := if awaited.Got? then Received(awaited.packet) else if awaited.Closed? then Lost(k) else GaveUp(k);
    EventAppend(log, last, payload, 2, 0);
  }

  lemma NotResponse(st: Store, stop: bool, payload: Bytes, mark: nat, env: nat -> Submit, attempt: nat)
    requires 1 <= attempt <= 2
    ensures var r := AckAttempts(st, stop, payload, mark, env, attempt).result; !r.Response? && !r.Image?
    decreases 2 - attempt
  {
    var a := AckOnce(st, stop, payload, env(attempt));
    if a.result.None? && attempt == 1 {
      NotResponse(a.st, a.stop, payload, mark, env, 2);
    }
  }

  /**
    A returned response arrived after the drain of the attempt that returned it; one command causes at most four
    writes of the same packet, each resend directly after a timeout.
   */
  lemma CommandFresh(st: Store, stop: bool, payload: Bytes, k: Kind, env: nat -> Request, attempt: nat)
    requires Valid(st) && 1 <= attempt <= 2
    ensures var o := Command(st, stop, payload, k, env, attempt);
            && Valid(o.st)
            && Orderly(o.log, payload, 2 * (3 - attempt), 0)
            && (o.result.Response? ==>
                  |st.arrivals| <= o.mark <= o.result.packet.stamp && o.result.packet.payload[0] == k)
    decreases 2 - attempt
  {
    var a := CommandOnce(st, stop, payload, k, env(attempt));
    CommandOnceWell(st, stop, payload, k, env(attempt));
    if a.result.None? && attempt == 1 {
      CommandFresh(a.st, a.stop, payload, k, env, 2);
      ResendAppend(a.log, Command(a.st, a.stop, payload, k, env, 2).log, payload, 2, 2, 0);
    }
  }

  // ---- one image ------------------------------------------------------------------------------------

  /** Once a record has arrived, nothing is written any more. */
  ghost predicate NoWriteAfterRecord(log: seq<Event>) {
    forall i, j | 0 <= i < j < |log| && log[i].Received? && log[i].packet.payload[0] == IMAGE_RECORD :: !log[j].Wrote?
  }

  lemma LaterRecord(before: seq<Event>, rest: seq<Event>)
    requires Recordless(before) && NoWriteAfterRecord(rest)
    ensures NoWriteAfterRecord(before + rest)
  {
    var log := before + rest;
    forall i, j | 0 <= i < j < |log| && log[i].Received? && log[i].packet.payload[0] == IMAGE_RECORD
      ensures !log[j].Wrote?
    {
      if i >= |before| {
        assert log[i] == rest[i - |before|] && log[j] == rest[j - |before|];
      }
    }
  }

  lemma RecordLast(before: seq<Event>, record: Packet, after: seq<Event>)
    requires Recordless(before) && forall e | e in after :: e.Decrypted?
    ensures NoWriteAfterRecord(before + [Received(record)] + after)
  {
    var rest := [Received(record)] + after;
    forall j | 0 < j < |rest| ensures !rest[j].Wrote? {
      assert rest[j] == after[j - 1] && after[j - 1] in after;
    }
    LaterRecord(before, rest);
    assert before + [Received(record)] + after == before + rest;
  }

  lemma RecordlessLog(log: seq<Event>)
    requires Recordless(log)
    ensures NoWriteAfterRecord(log)
  {
    LaterRecord(log, []);
    assert log + [] == log;
  }

  /** An image comes out of exactly the record that arrived, framed as application data and long enough. */
  ghost predicate ImageOf(log: seq<Event>, mark: nat, packed: Bytes, decrypt: Bytes -> Option<Bytes>) {
    && log != [] && log[|log| - 1].Decrypted?
    && var record := log[|log| - 1].record;
    && mark <= record.stamp
    && record.payload[0] == IMAGE_RECORD && RecordHeaderOk(record.payload)
    && var plain := decrypt(record.payload);
    && plain.Some? && |plain.value| >= IMAGE_PREFIX + FRAME_BYTES
    && packed == plain.value[IMAGE_PREFIX..IMAGE_PREFIX + FRAME_BYTES]
  }

  lemma QuietLogWell(log: seq<Event>, payload: Bytes)
    requires Orderly(log, payload, 2, 0) && Recordless(log)
    ensures Orderly(QuietLog(log), payload, 2, 0) && Recordless(QuietLog(log))
  {
    EventAppend(log, Suppress(true), payload, 2, 0);
    EventAppend(log + [Suppress(true)], Suppress(false), payload, 2, 0);
    assert QuietLog(log) == log + [Suppress(true)] + [Suppress(false)];
  }

  lemma OpenedWell(log: seq<Event>, record: Packet, decrypt: Bytes -> Option<Bytes>, payload: Bytes, mark: nat)
    requires Orderly(log, payload, 2, 0) && Recordless(log) && mark <= record.stamp
    ensures var (events, result) := Opened(record, decrypt);
            var whole := log + ([Received(record)] + events);
            && Orderly(whole, payload, 2, 1) && NoWriteAfterRecord(whole)
            && (result.Image? ==> ImageOf(whole, mark, result.packed, decrypt))
  {
    var (events, result) := Opened(record, decrypt);
    EventAppend(log, Received(record), payload, 2, 0);
    EventAppend(log + [Received(record)], Decrypted(record), payload, 2, 0);
    RecordLast(log, record, events);
    assert log + ([Received(record)] + events) == log + [Received(record)] + events;
    assert log + [Received(record)] + [] == log + [Received(record)];
  }

  lemma NoRecordWell(quiet: seq<Event>, e: Event, payload: Bytes)
    requires Orderly(quiet, payload, 2, 0) && Recordless(quiet) && (e.Lost? || e.GaveUp?)
    ensures Orderly(quiet + [e], payload, 2, 0) && Recordless(quiet + [e]) && NoWriteAfterRecord(quiet + [e])
  {
    EventAppend(quiet, e, payload, 2, 0);
    RecordlessLog(quiet + [e]);
  }

  /** The wait for the record, appended to what was logged before it. */
  lemma RecordOnceWell(st: Store, stop: bool, turns: seq<Turn>, decrypt: Bytes -> Option<Bytes>, mark: nat,
                       quiet: seq<Event>, payload: Bytes)
    requires Valid(st) && FreshFrom(st, IMAGE_RECORD, mark)
    requires Orderly(quiet, payload, 2, 0) && Recordless(quiet)
    ensures var a := RecordOnce(st, stop, turns, decrypt);
            var whole := quiet + a.log;
            && Orderly(whole, payload, 2, 1) && NoWriteAfterRecord(whole)
            && (a.result.None? ==> whole[|whole| - 1].GaveUp? && Orderly(whole, payload, 2, 0) && Recordless(whole))
            && (a.result.Some? && a.result.value.Image? ==> ImageOf(whole, mark, a.result.value.packed, decrypt))
  {
    AwaitFresh(st, stop, IMAGE_RECORD, turns, IMAGE_RECORD, mark);
    match Await(st, stop, IMAGE_RECORD, turns).2
    case Got(record) => OpenedWell(quiet, record, decrypt, payload, mark);
    case Closed => NoRecordWell(quiet, Lost(IMAGE_RECORD), payload);
    case TimedOut => NoRecordWell(quiet, GaveUp(IMAGE_RECORD), payload);
  }

  lemma RecordOnceStore(st: Store, stop: bool, turns: seq<Turn>, decrypt: Bytes -> Option<Bytes>)
    requires Valid(st)
    ensures var a := RecordOnce(st, stop, turns, decrypt);
            Valid(a.st) && |st.arrivals| <= |a.st.arrivals|
  {
    AwaitFresh(st, stop, IMAGE_RECORD, turns, IMAGE_RECORD, 0);
  }

  lemma CaptureOnceWell(st: Store, stop: bool, payload: Bytes, e: Request, decrypt: Bytes -> Option<Bytes>)
    requires Valid(st)
    ensures var a := CaptureOnce(st, stop, payload, e, decrypt);
            && Valid(a.st) && |st.arrivals| <= |a.st.arrivals|
            && Orderly(a.log, payload, 2, 1) && NoWriteAfterRecord(a.log)
            && (a.result.None? ==> a.log[|a.log| - 1].GaveUp? && Orderly(a.log, payload, 2, 0) && Recordless(a.log))
            && (a.result.Some? && a.result.value.Image? ==>
                  ImageOf(a.log, |st.arrivals|, a.result.value.packed, decrypt))
  {
    var drained := DrainKind(st, IMAGE_RECORD);
    DrainFresh(st, IMAGE_RECORD, IMAGE_RECORD, |st.arrivals|);
    SubmitKeeps(drained, stop, payload, e.submits, IMAGE_RECORD, |st.arrivals|);
    var sent := SendAck(drained, stop, payload, e.submits);
    NotResponse(DrainKind(drained, ACK), stop, payload, |st.arrivals|, e.submits, 1);
    if sent.result.Acked? {
      QuietLogWell(sent.log, payload);
      RecordOnceWell(sent.st, sent.stop, e.turns, decrypt, |st.arrivals|, QuietLog(sent.log), payload);
      RecordOnceStore(sent.st, sent.stop, e.turns, decrypt);
    } else {
      RecordlessLog(sent.log);
    }
  }

  /**
    One image capture: at most four writes and one decryption, nothing written once a record arrived, and a
    returned frame is the plaintext of a record that arrived after the drain of its own attempt.
   */
  lemma CaptureWell(st: Store, stop: bool, payload: Bytes, env: nat -> Request, decrypt: Bytes -> Option<Bytes>,
                    attempt: nat)
    requires Valid(st) && 1 <= attempt <= 2
    ensures var o := Capture(st, stop, payload, env, decrypt, attempt);
            && Valid(o.st) && |st.arrivals| <= o.mark
            && Orderly(o.log, payload, 2 * (3 - attempt), 1) && NoWriteAfterRecord(o.log)
            && (o.result.Image? ==> ImageOf(o.log, o.mark, o.result.packed, decrypt))
    decreases 2 - attempt
  {
    var a := CaptureOnce(st, stop, payload, env(attempt), decrypt);
    CaptureOnceWell(st, stop, payload, env(attempt), decrypt);
    if a.result.None? && attempt == 1 {
      CaptureWell(a.st, a.stop, payload, env, decrypt, 2);
      var rest := Capture(a.st, a.stop, payload, env, decrypt, 2);
      ResendAppend(a.log, rest.log, payload, 2, 2, 1);
      LaterRecord(a.log, rest.log);
      assert (a.log + rest.log)[|a.log + rest.log| - 1] == rest.log[|rest.log| - 1];
    }
  }
}

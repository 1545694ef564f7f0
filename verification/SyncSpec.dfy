/** Commands before the listener exists, as transitions of the descriptor, and the protocol they follow. */
module SyncSpec {
  import opened Common
  import opened Wire

  const ACK: Byte := 0xb0
  const OUTER: Byte := 0xa0
  const ATTEMPTS: nat := 2

  /**
    A packet write with the buffers handed to the kernel, a line that did not rise in time, or a read and whether the
    line fell again after it.
   */
  datatype Event = Wrote(ok: bool, buffers: seq<Bytes>) | Silent | Heard(read: ReadResult, falls: bool)

  /** One submit: what the kernel wrote, what the MCU queues, and how the IRQ line moves. */
  datatype SubmitEnv = SubmitEnv(header: int, payload: int, queued: Bytes, rises: bool, falls: bool)

  /** One attempt at a response. */
  datatype ResponseEnv = ResponseEnv(submits: nat -> SubmitEnv, queued: Bytes, rises: bool, falls: bool)

  // ---- what counts as an answer ---------------------------------------------------

  predicate Starts(e: Event, first: Byte) {
    e.Heard? && e.read.Packet? && |e.read.payload| > 0 && e.read.payload[0] == first
  }

  /** An ACK packet, and the falling line where the caller waits for it. */
  predicate IsAck(e: Event, waitForFall: bool) {
    Starts(e, ACK) && (waitForFall ==> e.falls)
  }

  /** A response echoes the command byte, and the line falls again. */
  predicate IsAnswer(e: Event, command: Byte) {
    Starts(e, command) && e.falls
  }

  // ---- what the engine does on the descriptor ----------------------------------------

  /** What the MCU queues meanwhile, and the typed read once the line has risen. */
  function Listen(p: Spi, queued: Bytes, rises: bool, falls: bool): (Event, Spi) {
    var q := p.(miso := p.miso + queued);
    if !rises then (Silent, q)
    else
      var (read, r) := ReadTyped(q);
      (Heard(read, falls), r)
  }

  /** One submit and what is heard after it; after a failed write there is nothing to wait for. */
  function SubmitOnce(p: Spi, payload: Bytes, e: SubmitEnv): (seq<Event>, Spi) {
    var buffers := Buffers(OUTER, payload, e.header);
    var q := p.(mosi := p.mosi + buffers);
    if !WroteAll(payload, e.header, e.payload) then ([Wrote(false, buffers)], q)
    else
      var (heard, r) := Listen(q, e.queued, e.rises, e.falls);
      ([Wrote(true, buffers), heard], r)
  }

  predicate Missed(events: seq<Event>, waitForFall: bool) {
    |events| == 2 && !IsAck(events[1], waitForFall)
  }

  /** Any missing or wrong ACK is answered by one immediate resend; a failed write is not. */
  function Submit(p: Spi, payload: Bytes, waitForFall: bool, env: nat -> SubmitEnv, attempt: nat := 1)
    : (seq<Event>, Spi)
    decreases ATTEMPTS - attempt
  {
    var (events, q) := SubmitOnce(p, payload, env(attempt));
    if Missed(events, waitForFall) && attempt < ATTEMPTS then
      var (more, r) := Submit(q, payload, waitForFall, env, attempt + 1);
      (events + more, r)
    else (events, q)
  }

  predicate Acked(log: seq<Event>, waitForFall: bool) {
    log != [] && IsAck(log[|log| - 1], waitForFall)
  }

  /** One attempt at a command: its submit, and the wait for the response where the submit was acknowledged. */
  datatype Try = Try(submit: seq<Event>, response: Option<Event>)

  function RequestOnce(p: Spi, payload: Bytes, sameIrq: bool, e: ResponseEnv): (Try, Spi) {
    var (events, q) := Submit(p, payload, !sameIrq, e.submits);
    if !Acked(events, !sameIrq) then (Try(events, None), q)
    else
      var (heard, r) := Listen(q, e.queued, sameIrq || e.rises, e.falls);
      (Try(events, Some(heard)), r)
  }

  predicate Answered(t: Try, command: Byte) {
    t.response.Some? && IsAnswer(t.response.value, command)
  }

  /** An acknowledged command whose response is missing or wrong. */
  predicate Unanswered(t: Try, command: Byte) {
    t.response.Some? && !IsAnswer(t.response.value, command)
  }

  /** A command is repeated as a whole, once, when it was acknowledged and its response is missing or wrong. */
  function Request(p: Spi, payload: Bytes, sameIrq: bool, env: nat -> ResponseEnv, attempt: nat := 1): (seq<Try>, Spi)
    requires |payload| > 0
    decreases ATTEMPTS - attempt
  {
    var (t, q) := RequestOnce(p, payload, sameIrq, env(attempt));
    if Unanswered(t, payload[0]) && attempt < ATTEMPTS then
      var (more, r) := Request(q, payload, sameIrq, env, attempt + 1);
      ([t] + more, r)
    else ([t], q)
  }

  /** What the caller gets: the payload of the packet that answered the last attempt. */
  function AnswerOf(tries: seq<Try>, command: Byte): Option<Bytes> {
    if tries != [] && Answered(tries[|tries| - 1], command)
    then Some(tries[|tries| - 1].response.value.read.payload) else None
  }

  // ---- the protocol -----------------------------------------------------------------

  /**
    The events of one acknowledged submit from an attempt on: a failed write ends it, an ACK ends it, and anything
    else is followed by one immediate resend, unless it was the last attempt.
   */
  predicate SubmitLog(log: seq<Event>, waitForFall: bool, attempt: nat := 1)
    decreases ATTEMPTS - attempt
  {
    && log != [] && log[0].Wrote?
    && if !log[0].ok then |log| == 1
       else
         && |log| > 1 && !log[1].Wrote?
         && if IsAck(log[1], waitForFall) || attempt >= ATTEMPTS then |log| == 2
            else SubmitLog(log[2..], waitForFall, attempt + 1)
  }

  predicate TryLog(t: Try, sameIrq: bool) {
    && SubmitLog(t.submit, !sameIrq)
    && (t.response.Some? <==> Acked(t.submit, !sameIrq))
    && (t.response.Some? ==> !t.response.value.Wrote?)
  }

  /** A command is repeated as a whole, once, exactly when it was acknowledged and its response is missing or wrong. */
  predicate CommandLog(tries: seq<Try>, command: Byte, sameIrq: bool, attempt: nat := 1)
    decreases ATTEMPTS - attempt
  {
    && tries != [] && TryLog(tries[0], sameIrq)
    && if tries[0].response.None? || Answered(tries[0], command) || attempt >= ATTEMPTS then |tries| == 1
       else CommandLog(tries[1..], command, sameIrq, attempt + 1)
  }

  function EventsOf(t: Try): seq<Event> {
    t.submit + if t.response.Some? then [t.response.value] else []
  }

  function AllEvents(tries: seq<Try>): seq<Event> {
    if tries == [] then [] else EventsOf(tries[0]) + AllEvents(tries[1..])
  }

  // ---- what follows from it ------------------------------------------------------------

  predicate IsWrite(e: Event) {
    e.Wrote?
  }

  /** Every write after the first directly follows an event that is not a write: a missing or wrong answer. */
  ghost predicate ResendsFollowMisses(log: seq<Event>) {
    forall i | 0 < i < |log| && log[i].Wrote? :: !log[i - 1].Wrote?
  }

  lemma SubmitBounded(log: seq<Event>, waitForFall: bool, attempt: nat)
    requires SubmitLog(log, waitForFall, attempt) && 1 <= attempt <= ATTEMPTS
    ensures Count(log, IsWrite) <= ATTEMPTS + 1 - attempt && ResendsFollowMisses(log) && log[0].Wrote?
    decreases ATTEMPTS - attempt
  {
    var first := log[..if |log| > 1 then 2 else 1];
    assert first[..1] == [log[0]] && [log[0]][..0] == [];
    if |log| > 2 {
      SubmitBounded(log[2..], waitForFall, attempt + 1);
      CountAppend(first, log[2..], IsWrite);
      ResendsAppend(first, log[2..]);
      assert log == first + log[2..];
    } else {
      assert log == first;
    }
  }

  lemma TryBounded(t: Try, sameIrq: bool)
    requires TryLog(t, sameIrq)
    ensures Count(EventsOf(t), IsWrite) <= 2 && ResendsFollowMisses(EventsOf(t)) && EventsOf(t)[0].Wrote?
  {
    SubmitBounded(t.submit, !sameIrq, 1);
    var tail := if t.response.Some? then [t.response.value] else [];
    CountAppend(t.submit, tail, IsWrite);
    assert t.response.Some? ==> tail[..0] == [];
  }

  /** Both retry levels together: at most four writes, each further one directly after a miss. */
  lemma {:induction false} CommandBounded(tries: seq<Try>, command: Byte, sameIrq: bool, attempt: nat)
    requires CommandLog(tries, command, sameIrq, attempt) && 1 <= attempt <= ATTEMPTS
    ensures Count(AllEvents(tries), IsWrite) <= 2 * (ATTEMPTS + 1 - attempt)
    ensures AllEvents(tries) != [] && AllEvents(tries)[0].Wrote? && ResendsFollowMisses(AllEvents(tries))
    decreases ATTEMPTS - attempt
  {
    var first, rest := EventsOf(tries[0]), AllEvents(tries[1..]);
    TryBounded(tries[0], sameIrq);
    CountAppend(first, rest, IsWrite);
    if |tries| > 1 {
      CommandBounded(tries[1..], command, sameIrq, attempt + 1);
      ResendsAppend(first, rest);
    } else {
      assert rest == [] && first + rest == first;
    }
  }

  lemma ResendsAppend(a: seq<Event>, b: seq<Event>)
    requires ResendsFollowMisses(a) && ResendsFollowMisses(b) && a != [] && !a[|a| - 1].Wrote?
    ensures ResendsFollowMisses(a + b)
  {
    var log := a + b;
    forall i | 0 < i < |log| && log[i].Wrote? ensures !log[i - 1].Wrote? {
      if i > |a| {
        assert log[i] == b[i - |a|] && log[i - 1] == b[i - |a| - 1];
      }
    }
  }

  lemma {:induction false} AllEventsAppend(tries: seq<Try>, t: Try)
    ensures AllEvents(tries + [t]) == AllEvents(tries) + EventsOf(t)
  {
    if tries == [] {
      assert [] + [t] == [t] && [t][1..] == [];
    } else {
      assert (tries + [t])[1..] == tries[1..] + [t];
      AllEventsAppend(tries[1..], t);
      Associative(EventsOf(tries[0]), AllEvents(tries[1..]), EventsOf(t));
    }
  }

  // ---- the engine follows the protocol -------------------------------------------------

  /** The buffers of these events, in order. */
  function OnWire(log: seq<Event>): seq<Bytes> {
    if log == [] then [] else (if log[0].Wrote? then log[0].buffers else []) + OnWire(log[1..])
  }

  lemma {:induction false} OnWireAppend(a: seq<Event>, b: seq<Event>)
    ensures OnWire(a + b) == OnWire(a) + OnWire(b)
  {
    if a == [] {
      assert a + b == b;
    } else {
      assert (a + b)[1..] == a[1..] + b;
      OnWireAppend(a[1..], b);
    }
  }

  /** A write that is reported whole put the whole frame on the wire, and any other its first buffers. */
  predicate IsSubmit(e: Event, payload: Bytes) {
    e.Wrote? ==>
      && e.buffers <= [Header(OUTER, |payload|), payload] && e.buffers != []
      && (e.ok ==> Flatten(e.buffers) == Frame(OUTER, payload))
  }

  ghost predicate OnlySubmits(log: seq<Event>, payload: Bytes) {
    forall i | 0 <= i < |log| :: IsSubmit(log[i], payload)
  }

  /** From p to q these events happened: their buffers, and nothing else, went out, and all were of this packet. */
  ghost predicate Performed(p: Spi, q: Spi, log: seq<Event>, payload: Bytes) {
    q.mosi == p.mosi + OnWire(log) && OnlySubmits(log, payload)
  }

  lemma PerformedOn(p: Spi, q: Spi, r: Spi, a: seq<Event>, b: seq<Event>, payload: Bytes)
    requires Performed(p, q, a, payload) && Performed(q, r, b, payload)
    ensures Performed(p, r, a + b, payload)
  {
    OnWireAppend(a, b);
    Associative(p.mosi, OnWire(a), OnWire(b));
  }

  lemma ListenPerforms(p: Spi, queued: Bytes, rises: bool, falls: bool, payload: Bytes)
    ensures var (heard, q) := Listen(p, queued, rises, falls);
            !heard.Wrote? && Performed(p, q, [heard], payload)
  {
    ReadExactly(p.(miso := p.miso + queued), 0);
    assert [Listen(p, queued, rises, falls).0][1..] == [];
  }

  lemma WritePerforms(p: Spi, payload: Bytes, e: SubmitEnv)
    ensures var buffers := Buffers(OUTER, payload, e.header);
            var wrote := Wrote(WroteAll(payload, e.header, e.payload), buffers);
            Performed(p, p.(mosi := p.mosi + buffers), [wrote], payload)
  {
    BuffersAreFrame(OUTER, payload);
    var buffers := Buffers(OUTER, payload, e.header);
    assert [Wrote(WroteAll(payload, e.header, e.payload), buffers)][1..] == [];
    assert buffers + [] == buffers;
  }

  lemma SubmitOncePerforms(p: Spi, payload: Bytes, e: SubmitEnv)
    ensures var (events, q) := SubmitOnce(p, payload, e);
            && Performed(p, q, events, payload)
            && (if WroteAll(payload, e.header, e.payload) then |events| == 2 && !events[1].Wrote? else |events| == 1)
            && events[0].Wrote? && events[0].ok == WroteAll(payload, e.header, e.payload)
  {
    WritePerforms(p, payload, e);
    if WroteAll(payload, e.header, e.payload) {
      var buffers := Buffers(OUTER, payload, e.header);
      var q := p.(mosi := p.mosi + buffers);
      ListenPerforms(q, e.queued, e.rises, e.falls, payload);
      var (heard, r) := Listen(q, e.queued, e.rises, e.falls);
      PerformedOn(p, q, r, [Wrote(true, buffers)], [heard], payload);
      assert [Wrote(true, buffers)] + [heard] == [Wrote(true, buffers), heard];
    }
  }

  /** The events of a submit are the protocol's, and exactly their buffers go out. */
  lemma {:induction false} SubmitFollows(p: Spi, payload: Bytes, waitForFall: bool, env: nat -> SubmitEnv, attempt: nat)
    requires 1 <= attempt <= ATTEMPTS
    ensures var (events, q) := Submit(p, payload, waitForFall, env, attempt);
            SubmitLog(events, waitForFall, attempt) && Performed(p, q, events, payload)
    decreases ATTEMPTS - attempt
  {
    var (events, q) := SubmitOnce(p, payload, env(attempt));
    SubmitOncePerforms(p, payload, env(attempt));
    if Missed(events, waitForFall) && attempt < ATTEMPTS {
      SubmitFollows(q, payload, waitForFall, env, attempt + 1);
      var (more, r) := Submit(q, payload, waitForFall, env, attempt + 1);
      PerformedOn(p, q, r, events, more, payload);
      assert (events + more)[2..] == more;
    }
  }

  lemma RequestOnceFollows(p: Spi, payload: Bytes, sameIrq: bool, e: ResponseEnv)
    ensures var (t, q) := RequestOnce(p, payload, sameIrq, e);
            TryLog(t, sameIrq) && Performed(p, q, EventsOf(t), payload)
  {
    SubmitFollows(p, payload, !sameIrq, e.submits, 1);
    var (events, q) := Submit(p, payload, !sameIrq, e.submits);
    if Acked(events, !sameIrq) {
      ListenPerforms(q, e.queued, sameIrq || e.rises, e.falls, payload);
      var (heard, r) := Listen(q, e.queued, sameIrq || e.rises, e.falls);
      PerformedOn(p, q, r, events, [heard], payload);
    } else {
      assert events + [] == events;
    }
  }

  lemma {:induction false} RequestFollows(p: Spi, payload: Bytes, sameIrq: bool, env: nat -> ResponseEnv, attempt: nat)
    requires |payload| > 0 && 1 <= attempt <= ATTEMPTS
    ensures var (tries, q) := Request(p, payload, sameIrq, env, attempt);
            CommandLog(tries, payload[0], sameIrq, attempt) && Performed(p, q, AllEvents(tries), payload)
    decreases ATTEMPTS - attempt
  {
    var (t, q) := RequestOnce(p, payload, sameIrq, env(attempt));
    RequestOnceFollows(p, payload, sameIrq, env(attempt));
    if Unanswered(t, payload[0]) && attempt < ATTEMPTS {
      RequestFollows(q, payload, sameIrq, env, attempt + 1);
      var (more, r) := Request(q, payload, sameIrq, env, attempt + 1);
      PerformedOn(p, q, r, EventsOf(t), AllEvents(more), payload);
      assert ([t] + more)[1..] == more;
    } else {
      assert [t][1..] == [] && EventsOf(t) + [] == EventsOf(t);
    }
  }

  /**
    For every MCU, line and kernel: a command follows the protocol, what goes out are the frames of this command and
    nothing else, at most four times, and every further one directly follows a miss.
   */
  lemma RequestOnBus(p: Spi, payload: Bytes, sameIrq: bool, env: nat -> ResponseEnv)
    requires |payload| > 0
    ensures var (tries, q) := Request(p, payload, sameIrq, env);
            && CommandLog(tries, payload[0], sameIrq) && Performed(p, q, AllEvents(tries), payload)
            && Count(AllEvents(tries), IsWrite) <= 4 && ResendsFollowMisses(AllEvents(tries))
  {
    RequestFollows(p, payload, sameIrq, env, 1);
    CommandBounded(Request(p, payload, sameIrq, env).0, payload[0], sameIrq, 1);
  }

  /** What is heard is the frame at the head of the queued stream, unless a transfer failed. */
  lemma HeardExactly(p: Spi, queued: Bytes, falls: bool)
    ensures var (heard, q) := Listen(p, queued, true, falls);
            && heard.falls == falls && q.miso == heard.read.rest
            && (if Clean(p.faults, |p.transfers|, |q.transfers|)
                then heard.read == ReadFrame(p.miso + queued, p.idle) else heard.read == Failed(BusError, q.miso))
  {
    ReadExactly(p.(miso := p.miso + queued), 0);
  }

  /** A line that does not rise is silence, without a transfer; what was queued meanwhile stays queued. */
  lemma SilentExactly(p: Spi, queued: Bytes, rises: bool, falls: bool)
    ensures Listen(p, queued, rises, falls).0.Silent? <==> !rises
    ensures !rises ==> Listen(p, queued, rises, falls).1 == p.(miso := p.miso + queued)
  {
  }

  /** The line rises and a packet with this first byte is read. */
  predicate Hears(p: Spi, queued: Bytes, rises: bool, first: Byte) {
    && rises
    && var r := ReadTyped(p.(miso := p.miso + queued)).0;
    r.Packet? && |r.payload| > 0 && r.payload[0] == first
  }

  /** A whole write is answered by a resend exactly unless an ACK is heard, with the falling line where it matters. */
  lemma MissExactly(p: Spi, payload: Bytes, waitForFall: bool, e: SubmitEnv)
    ensures var sent := p.(mosi := p.mosi + Buffers(OUTER, payload, e.header));
            Missed(SubmitOnce(p, payload, e).0, waitForFall)
            <==> WroteAll(payload, e.header, e.payload)
                 && !(Hears(sent, e.queued, e.rises, 0xb0) && (waitForFall ==> e.falls))
  {
  }

  /** An acknowledged command is answered exactly if its own command byte is heard and the line falls. */
  lemma AnswerExactly(p: Spi, payload: Bytes, sameIrq: bool, e: ResponseEnv)
    requires |payload| > 0
    ensures var (events, q) := Submit(p, payload, !sameIrq, e.submits);
            Answered(RequestOnce(p, payload, sameIrq, e).0, payload[0])
            <==> Acked(events, !sameIrq) && Hears(q, e.queued, sameIrq || e.rises, payload[0]) && e.falls
  {
  }

  /** With the response expected on the same interrupt the line is not waited for again. */
  lemma SameIrqHears(p: Spi, payload: Bytes, e: ResponseEnv)
    ensures var t := RequestOnce(p, payload, true, e).0; t.response.Some? ==> t.response.value.Heard?
    ensures var t := RequestOnce(p, payload, false, e).0; t.response.Some? ==> (t.response.value.Silent? <==> !e.rises)
  {
    var q := Submit(p, payload, false, e.submits).1;
    SilentExactly(q, e.queued, true, e.falls);
    SilentExactly(Submit(p, payload, true, e.submits).1, e.queued, e.rises, e.falls);
  }

  // ---- a well-behaved exchange -----------------------------------------------------------

  /** On a bus without faults a frame that the MCU queues on an empty stream is heard, and leaves it empty. */
  lemma FrameHeard(p: Spi, payload: Bytes, falls: bool)
    requires p.miso == [] && (forall i :: !p.faults(i)) && 1 <= |payload| <= 65534
    ensures var (heard, q) := Listen(p, Frame(OUTER, payload), true, falls);
            heard == Heard(Packet(OUTER, payload, []), falls) && q.miso == [] && q.faults == p.faults
  {
    HeardExactly(p, Frame(OUTER, payload), falls);
    ReadExactly(p.(miso := p.miso + Frame(OUTER, payload)), 0);
    FrameRoundTrip(OUTER, payload, [], p.idle, 0);
    assert [] + Frame(OUTER, payload) == Frame(OUTER, payload) + [];
  }

  /** An MCU that acknowledges at once and answers, on a bus without faults: one write, and the answer is returned. */
  lemma GoodExchange(p: Spi, payload: Bytes, sameIrq: bool, env: nat -> ResponseEnv, ack: Bytes, answer: Bytes)
    requires |payload| > 0 && p.miso == [] && forall i :: !p.faults(i)
    requires 1 <= |ack| <= 65534 && ack[0] == ACK && 1 <= |answer| <= 65534 && answer[0] == payload[0]
    requires var e := env(1).submits(1);
             WroteAll(payload, e.header, e.payload) && e.queued == Frame(OUTER, ack) && e.rises && e.falls
    requires env(1).queued == Frame(OUTER, answer) && env(1).rises && env(1).falls
    ensures var (tries, q) := Request(p, payload, sameIrq, env);
            && AnswerOf(tries, payload[0]) == Some(answer) && q.miso == []
            && Count(AllEvents(tries), IsWrite) == 1
  {
    var e := env(1).submits(1);
    var sent := p.(mosi := p.mosi + Buffers(OUTER, payload, e.header));
    FrameHeard(sent, ack, true);
    var q := Listen(sent, e.queued, true, true).1;
    FrameHeard(q, answer, true);
    var t := RequestOnce(p, payload, sameIrq, env(1)).0;
    OneWrite(t);
    assert [t][1..] == [] && EventsOf(t) + [] == EventsOf(t);
  }

  lemma OneWrite(t: Try)
    requires |t.submit| == 2 && t.submit[0].Wrote? && !t.submit[1].Wrote?
    requires t.response.Some? && !t.response.value.Wrote?
    ensures Count(EventsOf(t), IsWrite) == 1
  {
    var first, heard, answer := [t.submit[0]], [t.submit[1]], [t.response.value];
    assert EventsOf(t) == first + heard + answer;
    CountAppend(first + heard, answer, IsWrite);
    CountAppend(first, heard, IsWrite);
    assert first[..0] == [] && heard[..0] == [] && answer[..0] == [];
  }

  lemma TryLogged(log: seq<Event>, tries: seq<Try>, t: Try)
    ensures log + AllEvents(tries) + EventsOf(t) == log + AllEvents(tries + [t])
  {
    AllEventsAppend(tries, t);
    Associative(log, AllEvents(tries), EventsOf(t));
  }

  lemma AnswerOfLast(tries: seq<Try>, t: Try, command: Byte)
    ensures AnswerOf(tries + [t], command)
            == if Answered(t, command) then Some(t.response.value.read.payload) else None
  {
  }

  // ---- the loops ---------------------------------------------------------------------------

  /** These events of a submit are past, and the attempt now begins. */
  ghost predicate Submitting(p: Spi, payload: Bytes, waitForFall: bool, env: nat -> SubmitEnv,
                             events: seq<Event>, now: Spi, attempt: nat) {
    var (more, q) := Submit(now, payload, waitForFall, env, attempt);
    Submit(p, payload, waitForFall, env) == (events + more, q)
  }

  lemma SubmitBegins(p: Spi, payload: Bytes, waitForFall: bool, env: nat -> SubmitEnv)
    ensures Submitting(p, payload, waitForFall, env, [], p, 1)
  {
    assert [] + Submit(p, payload, waitForFall, env).0 == Submit(p, payload, waitForFall, env).0;
  }

  lemma SubmitGoesOn(p: Spi, payload: Bytes, waitForFall: bool, env: nat -> SubmitEnv,
                     events: seq<Event>, now: Spi, attempt: nat)
    requires Submitting(p, payload, waitForFall, env, events, now, attempt)
    ensures var (more, q) := SubmitOnce(now, payload, env(attempt));
            if Missed(more, waitForFall) && attempt < ATTEMPTS
            then Submitting(p, payload, waitForFall, env, events + more, q, attempt + 1)
            else Submit(p, payload, waitForFall, env) == (events + more, q)
  {
    var (more, q) := SubmitOnce(now, payload, env(attempt));
    Associative(events, more, Submit(q, payload, waitForFall, env, attempt + 1).0);
  }

  ghost predicate Requesting(p: Spi, payload: Bytes, sameIrq: bool, env: nat -> ResponseEnv,
                             tries: seq<Try>, now: Spi, attempt: nat)
    requires |payload| > 0
  {
    var (more, q) := Request(now, payload, sameIrq, env, attempt);
    Request(p, payload, sameIrq, env) == (tries + more, q)
  }

  lemma RequestBegins(p: Spi, payload: Bytes, sameIrq: bool, env: nat -> ResponseEnv)
    requires |payload| > 0
    ensures Requesting(p, payload, sameIrq, env, [], p, 1)
  {
    assert [] + Request(p, payload, sameIrq, env).0 == Request(p, payload, sameIrq, env).0;
  }

  lemma RequestGoesOn(p: Spi, payload: Bytes, sameIrq: bool, env: nat -> ResponseEnv,
                      tries: seq<Try>, now: Spi, attempt: nat)
    requires |payload| > 0 && Requesting(p, payload, sameIrq, env, tries, now, attempt)
    ensures var (t, q) := RequestOnce(now, payload, sameIrq, env(attempt));
            if Unanswered(t, payload[0]) && attempt < ATTEMPTS
            then Requesting(p, payload, sameIrq, env, tries + [t], q, attempt + 1)
            else Request(p, payload, sameIrq, env) == (tries + [t], q)
  {
    var (t, q) := RequestOnce(now, payload, sameIrq, env(attempt));
    Associative(tries, [t], Request(q, payload, sameIrq, env, attempt + 1).0);
  }
}

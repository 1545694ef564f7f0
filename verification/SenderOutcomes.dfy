/** When each outcome of a sending thread's calls occurs: exact conditions on what arrived and when. */
module SenderOutcomes {
  import opened Common
  import opened Queues
  import opened Records
  import opened SenderSpec

  // ---- one wait --------------------------------------------------------------------

  /** What has arrived between the look before and this one; after the last turn there is one more look. */
  function BatchAt(turns: seq<Turn>, n: nat): seq<Payload> {
    if n < |turns| then turns[n].arrived else []
  }

  /** The queues at the n-th look, if no look before it ended the wait. */
  function SeenAt(st: Store, turns: seq<Turn>, n: nat): Store {
    EnqueueAll(if n == 0 then st else SeenAt(st, turns, n - 1), BatchAt(turns, n))
  }

  /** A stop was requested before or at this look. */
  ghost predicate StopAt(stop: bool, turns: seq<Turn>, n: nat) {
    stop || exists i | 0 <= i <= n && i < |turns| :: turns[i].stopped
  }

  predicate DueAt(turns: seq<Turn>, n: nat) {
    n >= |turns| || turns[n].expired
  }

  /** Nothing to take, no stop and time left. */
  ghost predicate SleepsOn(st: Store, stop: bool, k: Kind, turns: seq<Turn>, n: nat) {
    SeenAt(st, turns, n).queues[k] == [] && !StopAt(stop, turns, n) && !DueAt(turns, n)
  }

  /** The first look after which the wait does not go on. */
  ghost predicate EndsAt(st: Store, stop: bool, k: Kind, turns: seq<Turn>, n: nat) {
    !SleepsOn(st, stop, k, turns, n) && forall m: nat | m < n :: SleepsOn(st, stop, k, turns, m)
  }

  /** At that look a packet comes first, then the stop request, then the deadline. */
  ghost predicate EndsWith(st: Store, stop: bool, k: Kind, turns: seq<Turn>, n: nat, w: (Store, bool, Awaited)) {
    var seen, stopped := SeenAt(st, turns, n), StopAt(stop, turns, n);
    w == (if seen.queues[k] != [] then (Pop(seen, k, Delivered), stopped, Got(seen.queues[k][0]))
          else (seen, stopped, if stopped then Closed else TimedOut))
  }

  lemma {:induction false} SeenLater(st: Store, turns: seq<Turn>, n: nat)
    requires turns != []
    ensures SeenAt(st, turns, n + 1) == SeenAt(EnqueueAll(st, turns[0].arrived), turns[1..], n)
  {
    assert BatchAt(turns, n + 1) == BatchAt(turns[1..], n);
    if n > 0 {
      SeenLater(st, turns, n - 1);
    } else {
      assert SeenAt(st, turns, 0) == EnqueueAll(st, turns[0].arrived);
    }
  }

  lemma StopLater(stop: bool, turns: seq<Turn>, n: nat)
    requires turns != []
    ensures StopAt(stop, turns, n + 1) <==> StopAt(stop || turns[0].stopped, turns[1..], n)
  {
    var rest := turns[1..];
    if i :| 0 <= i <= n && i < |rest| && rest[i].stopped {
      assert turns[i + 1].stopped;
    }
    if i :| 0 <= i <= n + 1 && i < |turns| && turns[i].stopped && i > 0 {
      assert rest[i - 1].stopped;
    }
  }

  lemma SleepsLater(st: Store, stop: bool, k: Kind, turns: seq<Turn>, n: nat)
    requires turns != []
    ensures SleepsOn(st, stop, k, turns, n + 1)
            <==> SleepsOn(EnqueueAll(st, turns[0].arrived), stop || turns[0].stopped, k, turns[1..], n)
  {
    SeenLater(st, turns, n);
    StopLater(stop, turns, n);
  }

  /** Every wait ends at its first look that finds a packet, a stop request or the deadline, and with that. */
  lemma {:induction false} AwaitExactly(st: Store, stop: bool, k: Kind, turns: seq<Turn>) returns (n: nat)
    ensures n <= |turns| && EndsAt(st, stop, k, turns, n) && EndsWith(st, stop, k, turns, n, Await(st, stop, k, turns))
    decreases |turns|
  {
    if SleepsOn(st, stop, k, turns, 0) {
      var seen, stopped := EnqueueAll(st, turns[0].arrived), stop || turns[0].stopped;
      var m := AwaitExactly(seen, stopped, k, turns[1..]);
      n := m + 1;
      EndsLater(st, stop, k, turns, m);
      SeenLater(st, turns, m);
      StopLater(stop, turns, m);
    } else {
      n := 0;
    }
  }

  lemma EndsLater(st: Store, stop: bool, k: Kind, turns: seq<Turn>, m: nat)
    requires turns != [] && SleepsOn(st, stop, k, turns, 0)
    requires EndsAt(EnqueueAll(st, turns[0].arrived), stop || turns[0].stopped, k, turns[1..], m)
    ensures EndsAt(st, stop, k, turns, m + 1)
  {
    SleepsLater(st, stop, k, turns, m);
    forall i: nat | i < m + 1 ensures SleepsOn(st, stop, k, turns, i) {
      if i > 0 {
        SleepsLater(st, stop, k, turns, i - 1);
      }
    }
  }

  // ---- an acknowledged submit ----------------------------------------------------------

  function Writes(log: seq<Event>): nat {
    Count(log, IsWrite)
  }

  lemma OneWriteLog(payload: Bytes, e: Event)
    requires !e.Wrote?
    ensures Writes([Wrote(payload)]) == 1 && Writes([Wrote(payload), e]) == 1
  {
    assert [Wrote(payload)][..0] == [] && [e][..0] == [];
    CountAppend([Wrote(payload)], [e], IsWrite);
    assert [Wrote(payload)] + [e] == [Wrote(payload), e];
  }

  function ResultOf(awaited: Awaited): Option<Result> {
    match awaited
    case Got(ack) => Some(Acked(ack))
    case Closed => Some(ListenerClosed)
    case TimedOut => None
  }

  /** One write, and what its wait for the ACK meant. */
  lemma AckOnceExactly(st: Store, stop: bool, payload: Bytes, e: Submit)
    ensures var a, w := AckOnce(st, stop, payload, e), Await(st, stop, ACK, e.turns);
            && Writes(a.log) == 1
            && (a.st, a.stop) == (if e.writeOk then (w.0, w.1) else (st, stop))
            && (!e.writeOk ==> a.result == Some(WriteFailed))
            && (e.writeOk ==> a.result == ResultOf(w.2))
  {
    var awaited := Await(st, stop, ACK, e.turns).2;
    OneWriteLog(payload, if awaited.Got? then Received(awaited.packet)
                         else if awaited.Closed? then Lost(ACK) else GaveUp(ACK));
  }

  /** The waits of the two attempts; the second starts where the first one ended. */
  function FirstWait(st: Store, stop: bool, env: nat -> Submit): (Store, bool, Awaited) {
    Await(DrainKind(st, ACK), stop, ACK, env(1).turns)
  }

  function SecondWait(st: Store, stop: bool, env: nat -> Submit): (Store, bool, Awaited) {
    var (seen, stopped, _) := FirstWait(st, stop, env);
    Await(seen, stopped, ACK, env(2).turns)
  }

  /** The first write went out and its ACK timed out. */
  predicate Resends(st: Store, stop: bool, env: nat -> Submit) {
    env(1).writeOk && FirstWait(st, stop, env).2.TimedOut?
  }

  /** The ACK is this one: of the first write, or of the resend after a timeout. */
  predicate AckIs(st: Store, stop: bool, env: nat -> Submit, ack: Packet) {
    || (env(1).writeOk && FirstWait(st, stop, env).2 == Got(ack))
    || (Resends(st, stop, env) && env(2).writeOk && SecondWait(st, stop, env).2 == Got(ack))
  }

  /** The submit ended after its only write, or after the resend. */
  lemma SubmitEnds(st: Store, stop: bool, payload: Bytes, env: nat -> Submit)
    ensures var o, again := SendAck(st, stop, payload, env), Resends(st, stop, env);
            var last, w := if again then env(2) else env(1),
                           if again then SecondWait(st, stop, env) else FirstWait(st, stop, env);
            && Writes(o.log) == (if again then 2 else 1)
            && o.result == (if !last.writeOk then WriteFailed
                            else if w.2.TimedOut? then NoAck else ResultOf(w.2).value)
  {
    var drained := DrainKind(st, ACK);
    var a := AckOnce(drained, stop, payload, env(1));
    AckOnceExactly(drained, stop, payload, env(1));
    if Resends(st, stop, env) {
      var b := AckOnce(a.st, a.stop, payload, env(2));
      AckOnceExactly(a.st, a.stop, payload, env(2));
      CountAppend(a.log, b.log, IsWrite);
    }
  }

  /** A submit is written twice exactly when its first ACK timed out, and each of its results has this one cause. */
  lemma SubmitExactly(st: Store, stop: bool, payload: Bytes, env: nat -> Submit)
    ensures var o, again := SendAck(st, stop, payload, env), Resends(st, stop, env);
            var w1, w2 := FirstWait(st, stop, env), SecondWait(st, stop, env);
            && Writes(o.log) == (if again then 2 else 1)
            && (forall p :: o.result == Acked(p) <==> AckIs(st, stop, env, p))
            && (o.result == WriteFailed <==> !env(1).writeOk || (again && !env(2).writeOk))
            && (o.result == NoAck <==> again && env(2).writeOk && w2.2.TimedOut?)
            && (o.result == ListenerClosed
                <==> (env(1).writeOk && w1.2.Closed?) || (again && env(2).writeOk && w2.2.Closed?))
            && (o.result.Acked? || o.result.WriteFailed? || o.result.NoAck? || o.result.ListenerClosed?)
  {
    SubmitEnds(st, stop, payload, env);
  }

  // ---- a command and its response --------------------------------------------------------

  /** One attempt: its submit, and the wait for the answer of that kind. */
  function SentFor(st: Store, stop: bool, payload: Bytes, k: Kind, e: Request): Outcome {
    SendAck(DrainKind(st, k), stop, payload, e.submits)
  }

  function WaitFor(st: Store, stop: bool, payload: Bytes, k: Kind, e: Request): (Store, bool, Awaited) {
    var sent := SentFor(st, stop, payload, k, e);
    Await(sent.st, sent.stop, k, e.turns)
  }

  predicate AnsweredBy(st: Store, stop: bool, payload: Bytes, k: Kind, e: Request, p: Packet) {
    SentFor(st, stop, payload, k, e).result.Acked? && WaitFor(st, stop, payload, k, e).2 == Got(p)
  }

  /** The submit was acknowledged and the answer did not come in time. */
  predicate Silent(st: Store, stop: bool, payload: Bytes, k: Kind, e: Request) {
    SentFor(st, stop, payload, k, e).result.Acked? && WaitFor(st, stop, payload, k, e).2.TimedOut?
  }

  /** What ends an attempt without an answer and without a repetition. */
  function Ending(st: Store, stop: bool, payload: Bytes, k: Kind, e: Request): Result {
    var sent := SentFor(st, stop, payload, k, e);
    if sent.result.Acked? then ListenerClosed else sent.result
  }

  lemma CommandOnceExactly(st: Store, stop: bool, payload: Bytes, k: Kind, e: Request)
    ensures var a := CommandOnce(st, stop, payload, k, e);
            && Writes(a.log) == Writes(SentFor(st, stop, payload, k, e).log)
            && (a.result == None <==> Silent(st, stop, payload, k, e))
            && (forall p :: a.result == Some(Response(p)) <==> AnsweredBy(st, stop, payload, k, e, p))
            && (a.result.Some? && !a.result.value.Response? ==> a.result.value == Ending(st, stop, payload, k, e))
            && (Silent(st, stop, payload, k, e) ==> (a.st, a.stop) == (WaitFor(st, stop, payload, k, e).0, false))
  {
    var sent := SentFor(st, stop, payload, k, e);
    SubmitExactly(DrainKind(st, k), stop, payload, e.submits);
    if sent.result.Acked? {
      var w := WaitFor(st, stop, payload, k, e);
      AwaitLeavesNothing(sent.st, sent.stop, k, e.turns);
      OneMore(sent.log, if w.2.Got? then Received(w.2.packet) else if w.2.Closed? then Lost(k) else GaveUp(k));
    }
  }

  lemma OneMore(log: seq<Event>, e: Event)
    requires !e.Wrote?
    ensures Writes(log + [e]) == Writes(log)
  {
    assert (log + [e])[..|log|] == log;
  }

  /**
    A command is sent again as a whole exactly when it was acknowledged and its response did not come in time; it
    returns the response of the attempt that got one, and else what ended its last attempt.
   */
  lemma CommandExactly(st: Store, stop: bool, payload: Bytes, k: Kind, env: nat -> Request)
    ensures var o, again := Command(st, stop, payload, k, env), Silent(st, stop, payload, k, env(1));
            var next := WaitFor(st, stop, payload, k, env(1)).0;
            && (forall p :: o.result == Response(p)
                  <==> AnsweredBy(st, stop, payload, k, env(1), p)
                       || (again && AnsweredBy(next, false, payload, k, env(2), p)))
            && (o.result == NoResponse <==> again && Silent(next, false, payload, k, env(2)))
            && (!o.result.Response? && !o.result.NoResponse? ==>
                  o.result == if again then Ending(next, false, payload, k, env(2))
                              else Ending(st, stop, payload, k, env(1)))
  {
    CommandOnceExactly(st, stop, payload, k, env(1));
    EndingIsNoAnswer(st, stop, payload, k, env(1));
    if Silent(st, stop, payload, k, env(1)) {
      var next := WaitFor(st, stop, payload, k, env(1)).0;
      CommandOnceExactly(next, false, payload, k, env(2));
      EndingIsNoAnswer(next, false, payload, k, env(2));
    }
  }

  /** The same for its writes. */
  lemma CommandWrites(st: Store, stop: bool, payload: Bytes, k: Kind, env: nat -> Request)
    ensures var next := WaitFor(st, stop, payload, k, env(1)).0;
            Writes(Command(st, stop, payload, k, env).log)
            == Writes(SentFor(st, stop, payload, k, env(1)).log)
               + if Silent(st, stop, payload, k, env(1))
                 then Writes(SentFor(next, false, payload, k, env(2)).log) else 0
  {
    var a := CommandOnce(st, stop, payload, k, env(1));
    CommandOnceExactly(st, stop, payload, k, env(1));
    if a.result == None {
      var b := CommandOnce(a.st, a.stop, payload, k, env(2));
      CommandOnceExactly(a.st, a.stop, payload, k, env(2));
      CountAppend(a.log, b.log, IsWrite);
    }
  }

  lemma EndingIsNoAnswer(st: Store, stop: bool, payload: Bytes, k: Kind, e: Request)
    ensures var r := Ending(st, stop, payload, k, e);
            !r.Response? && !r.NoResponse? && !r.Image? && !r.BadRecord? && !r.DecryptFailed? && !r.ShortImage?
  {
    SubmitExactly(DrainKind(st, k), stop, payload, e.submits);
  }

  // ---- one image ---------------------------------------------------------------------------

  /** Framed as TLS application data of major version three, and as long as its length field says. */
  predicate WellFramed(payload: Bytes) {
    && |payload| >= 5 && payload[0] == 0x17 && payload[1] == 3
    && var hi: int, lo: int := payload[3], payload[4];
    5 + 256 * hi + lo <= |payload|
  }

  /** The plaintext holds a prefix and a whole frame. */
  predicate Whole(plain: Bytes) {
    |plain| >= 8 + 7680
  }

  /** This record decrypts to this frame. */
  predicate Yields(payload: Bytes, decrypt: Bytes -> Option<Bytes>, packed: Packed) {
    && WellFramed(payload) && decrypt(payload).Some? && Whole(decrypt(payload).value)
    && packed == decrypt(payload).value[8..7688]
  }

  /** A record is decrypted exactly when it is well framed, and each judgement of it has this one cause. */
  lemma OpenedExactly(record: Packet, decrypt: Bytes -> Option<Bytes>)
    ensures var (events, r) := Opened(record, decrypt);
            var plain := decrypt(record.payload);
            && events == (if WellFramed(record.payload) then [Decrypted(record)] else [])
            && (r == BadRecord <==> !WellFramed(record.payload))
            && (r == DecryptFailed <==> WellFramed(record.payload) && plain.None?)
            && (r == ShortImage <==> WellFramed(record.payload) && plain.Some? && !Whole(plain.value))
            && (forall packed :: r == Image(packed) <==> Yields(record.payload, decrypt, packed))
            && (r.BadRecord? || r.DecryptFailed? || r.ShortImage? || r.Image?)
  {
  }

  /** The capture's log: the submit, one suppressed readout if it was acknowledged, then the record. */
  ghost predicate CapturedLog(a: Attempt, sent: Outcome) {
    if sent.result.Acked?
    then sent.log + [Suppress(true), Suppress(false)] <= a.log
         && (forall i | |sent.log| + 2 <= i < |a.log| :: !a.log[i].Suppress? && !a.log[i].Wrote?)
    else a.log == sent.log
  }

  lemma CaptureOnceExactly(st: Store, stop: bool, payload: Bytes, e: Request, decrypt: Bytes -> Option<Bytes>)
    ensures var a := CaptureOnce(st, stop, payload, e, decrypt);
            && CapturedLog(a, SentFor(st, stop, payload, IMAGE_RECORD, e))
            && (a.result == None <==> Silent(st, stop, payload, IMAGE_RECORD, e))
            && (forall p | AnsweredBy(st, stop, payload, IMAGE_RECORD, e, p) :: a.result == Some(Opened(p, decrypt).1))
            && (a.result.Some? && !WaitFor(st, stop, payload, IMAGE_RECORD, e).2.Got? ==>
                  a.result.value == Ending(st, stop, payload, IMAGE_RECORD, e))
            && (!SentFor(st, stop, payload, IMAGE_RECORD, e).result.Acked? ==>
                  a.result == Some(Ending(st, stop, payload, IMAGE_RECORD, e)))
            && (Silent(st, stop, payload, IMAGE_RECORD, e) ==>
                  (a.st, a.stop) == (WaitFor(st, stop, payload, IMAGE_RECORD, e).0, false))
  {
    var sent := SentFor(st, stop, payload, IMAGE_RECORD, e);
    if sent.result.Acked? {
      AwaitLeavesNothing(sent.st, sent.stop, IMAGE_RECORD, e.turns);
    }
  }

  /** The attempt's record yields this frame. */
  ghost predicate ImageFrom(st: Store, stop: bool, payload: Bytes, e: Request, decrypt: Bytes -> Option<Bytes>,
                            packed: Packed) {
    exists p :: AnsweredBy(st, stop, payload, IMAGE_RECORD, e, p) && Yields(p.payload, decrypt, packed)
  }

  lemma ImageOnceExactly(st: Store, stop: bool, payload: Bytes, e: Request, decrypt: Bytes -> Option<Bytes>,
                         packed: Packed)
    ensures CaptureOnce(st, stop, payload, e, decrypt).result == Some(Image(packed))
            <==> ImageFrom(st, stop, payload, e, decrypt, packed)
  {
    var a := CaptureOnce(st, stop, payload, e, decrypt);
    CaptureOnceExactly(st, stop, payload, e, decrypt);
    EndingIsNoAnswer(st, stop, payload, IMAGE_RECORD, e);
    var sent, w := SentFor(st, stop, payload, IMAGE_RECORD, e), WaitFor(st, stop, payload, IMAGE_RECORD, e);
    if sent.result.Acked? && w.2.Got? {
      assert AnsweredBy(st, stop, payload, IMAGE_RECORD, e, w.2.packet);
      OpenedExactly(w.2.packet, decrypt);
    }
  }

  /**
    An image is returned exactly when the record of the first attempt yields it, or that record did not come in time
    and the one of the second attempt yields it.
   */
  lemma CaptureExactly(st: Store, stop: bool, payload: Bytes, env: nat -> Request, decrypt: Bytes -> Option<Bytes>,
                       packed: Packed)
    ensures var again := Silent(st, stop, payload, IMAGE_RECORD, env(1));
            var next := WaitFor(st, stop, payload, IMAGE_RECORD, env(1)).0;
            Capture(st, stop, payload, env, decrypt).result == Image(packed)
            <==> ImageFrom(st, stop, payload, env(1), decrypt, packed)
                 || (again && ImageFrom(next, false, payload, env(2), decrypt, packed))
  {
    var a := CaptureOnce(st, stop, payload, env(1), decrypt);
    CaptureOnceExactly(st, stop, payload, env(1), decrypt);
    ImageOnceExactly(st, stop, payload, env(1), decrypt, packed);
    if a.result == None {
      CaptureOnceExactly(a.st, a.stop, payload, env(2), decrypt);
      ImageOnceExactly(a.st, a.stop, payload, env(2), decrypt, packed);
    }
  }

  lemma {:induction false} NoWritesAdd(log: seq<Event>, n: nat)
    requires n <= |log| && forall i | n <= i < |log| :: !log[i].Wrote?
    ensures Writes(log) == Writes(log[..n])
    decreases |log|
  {
    if n < |log| {
      var last := |log| - 1;
      assert log[..last][..n] == log[..n];
      NoWritesAdd(log[..last], n);
    } else {
      assert log[..n] == log;
    }
  }

  lemma CapturedWrites(st: Store, stop: bool, payload: Bytes, e: Request, decrypt: Bytes -> Option<Bytes>)
    ensures Writes(CaptureOnce(st, stop, payload, e, decrypt).log)
            == Writes(SentFor(st, stop, payload, IMAGE_RECORD, e).log)
  {
    var a, sent := CaptureOnce(st, stop, payload, e, decrypt), SentFor(st, stop, payload, IMAGE_RECORD, e);
    CaptureOnceExactly(st, stop, payload, e, decrypt);
    if sent.result.Acked? {
      var quiet := sent.log + [Suppress(true), Suppress(false)];
      assert a.log[..|quiet|] == quiet && quiet[..|sent.log|] == sent.log;
      NoWritesAdd(quiet, |sent.log|);
      NoWritesAdd(a.log, |quiet|);
    }
  }

  /** What an attempt that is not repeated ends with: the judgement of its record, or what kept it away. */
  ghost predicate EndsAttempt(st: Store, stop: bool, payload: Bytes, e: Request, decrypt: Bytes -> Option<Bytes>,
                              r: Result) {
    if exists p :: AnsweredBy(st, stop, payload, IMAGE_RECORD, e, p)
    then exists p :: AnsweredBy(st, stop, payload, IMAGE_RECORD, e, p) && r == Opened(p, decrypt).1
    else r == Ending(st, stop, payload, IMAGE_RECORD, e)
  }

  /**
    A capture is repeated as a whole exactly when it was acknowledged and its record did not come in time; every other
    attempt ends it, with the judgement of the record it got or with what kept the record away.
   */
  lemma CaptureEndsExactly(st: Store, stop: bool, payload: Bytes, env: nat -> Request, decrypt: Bytes -> Option<Bytes>)
    ensures var o, again := Capture(st, stop, payload, env, decrypt), Silent(st, stop, payload, IMAGE_RECORD, env(1));
            var next := WaitFor(st, stop, payload, IMAGE_RECORD, env(1)).0;
            && Writes(o.log) == Writes(SentFor(st, stop, payload, IMAGE_RECORD, env(1)).log)
                                + (if again then Writes(SentFor(next, false, payload, IMAGE_RECORD, env(2)).log) else 0)
            && (!again ==> EndsAttempt(st, stop, payload, env(1), decrypt, o.result))
            && (again && !Silent(next, false, payload, IMAGE_RECORD, env(2)) ==>
                  EndsAttempt(next, false, payload, env(2), decrypt, o.result))
            && (o.result == NoResponse <==> again && Silent(next, false, payload, IMAGE_RECORD, env(2)))
  {
    var a := CaptureOnce(st, stop, payload, env(1), decrypt);
    CaptureOnceExactly(st, stop, payload, env(1), decrypt);
    CapturedWrites(st, stop, payload, env(1), decrypt);
    AttemptEnds(st, stop, payload, env(1), decrypt);
    JudgedIsNoTimeout(st, stop, payload, env(1), decrypt);
    if a.result == None {
      var b := CaptureOnce(a.st, a.stop, payload, env(2), decrypt);
      CaptureOnceExactly(a.st, a.stop, payload, env(2), decrypt);
      CapturedWrites(a.st, a.stop, payload, env(2), decrypt);
      AttemptEnds(a.st, a.stop, payload, env(2), decrypt);
      JudgedIsNoTimeout(a.st, a.stop, payload, env(2), decrypt);
      CountAppend(a.log, b.log, IsWrite);
    }
  }

  lemma AttemptEnds(st: Store, stop: bool, payload: Bytes, e: Request, decrypt: Bytes -> Option<Bytes>)
    ensures var a := CaptureOnce(st, stop, payload, e, decrypt);
            a.result.Some? ==> EndsAttempt(st, stop, payload, e, decrypt, a.result.value)
  {
    CaptureOnceExactly(st, stop, payload, e, decrypt);
    var sent, w := SentFor(st, stop, payload, IMAGE_RECORD, e), WaitFor(st, stop, payload, IMAGE_RECORD, e);
    if sent.result.Acked? && w.2.Got? {
      assert AnsweredBy(st, stop, payload, IMAGE_RECORD, e, w.2.packet);
    }
  }

  lemma JudgedIsNoTimeout(st: Store, stop: bool, payload: Bytes, e: Request, decrypt: Bytes -> Option<Bytes>)
    ensures CaptureOnce(st, stop, payload, e, decrypt).result != Some(NoResponse)
  {
    CaptureOnceExactly(st, stop, payload, e, decrypt);
    EndingIsNoAnswer(st, stop, payload, IMAGE_RECORD, e);
    var w := WaitFor(st, stop, payload, IMAGE_RECORD, e);
    if SentFor(st, stop, payload, IMAGE_RECORD, e).result.Acked? && w.2.Got? {
      assert AnsweredBy(st, stop, payload, IMAGE_RECORD, e, w.2.packet);
      OpenedExactly(w.2.packet, decrypt);
    }
  }

  // ---- a well-behaved exchange ---------------------------------------------------------------

  /** A look that finds one packet: it was queued behind an empty queue, and is taken. */
  lemma TakesOnly(st: Store, stop: bool, k: Kind, p: Payload, stopped: bool, expired: bool, rest: seq<Turn>)
    requires st.queues[k] == [] && p[0] == k
    ensures Await(st, stop, k, [Turn([p], stopped, expired)] + rest)
            == (Pop(Enqueue(st, p), k, Delivered), stop || stopped, Got(Packet(|st.arrivals|, p)))
  {
    assert [p][1..] == [];
    assert EnqueueAll(st, [p]) == EnqueueAll(Enqueue(st, p), []);
  }

  /** The MCU acknowledges at once, whatever was queued before the call. */
  predicate AcksAtOnce(submits: nat -> Submit, ack: Payload, rest: seq<Turn>) {
    && ack[0] == ACK && submits(1).writeOk
    && submits(1).turns == [Turn([ack], false, false)] + rest
  }

  lemma GoodSubmit(st: Store, payload: Bytes, env: nat -> Submit, ack: Payload, rest: seq<Turn>)
    requires AcksAtOnce(env, ack, rest)
    ensures var o, p := SendAck(st, false, payload, env), Packet(|DrainKind(st, ACK).arrivals|, ack);
            && o.result == Acked(p) && o.log == [Wrote(payload), Received(p)] && !o.stop
            && o.st == Pop(Enqueue(DrainKind(st, ACK), ack), ACK, Delivered)
  {
    TakesOnly(DrainKind(st, ACK), false, ACK, ack, false, false, rest);
  }

  /** An acknowledged command whose response arrives is written once and returns that response. */
  lemma GoodCommand(st: Store, payload: Bytes, k: Kind, env: nat -> Request, ack: Payload, answer: Payload,
                    ackRest: seq<Turn>, rest: seq<Turn>)
    requires AcksAtOnce(env(1).submits, ack, ackRest) && k != ACK && answer[0] == k
    requires env(1).turns == [Turn([answer], false, false)] + rest
    ensures var o := Command(st, false, payload, k, env);
            && o.result.Response? && o.result.packet.payload == answer
            && |o.log| == 3 && o.log[0] == Wrote(payload) && o.log[1].Received? && o.log[2] == Received(o.result.packet)
  {
    var drained := DrainKind(st, k);
    GoodSubmit(drained, payload, env(1).submits, ack, ackRest);
    TakesOnly(SendAck(drained, false, payload, env(1).submits).st, false, k, answer, false, false, rest);
  }

  /**
    A faultless capture: an ACK, then a record that decrypts to a whole frame. One write, one suppressed readout, one
    decryption, and exactly the packed frame after the eight prefix bytes.
   */
  lemma GoodCapture(st: Store, payload: Bytes, env: nat -> Request, decrypt: Bytes -> Option<Bytes>,
                    ack: Payload, record: Payload, ackRest: seq<Turn>, rest: seq<Turn>)
    requires AcksAtOnce(env(1).submits, ack, ackRest)
    requires env(1).turns == [Turn([record], false, false)] + rest
    requires WellFramed(record) && decrypt(record).Some? && Whole(decrypt(record).value)
    ensures var o := Capture(st, false, payload, env, decrypt);
            && o.result == Image(decrypt(record).value[8..7688])
            && |o.log| == 6 && o.log[0] == Wrote(payload) && o.log[1].Received?
            && o.log[2] == Suppress(true) && o.log[3] == Suppress(false)
            && o.log[4].Received? && o.log[4].packet.payload == record && o.log[5] == Decrypted(o.log[4].packet)
  {
    var drained := DrainKind(st, IMAGE_RECORD);
    GoodSubmit(drained, payload, env(1).submits, ack, ackRest);
    var sent := SendAck(drained, false, payload, env(1).submits);
    TakesOnly(sent.st, false, IMAGE_RECORD, record, false, false, rest);
    OpenedExactly(Packet(|sent.st.arrivals|, record), decrypt);
  }
}

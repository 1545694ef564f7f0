/** Packets turned into the byte stream OpenSSL reads, and the two-attempt handshake that classifies failures. */
module TlsAdapter {
  import opened Common
  import opened Records

  // ---- byte stream ----------------------------------------------------------------

  /** What the bus offers to one refill: an IRQ and a read, then one retry of both. */
  datatype Refill = Refill(rise: bool, first: Option<Bytes>, retryRise: bool, second: Option<Bytes>) {
    /** The packet of the first read that works; a second one is tried only after a failed first, on a new IRQ. */
    function Fetched(): (packet: Option<Bytes>)
      ensures forall p :: packet == Some(p)
                <==> rise && (first == Some(p) || (first.None? && retryRise && second == Some(p)))
    {
      if !rise then None
      else if first.Some? then first
      else if !retryRise then None
      else second
    }
  }

  datatype Request = Request(len: nat, refill: Refill)

  /** Bytes fetched but not yet handed over, and the progress noted so far. */
  datatype Bio = Bio(pending: Bytes, progress: Progress)

  const FRESH := Bio([], NO_PROGRESS)

  function Take(b: Bio, len: nat): (Bio, Option<Bytes>) {
    var n := if len < |b.pending| then len else |b.pending|;
    (b.(pending := b.pending[n..]), Some(b.pending[..n]))
  }

  /** One read request: refill from one packet only when nothing is pending. */
  function Step(b: Bio, q: Request): (Bio, Option<Bytes>) {
    if b.pending != [] then Take(b, q.len)
    else
      match q.refill.Fetched()
      case None => (b, None)
      case Some(packet) => Take(Bio(Patched(packet), Walk(b.progress, packet)), q.len)
  }

  /** Whether a request takes a packet off the bus. */
  predicate Refills(b: Bio, q: Request) {
    b.pending == [] && q.refill.Fetched().Some?
  }

  /** The packets a run of requests takes off the bus. */
  function Fed(b: Bio, qs: seq<Request>): seq<Bytes>
    decreases |qs|
  {
    if qs == [] then []
    else if Refills(b, qs[0]) then [qs[0].refill.Fetched().value] + Fed(Step(b, qs[0]).0, qs[1..])
    else Fed(Step(b, qs[0]).0, qs[1..])
  }

  function Run(b: Bio, qs: seq<Request>): Bio
    decreases |qs|
  {
    if qs == [] then b else Run(Step(b, qs[0]).0, qs[1..])
  }

  /** The bytes a run of requests hands to OpenSSL. */
  function Delivered(b: Bio, qs: seq<Request>): Bytes
    decreases |qs|
  {
    if qs == [] then [] else Handed(b, qs[0]) + Delivered(Step(b, qs[0]).0, qs[1..])
  }

  function Handed(b: Bio, q: Request): Bytes {
    var out := Step(b, q).1;
    if out.Some? then out.value else []
  }

  function PatchedAll(packets: seq<Bytes>): seq<Bytes> {
    if packets == [] then [] else [Patched(packets[0])] + PatchedAll(packets[1..])
  }

  lemma StepConserves(b: Bio, q: Request)
    ensures Handed(b, q) + Step(b, q).0.pending
            == if Refills(b, q) then Patched(q.refill.Fetched().value) else b.pending
  {
  }

  /**
    For every packet sequence and every sequence of read sizes, what was handed over followed by what is
    still pending is exactly what was pending followed by the patched packets: no loss, repetition or
    reordering.
   */
  lemma {:induction false} StreamConserved(b: Bio, qs: seq<Request>)
    ensures Delivered(b, qs) + Run(b, qs).pending == b.pending + Flatten(PatchedAll(Fed(b, qs)))
    decreases |qs|
  {
    if qs != [] {
      var next := Step(b, qs[0]).0;
      var rest := Flatten(PatchedAll(Fed(next, qs[1..])));
      StepConserves(b, qs[0]);
      StreamConserved(next, qs[1..]);
      Associative(Handed(b, qs[0]), Delivered(next, qs[1..]), Run(next, qs[1..]).pending);
      Associative(Handed(b, qs[0]), next.pending, rest);
      if Refills(b, qs[0]) {
        FlattenFirst(Patched(qs[0].refill.Fetched().value), PatchedAll(Fed(next, qs[1..])));
      }
    }
  }

  lemma FlattenFirst(first: Bytes, rest: seq<Bytes>)
    ensures Flatten([first] + rest) == first + Flatten(rest)
  {
    assert ([first] + rest)[1..] == rest;
  }

  /** From a reset, the bytes handed over are a prefix of the patched packets. */
  lemma DeliveredIsPrefix(qs: seq<Request>)
    ensures Delivered(FRESH, qs) <= Flatten(PatchedAll(Fed(FRESH, qs)))
  {
    StreamConserved(FRESH, qs);
    assert [] + Flatten(PatchedAll(Fed(FRESH, qs))) == Flatten(PatchedAll(Fed(FRESH, qs)));
  }

  // ---- progress over a run ------------------------------------------------------------

  /** Among these packets are a client hello, a client key exchange and a cipher change. */
  ghost predicate CompleteFlight(packets: seq<Bytes>) {
    && (exists s :: s in packets && ShowsHandshake(s, 0x01))
    && (exists s :: s in packets && ShowsHandshake(s, 0x10))
    && (exists s :: s in packets && ShowsCipherChange(s))
  }

  function WalkAll(p: Progress, packets: seq<Bytes>): Progress
    decreases |packets|
  {
    if packets == [] then p else WalkAll(Walk(p, packets[0]), packets[1..])
  }

  lemma {:induction false} RunProgress(b: Bio, qs: seq<Request>)
    ensures Run(b, qs).progress == WalkAll(b.progress, Fed(b, qs))
    decreases |qs|
  {
    if qs != [] {
      RunProgress(Step(b, qs[0]).0, qs[1..]);
      assert Refills(b, qs[0]) ==> Fed(b, qs)[1..] == Fed(Step(b, qs[0]).0, qs[1..]);
    }
  }

  lemma {:induction false} WalkAllSees(p: Progress, packets: seq<Bytes>)
    ensures WalkAll(p, packets).hello <==> p.hello || exists s :: s in packets && ShowsHandshake(s, 0x01)
    ensures WalkAll(p, packets).keyExchange <==> p.keyExchange || exists s :: s in packets && ShowsHandshake(s, 0x10)
    ensures WalkAll(p, packets).cipherChange <==> p.cipherChange || exists s :: s in packets && ShowsCipherChange(s)
    decreases |packets|
  {
    if packets != [] {
      var first := packets[0];
      WalkSeesRecords(p, first);
      WalkAllSees(Walk(p, first), packets[1..]);
      assert forall s :: s in packets <==> s == first || s in packets[1..];
    }
  }

  /** The three flags after a run say exactly that the packets of the run held a complete client flight. */
  lemma FlightNoted(qs: seq<Request>)
    ensures Run(FRESH, qs).progress.CompleteFlight() <==> CompleteFlight(Fed(FRESH, qs))
  {
    RunProgress(FRESH, qs);
    WalkAllSees(NO_PROGRESS, Fed(FRESH, qs));
  }

  // ---- handshake --------------------------------------------------------------------

  datatype Reason = BadRecordMac | DecryptionFailed | RecordLayerFailure | OtherReason

  datatype Verdict = Accepted | Refused(sslError: bool, reasons: seq<Reason>)

  /** One attempt: whether the session object and the trigger write worked, what OpenSSL read, what it decided. */
  datatype Attempt = Attempt(recreated: bool, wrote: bool, requests: seq<Request>, verdict: Verdict)

  datatype Outcome =
    | Established
    | Mismatch      // G_IO_ERROR_PERMISSION_DENIED
    | Unconfirmed   // G_IO_ERROR_CONNECTION_CLOSED
    | Broken        // no session object, or the trigger could not be written

  ghost predicate AuthenticationReason(reasons: seq<Reason>) {
    BadRecordMac in reasons || DecryptionFailed in reasons || RecordLayerFailure in reasons
  }

  /** A refusal that counts as evidence of a stale key. */
  ghost predicate Confirmed(a: Attempt) {
    && a.verdict.Refused? && a.verdict.sslError
    && AuthenticationReason(a.verdict.reasons)
    && CompleteFlight(Fed(FRESH, a.requests))
  }

  /** OpenSSL accepted the client in this attempt. */
  predicate Passed(a: Attempt) {
    a.wrote && a.verdict.Accepted?
  }

  /** OpenSSL refused the client in this attempt. */
  predicate TurnedDown(a: Attempt) {
    a.wrote && a.verdict.Refused?
  }

  /** Both attempts ran and were refused. */
  predicate TwiceTurnedDown(first: Attempt, second: Attempt) {
    TurnedDown(first) && second.recreated && TurnedDown(second)
  }

  /** What one handshake call reports, from what its two attempts met. */
  ghost function HandshakeOutcome(first: Attempt, second: Attempt): (r: Outcome)
    ensures r == Established <==> Passed(first) || (TurnedDown(first) && second.recreated && Passed(second))
    ensures r == Mismatch <==> TwiceTurnedDown(first, second) && Confirmed(first) && Confirmed(second)
    ensures r == Unconfirmed <==> TwiceTurnedDown(first, second) && !(Confirmed(first) && Confirmed(second))
    ensures r == Broken <==> !first.wrote || (TurnedDown(first) && !(second.recreated && second.wrote))
  {
    if !first.wrote then Broken
    else if first.verdict.Accepted? then Established
    else if !second.recreated || !second.wrote then Broken
    else if second.verdict.Accepted? then Established
    else if Confirmed(first) && Confirmed(second) then Mismatch
    else Unconfirmed
  }

  /** The attempts of one handshake call together with what the call reports for them. */
  datatype Exchange = Exchange(first: Attempt, second: Attempt, outcome: Outcome)

  type Handshaken = x: Exchange | x.outcome == HandshakeOutcome(x.first, x.second)
    ghost witness Exchange(NO_ATTEMPT, NO_ATTEMPT, HandshakeOutcome(NO_ATTEMPT, NO_ATTEMPT))

  const NO_ATTEMPT := Attempt(false, false, [], Refused(false, []))

  class Adapter {
    var rdBuf: array<Byte>
    var rdOff: nat
    var rdLen: nat
    var sawClientHello: bool
    var sawClientKeyExchange: bool
    var sawChangeCipherSpec: bool

    ghost predicate Valid()
      reads this
    {
      rdOff <= rdLen == rdBuf.Length
    }

    function Progress(): Progress
      reads this
    {
      Records.Progress.Progress(sawClientHello, sawClientKeyExchange, sawChangeCipherSpec)
    }

    ghost function State(): Bio
      requires Valid()
      reads this, rdBuf
    {
      Bio(rdBuf[rdOff..], Progress())
    }

    constructor ()
      ensures Valid() && State() == FRESH
    {
      rdBuf := new Byte[0];
      rdOff, rdLen := 0, 0;
      sawClientHello, sawClientKeyExchange, sawChangeCipherSpec := false, false, false;
    }

    /** A new session object: nothing pending, no progress. */
    method Recreate()
      modifies this
      ensures Valid() && State() == FRESH
    {
      rdBuf := new Byte[0];
      rdOff, rdLen := 0, 0;
      sawClientHello, sawClientKeyExchange, sawChangeCipherSpec := false, false, false;
    }

    /** The offset walk over one packet. */
    method NoteProgress(buf: array<Byte>)
      modifies this`sawClientHello, this`sawClientKeyExchange, this`sawChangeCipherSpec
      ensures Progress() == Walk(old(Progress()), buf[..])
    {
      var offset := 0;
      assert buf[0..] == buf[..];
      while offset + 5 <= buf.Length
        invariant 0 <= offset <= buf.Length
        invariant Walk(old(Progress()), buf[..]) == Walk(Progress(), buf[offset..])
      {
        ghost var s := buf[offset..];
        var contentType := buf[offset];
        var hi: int, lo: int := buf[offset + 3], buf[offset + 4];
        var recordLen := hi * 256 + lo;
        assert recordLen == BodyLength(s);
        if contentType == 0x14 {
          sawChangeCipherSpec := true;
        } else if contentType == 0x16 && recordLen >= 4 && offset + 5 + recordLen <= buf.Length {
          var handshakeType := buf[offset + 5];
          if handshakeType == 0x01 {
            sawClientHello := true;
          } else if handshakeType == 0x10 {
            sawClientKeyExchange := true;
          }
        }
        if recordLen == 0 || offset + 5 + recordLen > buf.Length {
          return;
        }
        offset := offset + 5 + recordLen;
        assert buf[offset..] == Tail(s);
      }
    }

    /** Notes a fetched packet as it arrived, repairs it, and makes it the pending buffer. */
    method Load(packet: Bytes)
      modifies this
      ensures Valid() && rdOff == 0 && rdLen == rdBuf.Length && rdBuf[..] == Patched(packet)
      ensures Progress() == Walk(old(Progress()), packet)
    {
      var pkt := new Byte[|packet|](i requires 0 <= i < |packet| => packet[i]);
      assert pkt[..] == packet;
      NoteProgress(pkt);
      PatchInbound(pkt);
      rdBuf, rdOff, rdLen := pkt, 0, pkt.Length;
    }

    /** Fetches one packet from the bus, with one retry. */
    static method Fetch(refill: Refill) returns (packet: Option<Bytes>)
      ensures packet == refill.Fetched()
    {
      if !refill.rise {
        return None;
      }
      packet := refill.first;
      if packet.None? {
        if !refill.retryRise {
          return None;
        }
        packet := refill.second;
      }
    }

    /** One BIO read; -1 when nothing could be fetched. */
    method BioRead(q: Request) returns (n: int, out: Bytes)
      requires Valid()
      modifies this
      ensures Valid() && State() == Step(old(State()), q).0
      ensures n == -1 <==> Step(old(State()), q).1.None?
      ensures n != -1 ==> n == |out| && Step(old(State()), q).1 == Some(out)
    {
      if rdOff >= rdLen {
        assert rdBuf[rdOff..] == [];
        var fetched := Fetch(q.refill);
        if fetched.None? {
          return -1, [];
        }
        Load(fetched.value);
        assert rdBuf[rdOff..] == Patched(fetched.value);
      }
      var avail := rdLen - rdOff;
      n := if q.len < avail then q.len else avail;
      out := rdBuf[rdOff..rdOff + n];
      ghost var pending := rdBuf[rdOff..];
      rdOff := rdOff + n;
      assert pending[..n] == out && pending[n..] == rdBuf[rdOff..];
    }

    /** SSL_accept as far as the adapter sees it: a run of BIO reads. */
    method Accept(qs: seq<Request>)
      requires Valid()
      modifies this
      ensures Valid() && State() == Run(old(State()), qs)
    {
      for i := 0 to |qs|
        invariant Valid() && Run(old(State()), qs) == Run(State(), qs[i..])
      {
        ghost var rest := qs[i..];
        assert rest[0] == qs[i] && rest[1..] == qs[i + 1..];
        var _, _ := BioRead(qs[i]);
      }
    }

    /** Drains the whole error queue, not only its last entry. */
    static method QueueShowsAuthentication(reasons: seq<Reason>) returns (found: bool)
      ensures found <==> AuthenticationReason(reasons)
    {
      var sawConcrete, sawRecordLayer := false, false;
      for i := 0 to |reasons|
        invariant sawConcrete <==> BadRecordMac in reasons[..i] || DecryptionFailed in reasons[..i]
        invariant sawRecordLayer <==> RecordLayerFailure in reasons[..i]
      {
        if reasons[i] == BadRecordMac || reasons[i] == DecryptionFailed {
          sawConcrete := true;
        } else if reasons[i] == RecordLayerFailure {
          sawRecordLayer := true;
        }
        assert reasons[..i + 1] == reasons[..i] + [reasons[i]];
      }
      assert reasons[..|reasons|] == reasons;
      found := sawConcrete || sawRecordLayer;
    }

    /** Two attempts; a mismatch needs the same evidence from both, each with its own complete flight. */
    method Handshake(first: Attempt, second: Attempt) returns (r: Outcome)
      requires Valid() && State() == FRESH
      modifies this
      ensures Valid()
      ensures r == HandshakeOutcome(first, second)
      ensures r == Established ==> State().pending == []
    {
      var firstConfirmed := false;
      for attempt := 0 to 2
        invariant Valid()
        invariant attempt == 0 ==> State() == FRESH
        invariant attempt > 0 ==> first.wrote && first.verdict.Refused?
        invariant attempt == 1 ==> (firstConfirmed <==> Confirmed(first))
        invariant attempt < 2
      {
        var a := if attempt == 0 then first else second;
        if attempt > 0 {
          if !a.recreated {
            return Broken;
          }
          Recreate();
        }
        if !a.wrote {
          return Broken;
        }
        Accept(a.requests);
        FlightNoted(a.requests);
        if a.verdict.Accepted? {
          rdBuf := new Byte[0];
          rdOff, rdLen := 0, 0;
          return Established;
        }
        var authentication := QueueShowsAuthentication(a.verdict.reasons);
        var confirmed := a.verdict.sslError && Progress().CompleteFlight() && authentication;
        if attempt == 0 {
          firstConfirmed := confirmed;
          continue;
        }
        if firstConfirmed && confirmed {
          return Mismatch;
        }
        return Unconfirmed;
      }
      assert false;
    }
  }
}

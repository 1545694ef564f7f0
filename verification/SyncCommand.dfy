/** Commands before the listener exists: submit, read the ACK, read the response, with both retry levels. */
module SyncCommand {
  import opened Common
  import opened Wire
  import opened S = SyncSpec

  class Bus {
    const port: Port
    ghost var log: seq<Event>

    constructor (port: Port)
      ensures this.port == port && log == []
    {
      this.port, log := port, [];
    }

    /** What the MCU queues meanwhile, and the typed read once the line has risen. */
    method Listen(queued: Bytes, rises: bool, falls: bool) returns (e: Event)
      modifies port
      ensures (e, port.State()) == S.Listen(old(port.State()), queued, rises, falls)
    {
      port.miso := port.miso + queued;
      if !rises {
        return Silent;
      }
      var read := port.SpiReadTyped();
      e := Heard(read, falls);
    }

    /** One submit and what was heard after it; after a failed write there is nothing to wait for. */
    method SubmitOnce(payload: Bytes, waitForFall: bool, e: SubmitEnv) returns (acked: bool, ghost events: seq<Event>)
      modifies this, port
      ensures (events, port.State()) == S.SubmitOnce(old(port.State()), payload, e)
      ensures log == old(log) + events
      ensures acked <==> |events| == 2 && IsAck(events[1], waitForFall)
    {
      var wrote := port.SpiWrite(OUTER, payload, e.header, e.payload);
      ghost var buffers := Buffers(OUTER, payload, e.header);
      if !wrote {
        log := log + [Wrote(false, buffers)];
        return false, [Wrote(false, buffers)];
      }
      var heard := Listen(e.queued, e.rises, e.falls);
      acked := heard.Heard? && heard.read.Packet? && |heard.read.payload| > 0 && heard.read.payload[0] == ACK
               && (!waitForFall || heard.falls);
      events := [Wrote(true, buffers), heard];
      log := log + events;
    }

    /** Any missing or wrong ACK is answered by one immediate resend; a failed write is not. */
    method SendAndAck(payload: Bytes, waitForFall: bool, env: nat -> SubmitEnv)
      returns (acked: bool, ghost events: seq<Event>)
      modifies this, port
      ensures (events, port.State()) == S.Submit(old(port.State()), payload, waitForFall, env)
      ensures log == old(log) + events
      ensures acked <==> Acked(events, waitForFall)
    {
      acked, events := false, [];
      SubmitBegins(port.State(), payload, waitForFall, env);
      for attempt := 1 to ATTEMPTS + 1
        invariant attempt <= ATTEMPTS && log == old(log) + events
        invariant Submitting(old(port.State()), payload, waitForFall, env, events, port.State(), attempt)
      {
        var e := env(attempt);
        ghost var begun, more := port.State(), [];
        acked, more := SubmitOnce(payload, waitForFall, e);
        SubmitGoesOn(old(port.State()), payload, waitForFall, env, events, begun, attempt);
        SubmitOncePerforms(begun, payload, e);
        Associative(old(log), events, more);
        events := events + more;
        assert events[|events| - 1] == more[|more| - 1];
        if acked || attempt == ATTEMPTS || !WroteAll(payload, e.header, e.payload) {
          return;
        }
      }
      assert false;
    }

    /** One acknowledged submit and the response after it. */
    method RequestOnce(payload: Bytes, sameIrq: bool, e: ResponseEnv)
      returns (acked: bool, r: Option<Bytes>, ghost t: Try)
      requires |payload| > 0
      modifies this, port
      ensures (t, port.State()) == S.RequestOnce(old(port.State()), payload, sameIrq, e)
      ensures log == old(log) + EventsOf(t)
      ensures acked <==> t.response.Some?
      ensures r == if Answered(t, payload[0]) then Some(t.response.value.read.payload) else None
    {
      ghost var events;
      acked, events := SendAndAck(payload, !sameIrq, e.submits);
      t := Try(events, None);
      if !acked {
        assert EventsOf(t) == events;
        return acked, None, t;
      }
      var heard := Listen(e.queued, sameIrq || e.rises, e.falls);
      t := Try(events, Some(heard));
      Associative(old(log), events, [heard]);
      log := log + [heard];
      r := None;
      if heard.Heard? && heard.read.Packet? && |heard.read.payload| > 0 && heard.read.payload[0] == payload[0]
         && heard.falls {
        r := Some(heard.read.payload);
      }
    }

    /** A command with a response: both retry levels, and the packet that answered, if any. */
    method Request(payload: Bytes, sameIrq: bool, env: nat -> ResponseEnv)
      returns (r: Option<Bytes>, ghost tries: seq<Try>)
      requires |payload| > 0
      modifies this, port
      ensures (tries, port.State()) == S.Request(old(port.State()), payload, sameIrq, env)
      ensures log == old(log) + AllEvents(tries) && r == AnswerOf(tries, payload[0])
    {
      tries := [];
      RequestBegins(port.State(), payload, sameIrq, env);
      for attempt := 1 to ATTEMPTS + 1
        invariant attempt <= ATTEMPTS && log == old(log) + AllEvents(tries)
        invariant Requesting(old(port.State()), payload, sameIrq, env, tries, port.State(), attempt)
      {
        var acked;
        ghost var begun := port.State();
        ghost var t;
        acked, r, t := RequestOnce(payload, sameIrq, env(attempt));
        RequestGoesOn(old(port.State()), payload, sameIrq, env, tries, begun, attempt);
        TryLogged(old(log), tries, t);
        AnswerOfLast(tries, t, payload[0]);
        tries := tries + [t];
        if !acked || r.Some? || attempt == ATTEMPTS {
          return;
        }
      }
      assert false;
    }
  }
}

/** The listener object: queues changed in place, and the calls a sending thread makes on it. */
module Listener {
  import opened Common
  import opened Queues
  import opened Records
  import opened SenderSpec
  import Image
  import Wire

  /** The image request, laid out by hand. */
  function ImageCommand(cmd: Byte): Bytes {
    [cmd, 3, 0, 1, 0, Wire.Checksum([cmd, 3, 0, 1, 0])]
  }

  /** It is what the command encoder makes of the two data bytes 1 and 0. */
  lemma ImageCommandEncodes(cmd: Byte, data: Bytes)
    requires data == [1, 0]
    ensures Wire.EncodeCommand(cmd, data) == Some(ImageCommand(cmd))
  {
    var head := [cmd, 3, 0] + data;
    assert head == [cmd, 3, 0, 1, 0];
    assert ImageCommand(cmd) == head + [Wire.Checksum(head)];
  }

  class PacketListener {
    /** A queue that was never allocated and an empty one behave alike; both are empty here. */
    const queues: array<seq<Packet>>
    var stopRequested: bool
    var suppress: bool
    /** Serial number of the next packet. */
    var received: nat
    ghost var arrivals: seq<Payload>
    ghost var departed: seq<Departure>
    ghost var log: seq<Event>

    ghost predicate Valid()
      reads this
    {
      queues.Length == 256 && received == |arrivals|
    }

    ghost function Store(): Queues.Store
      requires Valid()
      reads this, queues
    {
      Queues.Store.Store(queues[..], arrivals, departed)
    }

    constructor ()
      ensures Valid() && fresh(queues)
      ensures Store() == EMPTY && log == [] && !stopRequested && !suppress
    {
      queues := new seq<Packet>[256](_ => []);
      stopRequested, suppress, received := false, false, 0;
      arrivals, departed, log := [], [], [];
    }

    // ---- critical sections ---------------------------------------------------------

    /** Appends a packet; a full queue drops its oldest one. */
    method EnqueueLocked(data: Payload)
      requires Valid()
      modifies this`received, this`arrivals, this`departed, queues
      ensures Valid() && Store() == Enqueue(old(Store()), data)
    {
      var cmd := data[0];
      if |queues[cmd]| >= CAP {
        departed := departed + [Departure(queues[cmd][0], Dropped)];
        queues[cmd] := queues[cmd][1..];
      }
      queues[cmd] := queues[cmd] + [Packet(received, data)];
      received, arrivals := received + 1, arrivals + [data];
      assert queues[..] == old(queues[..])[cmd := queues[cmd]];
    }

    method PopHead(cmd: Kind, ghost fate: Fate) returns (packet: Packet)
      requires Valid() && queues[cmd] != []
      modifies this`departed, queues
      ensures Valid() && Store() == Pop(old(Store()), cmd, fate) && packet == old(queues[cmd][0])
    {
      packet := queues[cmd][0];
      queues[cmd] := queues[cmd][1..];
      departed := departed + [Departure(packet, fate)];
      assert queues[..] == old(queues[..])[cmd := queues[cmd]];
    }

    method DrainCmd(cmd: Kind)
      requires Valid()
      modifies this`departed, queues
      ensures Valid() && Store() == DrainKind(old(Store()), cmd)
    {
      while queues[cmd] != []
        invariant Valid() && DrainKind(Store(), cmd) == DrainKind(old(Store()), cmd)
        decreases |queues[cmd]|
      {
        var _ := PopHead(cmd, Drained);
      }
    }

    method DrainAll()
      requires Valid()
      modifies this`departed, queues
      ensures Valid() && Store() == DrainFrom(old(Store()), 0)
    {
      for i := 0 to 256
        invariant Valid() && DrainFrom(Store(), i) == DrainFrom(old(Store()), 0)
      {
        DrainCmd(i);
      }
    }

    method SetSuppress(on: bool)
      modifies this`suppress, this`log
      ensures suppress == on && log == old(log) + [Suppress(on)]
    {
      suppress := on;
      log := log + [Suppress(on)];
    }

    // ---- a sending thread, with the reader running beside it ----------------------------

    /** What the reader does while this thread does not hold the lock. */
    method Dispatch(batch: seq<Payload>)
      requires Valid()
      modifies this`received, this`arrivals, this`departed, queues
      ensures Valid() && Store() == EnqueueAll(old(Store()), batch)
    {
      for i := 0 to |batch|
        invariant Valid() && EnqueueAll(Store(), batch[i..]) == EnqueueAll(old(Store()), batch)
      {
        assert batch[i..][0] == batch[i] && batch[i..][1..] == batch[i + 1..];
        EnqueueLocked(batch[i]);
      }
    }

    /** Waits for the next packet of a kind: the queue first, then the stop flag, then the deadline. */
    method Await(cmd: Kind, turns: seq<Turn>) returns (r: Awaited)
      requires Valid()
      modifies this, queues
      ensures Valid() && log == old(log) && suppress == old(suppress)
      ensures (Store(), stopRequested, r) == SenderSpec.Await(old(Store()), old(stopRequested), cmd, turns)
    {
      var turn := 0;
      while true
        invariant turn <= |turns| && Valid() && log == old(log) && suppress == old(suppress)
        invariant SenderSpec.Await(Store(), stopRequested, cmd, turns[turn..])
               == SenderSpec.Await(old(Store()), old(stopRequested), cmd, turns)
        decreases |turns| - turn
      {
        ghost var rest := turns[turn..];
        var now := if turn == |turns| then Turn([], false, true) else turns[turn];
        assert now == if rest == [] then Turn([], false, true) else rest[0];
        Dispatch(now.arrived);
        stopRequested := stopRequested || now.stopped;
        if queues[cmd] != [] {
          var packet := PopHead(cmd, Delivered);
          return Got(packet);
        }
        if stopRequested {
          return Closed;
        }
        if now.expired {
          return TimedOut;
        }
        assert rest[1..] == turns[turn + 1..];
        turn := turn + 1;
      }
    }

    /** Where an attempt or a whole call leaves this object. */
    ghost predicate At(st: Queues.Store, stop: bool, before: seq<Event>, events: seq<Event>)
      reads this, queues
    {
      Valid() && Store() == st && stopRequested == stop && log == before + events
    }

    /** Submits a packet and waits for its ACK; no result means that the ACK timed out. */
    method SubmitOnce(payload: Bytes, e: Submit) returns (r: Option<Result>, ghost a: Attempt)
      requires Valid()
      modifies this, queues
      ensures a == AckOnce(old(Store()), old(stopRequested), payload, e)
      ensures At(a.st, a.stop, old(log), a.log) && r == a.result && suppress == old(suppress)
    {
      a := AckOnce(Store(), stopRequested, payload, e);
      log := log + [Wrote(payload)];
      if !e.writeOk {
        return Some(WriteFailed), a;
      }
      var awaited := Await(ACK, e.turns);
      match awaited {
        case Got(ack) =>
          log := log + [Received(ack)];
          r := Some(Acked(ack));
        case Closed =>
          log := log + [Lost(ACK)];
          r := Some(ListenerClosed);
        case TimedOut =>
          log := log + [GaveUp(ACK)];
          r := None;
      }
    }

    /** Drains old ACKs, then submits; an ACK timeout is answered by one resend. */
    method SendAck(payload: Bytes, env: nat -> Submit) returns (r: Result, ghost o: Outcome)
      requires Valid()
      modifies this, queues
      ensures o == SenderSpec.SendAck(old(Store()), old(stopRequested), payload, env)
      ensures At(o.st, o.stop, old(log), o.log) && r == o.result && suppress == old(suppress)
    {
      ghost var mark := |arrivals|;
      DrainCmd(ACK);
      o := AckAttempts(Store(), stopRequested, payload, mark, env, 1);
      ghost var logged: seq<Event> := [];
      var attempt := 1;
      while true
        invariant 1 <= attempt <= 2 && Valid() && suppress == old(suppress)
        invariant log == old(log) + logged
        invariant AckAttempts(Store(), stopRequested, payload, mark, env, attempt).After(logged) == o
        decreases 2 - attempt
      {
        var done;
        ghost var a;
        done, a := SubmitOnce(payload, env(attempt));
        Associative(old(log), logged, a.log);
        if done.Some? {
          return done.value, o;
        } else if attempt == 2 {
          return NoAck, o;
        }
        AfterAfter(AckAttempts(a.st, a.stop, payload, mark, env, attempt + 1), logged, a.log);
        logged := logged + a.log;
        attempt := attempt + 1;
      }
    }

    /** One complete submit and the wait for its response; no result means that the response timed out. */
    method RequestOnce(payload: Bytes, responseCommand: Kind, e: Request) returns (r: Option<Result>, ghost a: Attempt)
      requires Valid()
      modifies this, queues
      ensures a == CommandOnce(old(Store()), old(stopRequested), payload, responseCommand, e)
      ensures At(a.st, a.stop, old(log), a.log) && r == a.result && suppress == old(suppress)
    {
      a := CommandOnce(Store(), stopRequested, payload, responseCommand, e);
      DrainCmd(responseCommand);
      var sent;
      ghost var o;
      sent, o := SendAck(payload, e.submits);
      if !sent.Acked? {
        return Some(sent), a;
      }
      var awaited := Await(responseCommand, e.turns);
      match awaited {
        case Got(packet) =>
          log := log + [Received(packet)];
          r := Some(Response(packet));
        case Closed =>
          log := log + [Lost(responseCommand)];
          r := Some(ListenerClosed);
        case TimedOut =>
          log := log + [GaveUp(responseCommand)];
          r := None;
      }
      Associative(old(log), o.log, [log[|log| - 1]]);
    }

    /** A command with a typed response; a response timeout is answered by one complete repetition. */
    method Command(payload: Bytes, responseCommand: Kind, env: nat -> Request) returns (r: Result, ghost o: Outcome)
      requires Valid()
      modifies this, queues
      ensures o == SenderSpec.Command(old(Store()), old(stopRequested), payload, responseCommand, env)
      ensures At(o.st, o.stop, old(log), o.log) && r == o.result && suppress == old(suppress)
    {
      o := SenderSpec.Command(Store(), stopRequested, payload, responseCommand, env);
      ghost var logged: seq<Event> := [];
      var attempt := 1;
      while true
        invariant 1 <= attempt <= 2 && Valid() && suppress == old(suppress)
        invariant log == old(log) + logged
        invariant SenderSpec.Command(Store(), stopRequested, payload, responseCommand, env, attempt).After(logged) == o
        decreases 2 - attempt
      {
        var done;
        ghost var a;
        done, a := RequestOnce(payload, responseCommand, env(attempt));
        Associative(old(log), logged, a.log);
        if done.Some? {
          return done.value, o;
        } else if attempt == 2 {
          return NoResponse, o;
        }
        AfterAfter(SenderSpec.Command(a.st, a.stop, payload, responseCommand, env, attempt + 1), logged, a.log);
        logged := logged + a.log;
        attempt := attempt + 1;
      }
    }

    /** Checks a record and decrypts it, once. */
    method OpenRecord(record: Packet, decrypt: Bytes -> Option<Bytes>) returns (r: Result)
      modifies this`log
      ensures var (events, result) := Opened(record, decrypt);
              r == result && log == old(log) + events
    {
      if |record.payload| < 5 {
        return BadRecord;
      }
      if !RecordHeaderOk(record.payload) || record.payload[0] != IMAGE_RECORD {
        return BadRecord;
      }
      var plain := decrypt(record.payload);
      log := log + [Decrypted(record)];
      if plain.None? {
        return DecryptFailed;
      }
      if |plain.value| < IMAGE_PREFIX + FRAME_BYTES {
        return ShortImage;
      }
      r := SenderSpec.Image(plain.value[IMAGE_PREFIX..IMAGE_PREFIX + FRAME_BYTES]);
    }

    /** The wait for the record, once the readout is over. */
    method AwaitRecord(turns: seq<Turn>, decrypt: Bytes -> Option<Bytes>) returns (r: Option<Result>, ghost a: Attempt)
      requires Valid()
      modifies this, queues
      ensures a == RecordOnce(old(Store()), old(stopRequested), turns, decrypt)
      ensures At(a.st, a.stop, old(log), a.log) && r == a.result && suppress == old(suppress)
    {
      a := RecordOnce(Store(), stopRequested, turns, decrypt);
      var awaited := Await(IMAGE_RECORD, turns);
      match awaited {
        case Got(record) =>
          log := log + [Received(record)];
          var result := OpenRecord(record, decrypt);
          Associative(old(log), [Received(record)], Opened(record, decrypt).0);
          r := Some(result);
        case Closed =>
          log := log + [Lost(IMAGE_RECORD)];
          r := Some(ListenerClosed);
        case TimedOut =>
          log := log + [GaveUp(IMAGE_RECORD)];
          r := None;
      }
    }

    /** One setmode submit, the silent readout, and the wait for the record. */
    method ImageOnce(payload: Bytes, e: Request, decrypt: Bytes -> Option<Bytes>)
      returns (r: Option<Result>, ghost a: Attempt)
      requires Valid() && !suppress
      modifies this, queues
      ensures a == CaptureOnce(old(Store()), old(stopRequested), payload, e, decrypt)
      ensures At(a.st, a.stop, old(log), a.log) && r == a.result && !suppress
    {
      a := CaptureOnce(Store(), stopRequested, payload, e, decrypt);
      DrainCmd(IMAGE_RECORD);
      var sent;
      ghost var o;
      sent, o := SendAck(payload, e.submits);
      if !sent.Acked? {
        return Some(sent), a;
      }
      SetSuppress(true);
      SetSuppress(false);
      QuietAppended(old(log), o.log);
      ghost var record;
      r, record := AwaitRecord(e.turns, decrypt);
      Associative(old(log), QuietLog(o.log), record.log);
    }

    /** The capture protocol up to the packed frame; only a missing record is answered by one complete repetition. */
    method CaptureRecord(payload: Bytes, env: nat -> Request, decrypt: Bytes -> Option<Bytes>)
      returns (r: Result, ghost o: Outcome)
      requires Valid() && !suppress
      modifies this, queues
      ensures o == SenderSpec.Capture(old(Store()), old(stopRequested), payload, env, decrypt)
      ensures At(o.st, o.stop, old(log), o.log) && r == o.result && !suppress
    {
      o := SenderSpec.Capture(Store(), stopRequested, payload, env, decrypt);
      ghost var logged: seq<Event> := [];
      var attempt := 1;
      while true
        invariant 1 <= attempt <= 2 && Valid() && !suppress
        invariant log == old(log) + logged
        invariant SenderSpec.Capture(Store(), stopRequested, payload, env, decrypt, attempt).After(logged) == o
        decreases 2 - attempt
      {
        var done;
        ghost var a;
        done, a := ImageOnce(payload, env(attempt), decrypt);
        Associative(old(log), logged, a.log);
        if done.Some? {
          return done.value, o;
        } else if attempt == 2 {
          return NoResponse, o;
        }
        AfterAfter(SenderSpec.Capture(a.st, a.stop, payload, env, decrypt, attempt + 1), logged, a.log);
        logged := logged + a.log;
        attempt := attempt + 1;
      }
    }

    /** Captures one frame into out16. */
    method CaptureImage(cmd: Byte, env: nat -> Request, decrypt: Bytes -> Option<Bytes>, out16: array<Image.Sample>)
      returns (r: Result, ghost o: Outcome)
      requires Valid() && !suppress && out16.Length == Image.FRAME_PIXELS
      modifies this, queues, out16
      ensures o == SenderSpec.Capture(old(Store()), old(stopRequested), ImageCommand(cmd), env, decrypt)
      ensures At(o.st, o.stop, old(log), o.log) && r == o.result && !suppress
      ensures r.Image? ==>
                Image.Transposed(Image.Unpacked(r.packed, Image.FRAME_PIXELS / 4), out16[..], Image.WIDTH, Image.HEIGHT)
      ensures !r.Image? ==> out16[..] == old(out16[..])
    {
      r, o := CaptureRecord(ImageCommand(cmd), env, decrypt);
      if r.Image? {
        Image.DecodeFrame(r.packed, out16);
      }
    }
  }
}

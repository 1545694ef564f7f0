/** Outer framing of the SPI packets, the chunked full-duplex read, and the inner command packet. */
module Wire {
  import opened Common

  const CHUNK: nat := 2048
  const HEADER_ATTEMPTS: nat := 4

  // ---- outer frame -------------------------------------------------------

  /** The four header bytes; the length is the caller's length cast to 16 bits. */
  function Header(kind: Byte, payloadLength: nat): (h: Bytes)
    ensures |h| == 4
  {
    var n := payloadLength % 0x1_0000;
    [kind, n % 256, n / 256, (kind + n % 256 + n / 256) % 256]
  }

  /** Type, little-endian length, and the sum of these three bytes. */
  lemma HeaderExactly(kind: Byte, payloadLength: nat)
    ensures var h := Header(kind, payloadLength);
            && h[0] == kind && DeclaredLength(h) == payloadLength % 0x1_0000
            && var h0: int, h1: int, h2: int := h[0], h[1], h[2];
            h[3] == (h0 + h1 + h2) % 256
  {
  }

  /** What one packet write puts on the bus: header, then payload. */
  function Frame(kind: Byte, payload: Bytes): Bytes {
    Header(kind, |payload|) + payload
  }

  function DeclaredLength(header: Bytes): (n: nat)
    requires |header| == 4
    ensures n < 0x1_0000
  {
    var lo: int, hi: int := header[1], header[2];
    lo + 256 * hi
  }

  predicate AllBytes(header: Bytes, b: Byte) {
    forall i | 0 <= i < |header| :: header[i] == b
  }

  /** The header bytes an idle MCU clocks out. */
  predicate Idle(header: Bytes) {
    |header| == 4 && (AllBytes(header, 0) || AllBytes(header, 0xff))
  }

  // ---- the bus ------------------------------------------------------------

  /** What an MCU with nothing queued clocks out: all zeros or all ones. */
  type Filler = b: Byte | b == 0 || b == 0xff witness 0

  function Fill(idle: Filler, n: nat): (b: Bytes)
    ensures |b| == n && forall i | 0 <= i < n :: b[i] == idle
  {
    if n == 0 then [] else Fill(idle, n - 1) + [idle]
  }

  /** The next n bytes of a transfer; an idle bus goes on clocking out filler. */
  function Clocked(stream: Bytes, idle: Filler, n: nat): (b: Bytes)
    ensures |b| == n
  {
    if n <= |stream| then stream[..n] else stream + Fill(idle, n - |stream|)
  }

  lemma ClockedAt(stream: Bytes, idle: Filler, n: nat, i: nat)
    requires i < n
    ensures Clocked(stream, idle, n)[i] == if i < |stream| then stream[i] else idle
  {
  }

  function Left(stream: Bytes, n: nat): Bytes {
    if n <= |stream| then stream[n..] else []
  }

  /** Two transfers one after the other are one longer transfer. */
  lemma ClockedParts(stream: Bytes, idle: Filler, a: nat, b: nat)
    ensures Clocked(stream, idle, a) + Clocked(Left(stream, a), idle, b) == Clocked(stream, idle, a + b)
    ensures Left(Left(stream, a), b) == Left(stream, a + b)
  {
    var head, tail, whole := Clocked(stream, idle, a), Clocked(Left(stream, a), idle, b), Clocked(stream, idle, a + b);
    forall i | 0 <= i < a + b ensures whole[i] == if i < a then head[i] else tail[i - a] {
      ClockedPartAt(stream, idle, a, b, i);
    }
    Joined(head, tail, whole);
    LeftTwice(stream, a, b);
  }

  lemma ClockedPartAt(stream: Bytes, idle: Filler, a: nat, b: nat, i: nat)
    requires i < a + b
    ensures Clocked(stream, idle, a + b)[i]
            == if i < a then Clocked(stream, idle, a)[i] else Clocked(Left(stream, a), idle, b)[i - a]
  {
    ClockedAt(stream, idle, a + b, i);
    if i < a {
      ClockedAt(stream, idle, a, i);
    } else {
      ClockedAt(Left(stream, a), idle, b, i - a);
    }
  }

  lemma Joined(head: Bytes, tail: Bytes, whole: Bytes)
    requires |whole| == |head| + |tail|
    requires forall i | 0 <= i < |whole| :: whole[i] == if i < |head| then head[i] else tail[i - |head|]
    ensures head + tail == whole
  {
  }

  /** What is queued first is clocked out first. */
  lemma ClockedWhole(first: Bytes, later: Bytes, idle: Filler)
    ensures Clocked(first + later, idle, |first|) == first
    ensures Left(first + later, |first|) == later
  {
  }

  lemma LeftTwice(stream: Bytes, a: nat, b: nat)
    ensures Left(Left(stream, a), b) == Left(stream, a + b)
  {
    if a + b <= |stream| {
      assert stream[a..][b..] == stream[a + b..];
    }
  }

  datatype ReadError = BusError | AllZeroHeader | AllOnesHeader
    // a zero-length allocation is a null pointer: the caller sees a failed read
    | EmptyAllocation

  datatype ReadResult =
    | Packet(kind: Byte, payload: Bytes, rest: Bytes)
    | Failed(error: ReadError, rest: Bytes)

  /** What the read makes of the header it settles on. */
  function ReadBody(header: Bytes, stream: Bytes, idle: Filler): ReadResult
    requires |header| == 4
  {
    if AllBytes(header, 0) then Failed(AllZeroHeader, stream)
    else
      var n := DeclaredLength(header);
      if n == 0xffff then Failed(AllOnesHeader, stream)
      else if n == 0 then Failed(EmptyAllocation, stream)
      else Packet(header[0], Clocked(stream, idle, n), Left(stream, n))
  }

  /** One typed read whose transfers all work. */
  function ReadFrame(stream: Bytes, idle: Filler, attempt: nat := 0): ReadResult
    requires attempt < HEADER_ATTEMPTS
    decreases HEADER_ATTEMPTS - attempt
  {
    var header, rest := Clocked(stream, idle, 4), Left(stream, 4);
    if Idle(header) && attempt + 1 < HEADER_ATTEMPTS then ReadFrame(rest, idle, attempt + 1)
    else ReadBody(header, rest, idle)
  }

  /** One turn of the header loop on a stream that starts with these four bytes. */
  lemma ReadAfterHeader(header: Bytes, stream: Bytes, idle: Filler, attempt: nat)
    requires |header| == 4 && attempt < HEADER_ATTEMPTS
    ensures ReadFrame(header + stream, idle, attempt)
            == if Idle(header) && attempt + 1 < HEADER_ATTEMPTS then ReadFrame(stream, idle, attempt + 1)
               else ReadBody(header, stream, idle)
  {
    ClockedWhole(header, stream, idle);
  }

  /** Reads packets back to back until one read fails. */
  function ReadAll(stream: Bytes, idle: Filler): seq<(Byte, Bytes)>
    decreases |stream|
  {
    match ReadFrame(stream, idle)
    case Failed(_, _) => []
    case Packet(kind, payload, rest) =>
      ReadFrameConsumes(stream, idle, 0);
      [(kind, payload)] + ReadAll(rest, idle)
  }

  /** A packet never comes out of an idle bus alone. */
  lemma {:induction false} ReadFrameConsumes(stream: Bytes, idle: Filler, attempt: nat)
    requires attempt < HEADER_ATTEMPTS
    ensures ReadFrame(stream, idle, attempt).Packet? ==> |ReadFrame(stream, idle, attempt).rest| < |stream|
    decreases HEADER_ATTEMPTS - attempt
  {
    var header := Clocked(stream, idle, 4);
    if Idle(header) && attempt + 1 < HEADER_ATTEMPTS {
      ReadFrameConsumes(Left(stream, 4), idle, attempt + 1);
    } else if stream == [] {
      assert header == Fill(idle, 4);
    }
  }

  /** The two outer types the driver writes. */
  predicate OuterType(kind: Byte) {
    kind == 0xa0 || kind == 0xb0
  }

  lemma HeaderFields(kind: Byte, n: nat)
    requires OuterType(kind)
    ensures DeclaredLength(Header(kind, n)) == n % 0x1_0000
    ensures !Idle(Header(kind, n)) && !AllBytes(Header(kind, n), 0)
  {
    assert Header(kind, n)[0] == kind;
  }

  /**
    A frame is read back exactly, with the bus left at the next header, when and only when its payload
    has 1 to 65534 bytes. Outside that range the 16-bit cast, the rejected length 0xffff or the empty
    allocation breaks it.
   */
  lemma FrameRoundTrip(kind: Byte, payload: Bytes, rest: Bytes, idle: Filler, attempt: nat)
    requires OuterType(kind) && attempt < HEADER_ATTEMPTS
    ensures ReadFrame(Frame(kind, payload) + rest, idle, attempt) == Packet(kind, payload, rest)
            <==> 1 <= |payload| <= 65534
  {
    if 1 <= |payload| <= 65534 {
      FrameRead(kind, payload, rest, idle, attempt);
    } else {
      FrameCut(kind, payload, rest, idle, attempt);
    }
  }

  lemma FrameRead(kind: Byte, payload: Bytes, rest: Bytes, idle: Filler, attempt: nat)
    requires OuterType(kind) && attempt < HEADER_ATTEMPTS && 1 <= |payload| <= 65534
    ensures ReadFrame(Frame(kind, payload) + rest, idle, attempt) == Packet(kind, payload, rest)
  {
    var header := Header(kind, |payload|);
    HeaderFields(kind, |payload|);
    Associative(header, payload, rest);
    ReadAfterHeader(header, payload + rest, idle, attempt);
    BodyRead(header, payload, rest, idle);
  }

  lemma BodyRead(header: Bytes, payload: Bytes, rest: Bytes, idle: Filler)
    requires |header| == 4 && !AllBytes(header, 0) && 0 < DeclaredLength(header) == |payload| < 0xffff
    ensures ReadBody(header, payload + rest, idle) == Packet(header[0], payload, rest)
  {
    ClockedWhole(payload, rest, idle);
  }

  /** A frame with more than 65535 payload bytes is cut to the remainder, and other unreadable ones fail. */
  lemma FrameCut(kind: Byte, payload: Bytes, rest: Bytes, idle: Filler, attempt: nat)
    requires OuterType(kind) && attempt < HEADER_ATTEMPTS && !(1 <= |payload| <= 65534)
    ensures var read := ReadFrame(Frame(kind, payload) + rest, idle, attempt);
            read.Packet? ==> |read.payload| == |payload| % 0x1_0000 < |payload|
  {
    var header := Header(kind, |payload|);
    HeaderFields(kind, |payload|);
    Associative(header, payload, rest);
    ReadAfterHeader(header, payload + rest, idle, attempt);
  }

  predicate AllIdle(headers: seq<Bytes>) {
    forall i | 0 <= i < |headers| :: Idle(headers[i])
  }

  lemma FlattenHead(headers: seq<Bytes>, stream: Bytes)
    requires headers != []
    ensures Flatten(headers) + stream == headers[0] + (Flatten(headers[1..]) + stream)
  {
    Associative(headers[0], Flatten(headers[1..]), stream);
  }

  /** This reader takes an idle header for another attempt. */
  ghost predicate SkipsIdle(read: (Bytes, nat) -> ReadResult) {
    forall h: Bytes, s: Bytes, a: nat | Idle(h) && a + 1 < HEADER_ATTEMPTS :: read(h + s, a) == read(s, a + 1)
  }

  lemma {:induction false} SkipsAll(read: (Bytes, nat) -> ReadResult, headers: seq<Bytes>, stream: Bytes, attempt: nat)
    requires SkipsIdle(read) && |headers| + attempt < HEADER_ATTEMPTS && AllIdle(headers)
    ensures read(Flatten(headers) + stream, attempt) == read(stream, attempt + |headers|)
  {
    if headers == [] {
      assert Flatten(headers) + stream == stream;
    } else {
      FlattenHead(headers, stream);
      SkipsAll(read, headers[1..], stream, attempt + 1);
    }
  }

  /** Up to three idle headers in front of any stream are skipped. */
  lemma IdleHeadersSkipped(headers: seq<Bytes>, stream: Bytes, idle: Filler, attempt: nat)
    requires |headers| + attempt < HEADER_ATTEMPTS && AllIdle(headers)
    ensures ReadFrame(Flatten(headers) + stream, idle, attempt) == ReadFrame(stream, idle, attempt + |headers|)
  {
    var read: (Bytes, nat) -> ReadResult :=
      (s: Bytes, a: nat) => if a < HEADER_ATTEMPTS then ReadFrame(s, idle, a) else Failed(BusError, s);
    forall h: Bytes, s: Bytes, a: nat | Idle(h) && a + 1 < HEADER_ATTEMPTS ensures read(h + s, a) == read(s, a + 1) {
      ReadAfterHeader(h, s, idle, a);
    }
    SkipsAll(read, headers, stream, attempt);
  }

  /** A packet as the MCU queues it: idle headers, then one frame. */
  datatype Queued = Queued(idle: seq<Bytes>, kind: Byte, payload: Bytes)

  ghost predicate Readable(q: Queued) {
    && |q.idle| <= 3 && AllIdle(q.idle)
    && OuterType(q.kind) && 1 <= |q.payload| <= 65534
  }

  function OnBus(qs: seq<Queued>): Bytes {
    if qs == [] then [] else Flatten(qs[0].idle) + Frame(qs[0].kind, qs[0].payload) + OnBus(qs[1..])
  }

  function Packets(qs: seq<Queued>): seq<(Byte, Bytes)> {
    if qs == [] then [] else [(qs[0].kind, qs[0].payload)] + Packets(qs[1..])
  }

  /** Frames written back to back come back one by one, in order, with nothing lost between them. */
  lemma {:induction false} BackToBack(qs: seq<Queued>, idle: Filler)
    requires forall q | q in qs :: Readable(q)
    ensures ReadAll(OnBus(qs), idle) == Packets(qs)
  {
    if qs == [] {
      ReadFrameConsumes([], idle, 0);
    } else {
      assert qs[0] in qs;
      ReadQueued(qs[0], OnBus(qs[1..]), idle);
      BackToBack(qs[1..], idle);
    }
  }

  lemma ReadQueued(q: Queued, rest: Bytes, idle: Filler)
    requires Readable(q)
    ensures ReadFrame(Flatten(q.idle) + Frame(q.kind, q.payload) + rest, idle) == Packet(q.kind, q.payload, rest)
  {
    var frame := Frame(q.kind, q.payload);
    Associative(Flatten(q.idle), frame, rest);
    IdleHeadersSkipped(q.idle, frame + rest, idle, 0);
    FrameRoundTrip(q.kind, q.payload, rest, idle, |q.idle|);
  }

  // ---- reads that fail ------------------------------------------------------------

  /** A bus with nothing queued fails after its four header attempts, by what it clocks out. */
  lemma IdleBusFails(idle: Filler, attempt: nat)
    requires attempt < HEADER_ATTEMPTS
    ensures ReadFrame([], idle, attempt) == Failed(if idle == 0 then AllZeroHeader else AllOnesHeader, [])
    decreases HEADER_ATTEMPTS - attempt
  {
    var header := Clocked([], idle, 4);
    assert header == Fill(idle, 4);
    assert header[1] == idle && header[2] == idle;
    if attempt + 1 < HEADER_ATTEMPTS {
      IdleBusFails(idle, attempt + 1);
    }
  }

  /** A frame without payload fails in the allocation, one of 65535 bytes by its length. */
  lemma UnreadableFrames(kind: Byte, payload: Bytes, rest: Bytes, idle: Filler, attempt: nat)
    requires OuterType(kind) && attempt < HEADER_ATTEMPTS
    ensures payload == [] ==> ReadFrame(Frame(kind, payload) + rest, idle, attempt) == Failed(EmptyAllocation, rest)
    ensures |payload| == 65535 ==>
              ReadFrame(Frame(kind, payload) + rest, idle, attempt) == Failed(AllOnesHeader, payload + rest)
  {
    var header := Header(kind, |payload|);
    HeaderFields(kind, |payload|);
    Associative(header, payload, rest);
    ReadAfterHeader(header, payload + rest, idle, attempt);
    assert [] + rest == rest;
  }

  // ---- the SPI descriptor as a value -----------------------------------------

  /**
    The descriptor and the MCU behind it: which transfers the kernel fails and how many bytes each failed one still
    clocks out; the bytes the MCU has queued; the buffers written so far; the sizes of the transfers so far.
   */
  datatype Spi = Spi(idle: Filler, faults: nat -> bool, lost: nat -> nat,
                     miso: Bytes, mosi: seq<Bytes>, transfers: seq<nat>)

  /** After one full-duplex transfer of n bytes, whether it works or not. */
  function Moved(p: Spi, n: nat): Spi {
    var at := |p.transfers|;
    p.(transfers := p.transfers + [n], miso := Left(p.miso, if p.faults(at) then p.lost(at) else n))
  }

  datatype Xfer = Xfer(data: Option<Bytes>, port: Spi)

  function Prepend(head: Bytes, x: Xfer): Xfer {
    if x.data.None? then x else Xfer(Some(head + x.data.value), x.port)
  }

  function Chunk(n: nat): nat {
    if n < CHUNK then n else CHUNK
  }

  /** Transfers of at most CHUNK bytes; the first failed one ends it. */
  function XferBytes(p: Spi, n: nat): (x: Xfer)
    ensures x.data.Some? ==> |x.data.value| == n
    decreases n
  {
    if n == 0 then Xfer(Some([]), p)
    else if p.faults(|p.transfers|) then Xfer(None, Moved(p, Chunk(n)))
    else Prepend(Clocked(p.miso, p.idle, Chunk(n)), XferBytes(Moved(p, Chunk(n)), n - Chunk(n)))
  }

  /** One typed read on the descriptor. */
  function ReadTyped(p: Spi, attempt: nat := 0): (ReadResult, Spi)
    requires attempt < HEADER_ATTEMPTS
    decreases HEADER_ATTEMPTS - attempt
  {
    var x := XferBytes(p, 4);
    match x.data
    case None => (Failed(BusError, x.port.miso), x.port)
    case Some(header) =>
      if Idle(header) && attempt + 1 < HEADER_ATTEMPTS then ReadTyped(x.port, attempt + 1)
      else ReadPayload(header, x.port)
  }

  function ReadPayload(header: Bytes, p: Spi): (ReadResult, Spi)
    requires |header| == 4
  {
    if AllBytes(header, 0) then (Failed(AllZeroHeader, p.miso), p)
    else
      var n := DeclaredLength(header);
      if n == 0xffff then (Failed(AllOnesHeader, p.miso), p)
      else if n == 0 then (Failed(EmptyAllocation, p.miso), p)
      else
        var x := XferBytes(p, n);
        match x.data
        case None => (Failed(BusError, x.port.miso), x.port)
        case Some(payload) => (Packet(header[0], payload, x.port.miso), x.port)
  }

  // ---- what the descriptor does ------------------------------------------------

  /** No transfer in this range fails. */
  ghost predicate Clean(faults: nat -> bool, from: nat, to: nat) {
    forall i: nat | from <= i < to :: !faults(i)
  }

  /** Transfers were added, and nothing but the queued bytes changed with them. */
  ghost predicate Transferred(p: Spi, q: Spi) {
    p.transfers <= q.transfers && q.(miso := p.miso, transfers := p.transfers) == p
  }

  /** These bytes took one transfer for each begun CHUNK. */
  ghost predicate InChunks(transfers: seq<nat>, from: nat, length: nat) {
    var n := |transfers| - from;
    (n - 1) * 2048 < length <= n * 2048
  }

  ghost predicate Bounded(transfers: seq<nat>, from: nat) {
    forall i | from <= i < |transfers| :: 0 < transfers[i] <= 2048
  }

  /**
    The transfers yield exactly what the bus clocks out next, in the least number of chunks, exactly when none of
    them fails.
   */
  ghost predicate XferWell(p: Spi, n: nat, x: Xfer) {
    && Transferred(p, x.port) && Bounded(x.port.transfers, |p.transfers|)
    && (x.data.Some? <==> Clean(p.faults, |p.transfers|, |x.port.transfers|))
    && (x.data.Some? ==>
          && x.data.value == Clocked(p.miso, p.idle, n) && x.port.miso == Left(p.miso, n)
          && InChunks(x.port.transfers, |p.transfers|, n))
  }

  lemma {:induction false} XferExactly(p: Spi, n: nat)
    ensures XferWell(p, n, XferBytes(p, n))
    decreases n
  {
    if n > 0 {
      if p.faults(|p.transfers|) {
        FailedXfer(p, Chunk(n));
      } else {
        var q := Moved(p, Chunk(n));
        XferExactly(q, n - Chunk(n));
        ChunkXfer(p, n, XferBytes(q, n - Chunk(n)));
      }
    } else {
      assert Left(p.miso, 0) == p.miso;
    }
  }

  lemma FailedXfer(p: Spi, n: nat)
    requires p.faults(|p.transfers|) && 0 < n <= CHUNK
    ensures forall m :: XferWell(p, m, Xfer(None, Moved(p, n)))
  {
  }

  lemma ChunkXfer(p: Spi, n: nat, rest: Xfer)
    requires n > 0 && !p.faults(|p.transfers|) && XferWell(Moved(p, Chunk(n)), n - Chunk(n), rest)
    requires rest.data.Some? ==> |rest.data.value| == n - Chunk(n)
    ensures XferWell(p, n, Prepend(Clocked(p.miso, p.idle, Chunk(n)), rest))
  {
    var q := Moved(p, Chunk(n));
    ClockedParts(p.miso, p.idle, Chunk(n), n - Chunk(n));
    CleanFrom(p.faults, |p.transfers|, |rest.port.transfers|);
    assert rest.port.transfers[|p.transfers|] == q.transfers[|p.transfers|] == Chunk(n);
  }

  lemma CleanFrom(faults: nat -> bool, from: nat, to: nat)
    requires from < to && !faults(from)
    ensures Clean(faults, from, to) <==> Clean(faults, from + 1, to)
  {
  }

  /** Two clean stretches are one, and a fault in either is a fault. */
  lemma CleanParts(faults: nat -> bool, from: nat, middle: nat, to: nat)
    requires from <= middle <= to
    ensures Clean(faults, from, to) <==> Clean(faults, from, middle) && Clean(faults, middle, to)
  {
    if Clean(faults, from, middle) && Clean(faults, middle, to) {
      forall i: nat | from <= i < to ensures !faults(i) {
        assert i < middle || i >= middle;
      }
    }
  }

  /** Without a failed transfer this is the frame read from the stream, and else a bus error. */
  ghost predicate ReadWell(p: Spi, read: (ReadResult, Spi), frame: ReadResult) {
    var (r, q) := read;
    && Transferred(p, q) && q.miso == r.rest
    && if Clean(p.faults, |p.transfers|, |q.transfers|) then r == frame else r == Failed(BusError, q.miso)
  }

  lemma {:induction false} ReadExactly(p: Spi, attempt: nat)
    requires attempt < HEADER_ATTEMPTS
    ensures ReadWell(p, ReadTyped(p, attempt), ReadFrame(p.miso, p.idle, attempt))
    decreases HEADER_ATTEMPTS - attempt
  {
    var x := XferBytes(p, 4);
    XferExactly(p, 4);
    HeaderRead(p, attempt, x.data, x.port);
    if x.data.Some? {
      var header, frame := x.data.value, ReadFrame(p.miso, p.idle, attempt);
      if Idle(header) && attempt + 1 < HEADER_ATTEMPTS {
        ReadExactly(x.port, attempt + 1);
        ReadLater(p, x.port, ReadTyped(x.port, attempt + 1), frame);
      } else {
        PayloadExactly(header, x.port);
        ReadLater(p, x.port, ReadPayload(header, x.port), frame);
      }
    }
  }

  lemma ReadLater(p: Spi, middle: Spi, read: (ReadResult, Spi), frame: ReadResult)
    requires Transferred(p, middle) && Clean(p.faults, |p.transfers|, |middle.transfers|)
    requires ReadWell(middle, read, frame)
    ensures ReadWell(p, read, frame)
  {
    CleanParts(p.faults, |p.transfers|, |middle.transfers|, |read.1.transfers|);
  }

  lemma PayloadExactly(header: Bytes, p: Spi)
    requires |header| == 4
    ensures ReadWell(p, ReadPayload(header, p), ReadBody(header, p.miso, p.idle))
  {
    XferExactly(p, DeclaredLength(header));
  }

  // ---- writing ---------------------------------------------------------------------

  /** The buffers one packet write hands to the kernel; a header that is not written whole ends it. */
  function Buffers(kind: Byte, payload: Bytes, wroteHeader: int): seq<Bytes> {
    [Header(kind, |payload|)] + if wroteHeader != 4 || payload == [] then [] else [payload]
  }

  /** Both write calls took everything. */
  predicate WroteAll(payload: Bytes, wroteHeader: int, wrotePayload: int) {
    wroteHeader == 4 && (payload == [] || wrotePayload == |payload|)
  }

  lemma BuffersAreFrame(kind: Byte, payload: Bytes)
    ensures Flatten(Buffers(kind, payload, 4)) == Frame(kind, payload)
  {
    var header := [Header(kind, |payload|)];
    var tail := if payload == [] then [] else [payload];
    FlattenAppend(header, tail);
    assert header[1..] == [] && (payload != [] ==> tail[1..] == []);
  }

  // ---- a read in progress ------------------------------------------------------

  /** These bytes have been read, and the rest of the transfers is still to come. */
  ghost predicate Ongoing(start: Spi, n: nat, filled: Bytes, now: Spi) {
    |filled| <= n && XferBytes(start, n) == Prepend(filled, XferBytes(now, n - |filled|))
  }

  lemma XferStarts(p: Spi, n: nat)
    ensures Ongoing(p, n, [], p)
  {
    var x := XferBytes(p, n);
    if x.data.Some? {
      assert [] + x.data.value == x.data.value;
    }
  }

  lemma XferGoesOn(start: Spi, n: nat, filled: Bytes, now: Spi)
    requires Ongoing(start, n, filled, now) && |filled| < n
    ensures var chunk := Chunk(n - |filled|);
            if now.faults(|now.transfers|) then XferBytes(start, n) == Xfer(None, Moved(now, chunk))
            else Ongoing(start, n, filled + Clocked(now.miso, now.idle, chunk), Moved(now, chunk))
  {
    var left := n - |filled|;
    var head, rest := Clocked(now.miso, now.idle, Chunk(left)), XferBytes(Moved(now, Chunk(left)), left - Chunk(left));
    XferUnfolds(now, left);
    PrependTwice(filled, head, rest);
    assert n - |filled + head| == left - Chunk(left);
  }

  lemma XferUnfolds(p: Spi, n: nat)
    requires n > 0
    ensures XferBytes(p, n)
            == if p.faults(|p.transfers|) then Xfer(None, Moved(p, Chunk(n)))
               else Prepend(Clocked(p.miso, p.idle, Chunk(n)), XferBytes(Moved(p, Chunk(n)), n - Chunk(n)))
  {
  }

  lemma PrependTwice(a: Bytes, b: Bytes, x: Xfer)
    ensures Prepend(a, Prepend(b, x)) == Prepend(a + b, x)
  {
    if x.data.Some? {
      Associative(a, b, x.data.value);
    }
  }

  lemma XferEnds(start: Spi, n: nat, filled: Bytes, now: Spi)
    requires Ongoing(start, n, filled, now) && |filled| == n
    ensures XferBytes(start, n) == Xfer(Some(filled), now)
  {
    assert filled + [] == filled;
  }

  /** One turn of the header loop. */
  lemma HeaderRead(p: Spi, attempt: nat, header: Option<Bytes>, q: Spi)
    requires attempt < HEADER_ATTEMPTS && XferBytes(p, 4) == Xfer(header, q)
    ensures ReadTyped(p, attempt)
            == if header.None? then (Failed(BusError, q.miso), q)
               else if Idle(header.value) && attempt + 1 < HEADER_ATTEMPTS then ReadTyped(q, attempt + 1)
               else ReadPayload(header.value, q)
  {
  }

  // ---- the SPI file descriptor --------------------------------------------

  class Port {
    const idle: Filler
    const faults: nat -> bool
    const lost: nat -> nat
    /** The bytes the MCU has queued. */
    var miso: Bytes
    /** The buffers written so far, one chip-select cycle each. */
    var mosi: seq<Bytes>
    /** The sizes of the full-duplex transfers so far. */
    var transfers: seq<nat>

    function State(): Spi
      reads this
    {
      Spi(idle, faults, lost, miso, mosi, transfers)
    }

    constructor (idle: Filler, faults: nat -> bool, lost: nat -> nat)
      ensures State() == Spi(idle, faults, lost, [], [], [])
    {
      this.idle, this.faults, this.lost := idle, faults, lost;
      miso, mosi, transfers := [], [], [];
    }

    /** One SPI_IOC_MESSAGE. */
    method Transfer(rx: array<Byte>, at: nat, n: nat) returns (ok: bool)
      requires at + n <= rx.Length
      modifies this, rx
      ensures ok <==> !faults(|old(transfers)|)
      ensures State() == Moved(old(State()), n)
      ensures ok ==> rx[..at + n] == old(rx[..at]) + Clocked(old(miso), idle, n)
      ensures ok ==> rx[at + n..] == old(rx[at + n..])
      ensures !ok ==> rx[..] == old(rx[..])
    {
      var index := |transfers|;
      transfers := transfers + [n];
      if faults(index) {
        miso := Left(miso, lost(index));
        return false;
      }
      Memcpy(rx, at, Clocked(miso, idle, n));
      miso := Left(miso, n);
      ok := true;
    }

    /** Fills the buffer through transfers of at most CHUNK bytes; the first failed one ends it. */
    method XferRead(rx: array<Byte>) returns (ok: bool)
      modifies this, rx
      ensures XferBytes(old(State()), rx.Length) == Xfer(if ok then Some(rx[..]) else None, State())
    {
      var done := 0;
      ok := true;
      ghost var filled: Bytes := [];
      XferStarts(State(), rx.Length);
      while done < rx.Length
        invariant done == |filled| <= rx.Length && rx[..done] == filled
        invariant Ongoing(old(State()), rx.Length, filled, State())
      {
        var chunk := Chunk(rx.Length - done);
        XferGoesOn(old(State()), rx.Length, filled, State());
        filled := filled + Clocked(miso, idle, chunk);
        ok := Transfer(rx, done, chunk);
        if !ok {
          return;
        }
        done := done + chunk;
      }
      FullSlice(rx[..], done);
      XferEnds(old(State()), rx.Length, filled, State());
    }

    /** Header and payload as two writes; the counts are what the kernel reports for each. */
    method SpiWrite(kind: Byte, payload: Bytes, wroteHeader: int, wrotePayload: int) returns (ok: bool)
      modifies this`mosi
      ensures ok <==> WroteAll(payload, wroteHeader, wrotePayload)
      ensures mosi == old(mosi) + Buffers(kind, payload, wroteHeader)
      ensures ok ==> Flatten(mosi[|old(mosi)|..]) == Frame(kind, payload)
    {
      BuffersAreFrame(kind, payload);
      mosi := mosi + [Header(kind, |payload|)];
      if wroteHeader != 4 {
        return false;
      }
      if payload == [] {
        return true;
      }
      mosi := mosi + [payload];
      ok := wrotePayload == |payload|;
    }

    /** Reads one packet, tolerating up to three idle headers; any failed transfer fails the read. */
    method SpiReadTyped() returns (r: ReadResult)
      modifies this
      ensures (r, State()) == ReadTyped(old(State()))
    {
      var hdr := new Byte[4];
      var header, attempt := hdr[..], 0;
      while true
        invariant 0 <= attempt < HEADER_ATTEMPTS
        invariant ReadTyped(old(State())) == ReadTyped(State(), attempt)
        decreases HEADER_ATTEMPTS - attempt
      {
        ghost var before := State();
        var ok := XferRead(hdr);
        header := hdr[..];
        HeaderRead(before, attempt, if ok then Some(header) else None, State());
        if !ok {
          return Failed(BusError, miso);
        }
        if !Idle(header) || attempt + 1 == HEADER_ATTEMPTS {
          break;
        }
        attempt := attempt + 1;
      }
      assert ReadTyped(old(State())) == ReadPayload(header, State());
      if AllBytes(header, 0) {
        return Failed(AllZeroHeader, miso);
      }
      var length := DeclaredLength(header);
      if AllBytes(header, 0xff) || length == 0xffff {
        return Failed(AllOnesHeader, miso);
      }
      // a header checksum mismatch is only logged
      if length == 0 {
        return Failed(EmptyAllocation, miso);
      }
      var payload := new Byte[length];
      var ok := XferRead(payload);
      if !ok {
        return Failed(BusError, miso);
      }
      r := Packet(header[0], payload[..], miso);
    }
  }

  // ---- inner command packet -------------------------------------------------

  function Sum(s: Bytes): nat {
    if s == [] then 0 else s[0] + Sum(s[1..])
  }

  function Checksum(s: Bytes): Byte {
    (0xaa - Sum(s)) % 256
  }

  lemma {:induction false} SumAppend(a: Bytes, b: Bytes)
    ensures Sum(a + b) == Sum(a) + Sum(b)
  {
    if a == [] {
      assert a + b == b;
    } else {
      assert (a + b)[1..] == a[1..] + b;
      SumAppend(a[1..], b);
    }
  }

  function Seal(head: Bytes): Bytes {
    head + [Checksum(head)]
  }

  /** Command byte, 16-bit length of data plus checksum, data, checksum. */
  function EncodeCommand(command: Byte, data: Bytes): Option<Bytes> {
    if |data| > 65534 then None
    else
      var n := (|data| + 1) % 0x1_0000;
      var head := [command, n % 256, n / 256] + data;
      Some(Seal(head))
  }

  function DecodeCommand(packet: Bytes): Option<(Byte, Bytes)> {
    if |packet| < 4 then None
    else
      var lo: int, hi: int := packet[1], packet[2];
      var n := lo + 256 * hi;
      if n < 1 || |packet| < 3 + n then None
      else if packet[2 + n] != Checksum(packet[..2 + n]) then None
      else Some((packet[0], packet[3..2 + n]))
  }

  /** Decoding undoes encoding, and a complete packet sums to 0xaa. */
  lemma CommandRoundTrip(command: Byte, data: Bytes)
    requires |data| <= 65534
    ensures EncodeCommand(command, data).Some?
    ensures DecodeCommand(EncodeCommand(command, data).value) == Some((command, data))
    ensures Sum(EncodeCommand(command, data).value) % 256 == 0xaa
  {
    var n := |data| + 1;
    SplitLength(n);
    var lo: Byte, hi: Byte := n % 256, n / 256;
    SealedDecodes(command, lo, hi, data);
    SealedSum([command, lo, hi] + data);
  }

  lemma SplitLength(n: nat)
    requires n < 0x1_0000
    ensures n % 0x1_0000 == n == n % 256 + 256 * (n / 256) && n / 256 < 256
  {
  }

  lemma SealedDecodes(command: Byte, lo: Byte, hi: Byte, data: Bytes)
    requires lo + 256 * hi == |data| + 1
    ensures var head := [command, lo, hi] + data;
            DecodeCommand(Seal(head)) == Some((command, data))
  {
    var head := [command, lo, hi] + data;
    var packet := Seal(head);
    assert packet[..|head|] == head && packet[3..|head|] == data;
  }

  lemma SealedSum(head: Bytes)
    ensures Sum(Seal(head)) % 256 == 0xaa
  {
    SumAppend(head, [Checksum(head)]);
    assert Sum([Checksum(head)]) == Checksum(head);
    ModularComplement(Sum(head));
  }

  /** The decoder accepts exactly the encoded commands, with whatever follows them, and returns what was encoded. */
  lemma DecodeExactly(packet: Bytes, command: Byte, data: Bytes)
    ensures DecodeCommand(packet) == Some((command, data))
            <==> EncodeCommand(command, data).Some? && EncodeCommand(command, data).value <= packet
  {
    if DecodeCommand(packet) == Some((command, data)) {
      DecodedIsEncoded(packet, command, data);
    }
    if EncodeCommand(command, data).Some? && EncodeCommand(command, data).value <= packet {
      EncodedDecodes(packet, command, data);
    }
  }

  lemma DecodedIsEncoded(packet: Bytes, command: Byte, data: Bytes)
    requires DecodeCommand(packet) == Some((command, data))
    ensures EncodeCommand(command, data).Some? && EncodeCommand(command, data).value <= packet
  {
    var lo: int, hi: int := packet[1], packet[2];
    var n := lo + 256 * hi;
    SplitLength(n);
    assert |data| + 1 == n && n % 256 == lo && n / 256 == hi;
    var head := [command, packet[1], packet[2]] + data;
    assert packet[..2 + n] == head;
    assert packet[..3 + n] == Seal(head);
  }

  lemma EncodedDecodes(packet: Bytes, command: Byte, data: Bytes)
    requires EncodeCommand(command, data).Some? && EncodeCommand(command, data).value <= packet
    ensures DecodeCommand(packet) == Some((command, data))
  {
    var n := |data| + 1;
    SplitLength(n);
    var lo: Byte, hi: Byte := n % 256, n / 256;
    var head := [command, lo, hi] + data;
    assert packet[..3 + n] == Seal(head);
    assert packet[0] == command && packet[1] == lo && packet[2] == hi && packet[2 + n] == Checksum(head);
    assert packet[..2 + n] == head && packet[3..2 + n] == data;
  }

  lemma ModularComplement(x: nat)
    ensures (x + (0xaa - x) % 256) % 256 == 0xaa
  {
  }

  /**
    Every command the encoder accepts is not also one the frame can carry: the packet is four bytes
    longer than its data, so exactly the commands with at most 65530 data bytes survive the bus.
   */
  lemma CommandThroughFrame(kind: Byte, command: Byte, data: Bytes, rest: Bytes, idle: Filler)
    requires OuterType(kind) && |data| <= 65534
    ensures var packet := EncodeCommand(command, data).value;
            var read := ReadFrame(Frame(kind, packet) + rest, idle);
            |data| <= 65530 <==>
            read.Packet? && read.rest == rest && DecodeCommand(read.payload) == Some((command, data))
  {
    var packet := EncodeCommand(command, data).value;
    CommandRoundTrip(command, data);
    FrameRoundTrip(kind, packet, rest, idle, 0);
    if |packet| > 65534 {
      FrameCut(kind, packet, rest, idle, 0);
    }
  }
}

/** The inbound repair of two malformed records, and the walk that notes handshake progress. */
module Records {
  import opened Common

  // ---- inbound patch ------------------------------------------------------------

  const EMPTY_CCS: seq<Byte> := [0x14, 3, 3, 0, 0, 0]

  /** Handshake record of 21 bytes holding a key exchange with a 15-byte identity. */
  const CKE_HEADER: seq<Byte> := [0x16, 3, 3, 0, 0x15, 0x10, 0, 0, 0x11, 0, 0x0f]

  /** "Client_identity". */
  const CKE_IDENTITY: seq<Byte> := [
    0x43, 0x6c, 0x69, 0x65, 0x6e, 0x74, 0x5f, 0x69, 0x64, 0x65, 0x6e, 0x74, 0x69, 0x74, 0x79]

  predicate HasEmptyCcs(s: Bytes) {
    |s| >= 6 && s[..6] == EMPTY_CCS
  }

  predicate HasAlteredIdentity(s: Bytes) {
    |s| >= 26 && s[..11] == CKE_HEADER && s[11..26] != CKE_IDENTITY
  }

  function Patched(s: Bytes): (r: Bytes)
    ensures |r| == |s|
  {
    if HasEmptyCcs(s) then s[..4] + [1, 1] + s[6..]
    else if HasAlteredIdentity(s) then s[..11] + CKE_IDENTITY + s[26..]
    else s
  }

  /** The patch settles after one pass, leaves neither defect, and touches only the bytes of the defect it found. */
  lemma PatchSettles(s: Bytes)
    ensures Patched(Patched(s)) == Patched(s)
    ensures !HasEmptyCcs(Patched(s)) && !HasAlteredIdentity(Patched(s))
    ensures Patched(s) == s <==> !HasEmptyCcs(s) && !HasAlteredIdentity(s)
    ensures forall i | 0 <= i < |s| && Patched(s)[i] != s[i] ::
              || (HasEmptyCcs(s) && 4 <= i < 6)
              || (HasAlteredIdentity(s) && 11 <= i < 26)
  {
    var p := Patched(s);
    if HasEmptyCcs(s) {
      assert p[5] == 1 && s[..6][5] == s[5] == 0 && p[0] == s[0] == s[..6][0];
      assert p[..6] != EMPTY_CCS && p[0] != CKE_HEADER[0];
      assert |p| >= 26 ==> p[..11][0] == p[0];
    } else if HasAlteredIdentity(s) {
      assert p[11..26] == CKE_IDENTITY && p[0] == s[..11][0] == 0x16;
      assert p[..6][0] == p[0];
    }
  }

  method PatchInbound(buf: array<Byte>)
    modifies buf
    ensures buf[..] == Patched(old(buf[..]))
  {
    var len := buf.Length;
    if len >= 6 && buf[..6] == EMPTY_CCS {
      assert buf[..6][0] == buf[0];
      buf[4] := 1;
      buf[5] := 1;
      assert buf[..] == Patched(old(buf[..])) && buf[0] == 0x14;
    }
    assert len >= 11 && buf[..11] == CKE_HEADER ==> buf[0] == buf[..11][0];
    if len >= 26 && buf[..11] == CKE_HEADER && buf[11..26] != CKE_IDENTITY {
      ghost var before := buf[..];
      Memcpy(buf, 11, CKE_IDENTITY);
      assert before[..11] == buf[..11] && before[11..26] != CKE_IDENTITY;
    }
  }

  // ---- records -----------------------------------------------------------------

  /** A TLS record: content type, version, body. */
  datatype Record = Record(kind: Byte, major: Byte, minor: Byte, body: Bytes)

  /** A complete record whose body is not empty and fits the length field. */
  predicate Complete(r: Record) {
    1 <= |r.body| < 0x1_0000
  }

  function Encode(r: Record): Bytes
    requires Complete(r)
  {
    [r.kind, r.major, r.minor, |r.body| / 256, |r.body| % 256] + r.body
  }

  function EncodeAll(rs: seq<Record>): Bytes
    requires forall r | r in rs :: Complete(r)
  {
    if rs == [] then [] else Encode(rs[0]) + EncodeAll(rs[1..])
  }

  function BodyLength(s: Bytes): (n: nat)
    requires |s| >= 5
    ensures n < 0x1_0000
  {
    var hi: int, lo: int := s[3], s[4];
    hi * 256 + lo
  }

  predicate StartsComplete(s: Bytes) {
    |s| >= 5 && BodyLength(s) != 0 && 5 + BodyLength(s) <= |s|
  }

  /** The complete record at the front, and what follows it. */
  function Head(s: Bytes): (r: Record)
    requires StartsComplete(s)
    ensures Complete(r)
  {
    Record(s[0], s[1], s[2], s[5..5 + BodyLength(s)])
  }

  function Tail(s: Bytes): (t: Bytes)
    requires StartsComplete(s)
    ensures |t| < |s|
  {
    s[5 + BodyLength(s)..]
  }

  /** A recursive record parser: the complete records at the front. */
  function Parse(s: Bytes): (rs: seq<Record>)
    ensures forall r | r in rs :: Complete(r)
    decreases |s|
  {
    if !StartsComplete(s) then [] else [Head(s)] + Parse(Tail(s))
  }

  /** What is left when no complete record starts. */
  function Remainder(s: Bytes): (t: Bytes)
    ensures !StartsComplete(t)
    decreases |s|
  {
    if !StartsComplete(s) then s else Remainder(Tail(s))
  }

  lemma HeadTail(s: Bytes)
    requires StartsComplete(s)
    ensures s == Encode(Head(s)) + Tail(s)
  {
    assert Encode(Head(s)) == s[..5 + BodyLength(s)];
  }

  lemma HeadEncoded(r: Record, rest: Bytes)
    requires Complete(r)
    ensures var s := Encode(r) + rest;
            StartsComplete(s) && Head(s) == r && Tail(s) == rest
  {
    var s := Encode(r) + rest;
    assert s[3] == |r.body| / 256 && s[4] == |r.body| % 256;
    assert BodyLength(s) == |r.body| && s[5..5 + |r.body|] == r.body;
  }

  /** Parsing loses nothing. */
  lemma {:induction false} ParseInverse(s: Bytes)
    ensures s == EncodeAll(Parse(s)) + Remainder(s)
    decreases |s|
  {
    if StartsComplete(s) {
      HeadTail(s);
      ParseInverse(Tail(s));
      assert Parse(s)[1..] == Parse(Tail(s));
    } else {
      assert EncodeAll(Parse(s)) + Remainder(s) == [] + s;
    }
  }

  /** Parsing reads back any concatenation of complete records. */
  lemma {:induction false} ParseEncoded(rs: seq<Record>, tail: Bytes)
    requires forall r | r in rs :: Complete(r)
    requires !StartsComplete(tail)
    ensures Parse(EncodeAll(rs) + tail) == rs && Remainder(EncodeAll(rs) + tail) == tail
  {
    if rs == [] {
      assert EncodeAll(rs) + tail == tail;
    } else {
      assert rs[0] in rs;
      var rest := EncodeAll(rs[1..]) + tail;
      assert EncodeAll(rs) + tail == Encode(rs[0]) + rest;
      HeadEncoded(rs[0], rest);
      ParseEncoded(rs[1..], tail);
      assert rs == [rs[0]] + rs[1..];
    }
  }

  // ---- handshake progress --------------------------------------------------------

  datatype Progress = Progress(hello: bool, keyExchange: bool, cipherChange: bool) {
    predicate CompleteFlight() {
      hello && keyExchange && cipherChange
    }
  }

  const NO_PROGRESS := Progress(false, false, false)

  /** One step of the walk, on the record that starts here. */
  function NoteOne(p: Progress, s: Bytes): Progress
    requires |s| >= 5
  {
    if s[0] == 0x14 then p.(cipherChange := true)
    else if s[0] == 0x16 && BodyLength(s) >= 4 && 5 + BodyLength(s) <= |s| then
      if s[5] == 0x01 then p.(hello := true)
      else if s[5] == 0x10 then p.(keyExchange := true)
      else p
    else p
  }

  /** The whole walk over one packet. */
  function Walk(p: Progress, s: Bytes): Progress
    decreases |s|
  {
    if |s| < 5 then p
    else if !StartsComplete(s) then NoteOne(p, s)
    else Walk(NoteOne(p, s), Tail(s))
  }

  predicate IsHandshake(r: Record, handshakeType: Byte) {
    r.kind == 0x16 && |r.body| >= 4 && r.body[0] == handshakeType
  }

  /** A packet shows a handshake message when one of its parsed records is that message. */
  ghost predicate ShowsHandshake(s: Bytes, handshakeType: Byte) {
    exists r :: r in Parse(s) && IsHandshake(r, handshakeType)
  }

  /** A cipher change counts even when malformed: the remainder's content type is enough. */
  ghost predicate ShowsCipherChange(s: Bytes) {
    || (exists r :: r in Parse(s) && r.kind == 0x14)
    || (|Remainder(s)| >= 5 && Remainder(s)[0] == 0x14)
  }

  lemma ParsedMembers(s: Bytes)
    requires StartsComplete(s)
    ensures forall r :: r in Parse(s) <==> r == Head(s) || r in Parse(Tail(s))
  {
  }

  lemma ShowsFirst(s: Bytes, handshakeType: Byte)
    requires StartsComplete(s)
    ensures ShowsHandshake(s, handshakeType)
            <==> IsHandshake(Head(s), handshakeType) || ShowsHandshake(Tail(s), handshakeType)
    ensures ShowsCipherChange(s) <==> Head(s).kind == 0x14 || ShowsCipherChange(Tail(s))
  {
    ParsedMembers(s);
    assert Head(s) in Parse(s);
  }

  /** On every buffer the walk sets exactly the flags of the records the parser finds. */
  lemma {:induction false} WalkSeesRecords(p: Progress, s: Bytes)
    ensures Walk(p, s).hello <==> p.hello || ShowsHandshake(s, 0x01)
    ensures Walk(p, s).keyExchange <==> p.keyExchange || ShowsHandshake(s, 0x10)
    ensures Walk(p, s).cipherChange <==> p.cipherChange || ShowsCipherChange(s)
    decreases |s|
  {
    if StartsComplete(s) {
      WalkSeesRecords(NoteOne(p, s), Tail(s));
      ShowsFirst(s, 0x01);
      ShowsFirst(s, 0x10);
      assert BodyLength(s) >= 4 ==> Head(s).body[0] == s[5];
    } else {
      assert Parse(s) == [] && Remainder(s) == s;
    }
  }

  /** On a concatenation of complete records the flags are those of the records themselves. */
  lemma WalkOfRecords(rs: seq<Record>)
    requires forall r | r in rs :: Complete(r)
    ensures var p := Walk(NO_PROGRESS, EncodeAll(rs));
            && (p.hello <==> exists r :: r in rs && IsHandshake(r, 0x01))
            && (p.keyExchange <==> exists r :: r in rs && IsHandshake(r, 0x10))
            && (p.cipherChange <==> exists r :: r in rs && r.kind == 0x14)
  {
    ParseEncoded(rs, []);
    assert EncodeAll(rs) + [] == EncodeAll(rs);
    WalkSeesRecords(NO_PROGRESS, EncodeAll(rs));
  }

  /** The malformed cipher change is noticed before it is patched, and is a proper record after. */
  lemma EmptyCcsNoticedAndRepaired(s: Bytes, p: Progress)
    requires HasEmptyCcs(s)
    ensures Walk(p, s).cipherChange
    ensures Parse(Patched(s)) != [] && Parse(Patched(s))[0] == Record(0x14, 3, 3, [1])
  {
    assert s[..6] == [s[0], s[1], s[2], s[3], s[4], s[5]];
    var q := Patched(s);
    assert q[0] == 0x14 && q[1] == 3 && q[2] == 3 && q[3] == 0 && q[4] == 1 && q[5] == 1;
    assert BodyLength(q) == 1 && q[5..6] == [1];
  }

  /** The framing test made before a record is decrypted. */
  predicate RecordHeaderOk(record: Bytes) {
    |record| >= 5 && 0x14 <= record[0] <= 0x17 && record[1] == 3 && BodyLength(record) + 5 <= |record|
  }
}

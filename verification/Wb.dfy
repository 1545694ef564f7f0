/** The 102-byte key container: concatenation form, in-place form, and what unwrapping accepts. */
module Wb {
  import opened Common

  const PSK_LEN: nat := 32
  const WB_LEN: nat := 102

  const KBUF: seq<Byte> := [
    0x58, 0xf0, 0x13, 0xee, 0xb7, 0xe2, 0x16, 0xe2, 0xc1, 0xcd, 0x0e, 0x8f, 0xff, 0xa7, 0xdb, 0xd6,
    0x79, 0x9c, 0xd9, 0x2a, 0xa1, 0x49, 0x01, 0x3e, 0xa0, 0xe9, 0xf9, 0xfd, 0x7d, 0xc6, 0xd9, 0x4e,
    0x3e, 0xf6, 0x3a, 0x75, 0x98, 0xc2, 0xa4, 0x93, 0x31, 0x29, 0xe8, 0x71, 0xea, 0x03, 0x04, 0x3b]
  const KEY: seq<Byte> := KBUF[..32]
  const HMAC_KEY: seq<Byte> := KBUF[16..]
  const AAD: seq<Byte> := [
    0x52, 0x2d, 0xc1, 0xf0, 0x99, 0x56, 0x7d, 0x07, 0xf4, 0x7f, 0x37, 0xa3, 0x2a, 0x84, 0x42, 0x7d]
  const HDR: seq<Byte> := [0x02, 0xff]
  const PAD: seq<Byte> := [3, 0, 0, 0]

  datatype Sealed = Sealed(ct: Bytes, tag: Bytes)

  /** The library primitives, as unknown functions of their inputs. */
  datatype Crypto = Crypto(
    sha256: Bytes -> Bytes,
    hmac: (Bytes, Bytes) -> Bytes,
    encrypt: (Bytes, Bytes, Bytes, Bytes) -> Sealed,
    decrypt: (Bytes, Bytes, Bytes, Bytes, Bytes) -> Option<Bytes>)
  {
    /** Output sizes, and that decryption succeeds exactly on what encryption produced. */
    ghost predicate Lawful() {
      && (forall x :: |sha256(x)| == 32)
      && (forall k, x :: |hmac(k, x)| == 32)
      && (forall k, iv, aad, pt :: |encrypt(k, iv, aad, pt).ct| == |pt| && |encrypt(k, iv, aad, pt).tag| == 16)
      && (forall k, iv, aad, pt, ct, tag ::
            decrypt(k, iv, aad, ct, tag) == Some(pt) <==> encrypt(k, iv, aad, pt) == Sealed(ct, tag))
    }
  }

  function Pads(n: nat): (r: Bytes)
    ensures |r| == 4 * n
  {
    if n == 0 then [] else Pads(n - 1) + PAD
  }

  /** The digest input that binds the first eight key bytes. */
  function BindingInput(len: Bytes, psk: Bytes): Bytes
    requires |psk| >= 8
  {
    HDR + len + psk[..8] + Pads(16)
  }

  /** The container for a key, with the three unchecked upper length bytes left free. */
  function Container(c: Crypto, psk: Bytes, upper: Bytes): (wb: Bytes)
    requires c.Lawful() && |psk| == PSK_LEN && |upper| == 3
    ensures |wb| == WB_LEN
  {
    var len := [PSK_LEN] + upper;
    var h16 := c.sha256(BindingInput(len, psk))[..16];
    var sealed := c.encrypt(KEY, h16, AAD, psk);
    var front := c.hmac(HMAC_KEY, HDR + len + sealed.ct + sealed.tag);
    front + HDR + len + h16 + sealed.ct + sealed.tag
  }

  /** The reference wrap: the length field is the 32-bit little-endian 32. */
  function WrapPsk(c: Crypto, psk: Bytes): (wb: Bytes)
    requires c.Lawful() && |psk| == PSK_LEN
    ensures |wb| == WB_LEN
  {
    Container(c, psk, [0, 0, 0])
  }

  /** The reference unwrap. */
  function UnwrapWb(c: Crypto, wb: Bytes): Option<Bytes>
    requires c.Lawful()
  {
    if |wb| != WB_LEN then None
    else
      var front, hdr, len := wb[..0x20], wb[0x20..0x22], wb[0x22..0x26];
      var h16, ct, tag := wb[0x26..0x36], wb[0x36..0x56], wb[0x56..];
      if hdr != HDR || len[0] != PSK_LEN then None
      else if front != c.hmac(HMAC_KEY, hdr + len + ct + tag) then None
      else
        match c.decrypt(KEY, h16, AAD, ct, tag)
        case None => None
        case Some(psk) =>
          assert c.encrypt(KEY, h16, AAD, psk) == Sealed(ct, tag);
          if c.sha256(BindingInput(len, psk))[..16] != h16 then None else Some(psk)
  }

  /** Taking apart six pieces laid side by side. */
  lemma Slices(a: Bytes, b: Bytes, d: Bytes, e: Bytes, f: Bytes, g: Bytes)
    requires |a| == 0x20 && |b| == 2 && |d| == 4 && |e| == 16 && |f| == 32 && |g| == 16
    ensures var s := a + b + d + e + f + g;
            && s[..0x20] == a && s[0x20..0x22] == b && s[0x22..0x26] == d
            && s[0x26..0x36] == e && s[0x36..0x56] == f && s[0x56..] == g
  {
  }

  lemma Reassemble(wb: Bytes)
    requires |wb| == WB_LEN
    ensures wb[0x22..0x26] == [wb[0x22]] + wb[0x23..0x26]
    ensures wb == wb[..0x20] + wb[0x20..0x22] + wb[0x22..0x26] + wb[0x26..0x36] + wb[0x36..0x56] + wb[0x56..]
  {
  }

  lemma Fields(c: Crypto, psk: Bytes, upper: Bytes)
    requires c.Lawful() && |psk| == PSK_LEN && |upper| == 3
    ensures var wb := Container(c, psk, upper);
            var len := [PSK_LEN] + upper;
            var h16 := c.sha256(BindingInput(len, psk))[..16];
            var sealed := c.encrypt(KEY, h16, AAD, psk);
            && wb[..0x20] == c.hmac(HMAC_KEY, HDR + len + sealed.ct + sealed.tag)
            && wb[0x20..0x22] == HDR && wb[0x22..0x26] == len && wb[0x26..0x36] == h16
            && wb[0x36..0x56] == sealed.ct && wb[0x56..] == sealed.tag
  {
    var len := [PSK_LEN] + upper;
    var h16 := c.sha256(BindingInput(len, psk))[..16];
    var sealed := c.encrypt(KEY, h16, AAD, psk);
    Slices(c.hmac(HMAC_KEY, HDR + len + sealed.ct + sealed.tag), HDR, len, h16, sealed.ct, sealed.tag);
  }

  lemma UnwrapReadsContainer(c: Crypto, psk: Bytes, upper: Bytes)
    requires c.Lawful() && |psk| == PSK_LEN && |upper| == 3
    ensures UnwrapWb(c, Container(c, psk, upper)) == Some(psk)
  {
    Fields(c, psk, upper);
    var len := [PSK_LEN] + upper;
    var h16 := c.sha256(BindingInput(len, psk))[..16];
    var sealed := c.encrypt(KEY, h16, AAD, psk);
    assert c.decrypt(KEY, h16, AAD, sealed.ct, sealed.tag) == Some(psk);
  }

  lemma UnwrappedIsContainer(c: Crypto, wb: Bytes)
    requires c.Lawful() && UnwrapWb(c, wb).Some?
    ensures |UnwrapWb(c, wb).value| == PSK_LEN
    ensures wb == Container(c, UnwrapWb(c, wb).value, wb[0x23..0x26])
  {
    var psk := UnwrapWb(c, wb).value;
    var h16, ct, tag := wb[0x26..0x36], wb[0x36..0x56], wb[0x56..];
    assert c.decrypt(KEY, h16, AAD, ct, tag) == Some(psk);
    assert c.encrypt(KEY, h16, AAD, psk) == Sealed(ct, tag);
    Reassemble(wb);
  }

  /** Unwrapping accepts exactly the containers of a key, for any upper length bytes, and returns that key. */
  lemma UnwrapAcceptsExactly(c: Crypto, wb: Bytes, psk: Bytes)
    requires c.Lawful() && |psk| == PSK_LEN
    ensures UnwrapWb(c, wb) == Some(psk)
            <==> |wb| == WB_LEN && wb == Container(c, psk, wb[0x23..0x26])
  {
    if UnwrapWb(c, wb) == Some(psk) {
      UnwrappedIsContainer(c, wb);
    }
    if |wb| == WB_LEN {
      UnwrapReadsContainer(c, psk, wb[0x23..0x26]);
    }
  }

  /** Unwrap undoes wrap. */
  lemma UnwrapOfWrap(c: Crypto, psk: Bytes)
    requires c.Lawful() && |psk| == PSK_LEN
    ensures UnwrapWb(c, WrapPsk(c, psk)) == Some(psk)
  {
    UnwrapReadsContainer(c, psk, [0, 0, 0]);
  }

  /** A container that unwraps is the wrap of its key exactly when its upper length bytes are zero. */
  lemma WrapOfUnwrap(c: Crypto, wb: Bytes)
    requires c.Lawful() && UnwrapWb(c, wb).Some?
    ensures |UnwrapWb(c, wb).value| == PSK_LEN
    ensures wb == WrapPsk(c, UnwrapWb(c, wb).value) <==> wb[0x23..0x26] == [0, 0, 0]
  {
    UnwrappedIsContainer(c, wb);
    Fields(c, UnwrapWb(c, wb).value, [0, 0, 0]);
    assert wb[0x23..0x26] == wb[0x22..0x26][1..];
  }

  /** Two keys never share a container. */
  lemma WrapInjective(c: Crypto, a: Bytes, b: Bytes)
    requires c.Lawful() && |a| == PSK_LEN && |b| == PSK_LEN && WrapPsk(c, a) == WrapPsk(c, b)
    ensures a == b
  {
    UnwrapOfWrap(c, a);
    UnwrapOfWrap(c, b);
  }

  // ---- in-place form --------------------------------------------------------

  /** The library calls of one wrap or unwrap, in order; a faulty one fails. */
  datatype Call = Digest | Cipher | Mac

  /** Fills the digest input with a moving cursor. */
  method BuildBindingInput(len: Bytes, head: Bytes) returns (shaIn: array<Byte>)
    requires |len| == 4 && |head| == 8
    ensures fresh(shaIn) && shaIn[..] == HDR + len + head + Pads(16)
  {
    shaIn := new Byte[2 + 4 + 8 + 64];
    Memcpy(shaIn, 0, HDR);
    Memcpy(shaIn, 2, len);
    Memcpy(shaIn, 6, head);
    FillPads(shaIn, 14);
    assert shaIn[..] == shaIn[0..78];
  }

  method FillPads(buf: array<Byte>, at: nat)
    requires at + 64 == buf.Length
    modifies buf
    ensures buf[0..at + 64] == old(buf[0..at]) + Pads(16)
  {
    var p := at;
    for i := 0 to 16
      invariant p == at + 4 * i
      invariant buf[0..p] == old(buf[0..at]) + Pads(i)
    {
      Memcpy(buf, p, PAD);
      p := p + 4;
    }
  }

  /** The MAC input: header, length, ciphertext and tag. */
  method BuildMacInput(len: Bytes, ct: Bytes, tag: Bytes) returns (macIn: array<Byte>)
    requires |len| == 4 && |ct| == 32 && |tag| == 16
    ensures fresh(macIn) && macIn[..] == HDR + len + ct + tag
  {
    macIn := new Byte[2 + 4 + 32 + 16];
    Memcpy(macIn, 0, HDR);
    Memcpy(macIn, 2, len);
    Memcpy(macIn, 6, ct);
    Memcpy(macIn, 38, tag);
    assert macIn[..] == macIn[0..54];
  }

  /** The length field as written. */
  const LEN_FIELD: seq<Byte> := [PSK_LEN, 0, 0, 0]

  function BindingDigest(c: Crypto, psk: Bytes): (h16: Bytes)
    requires c.Lawful() && |psk| == PSK_LEN
    ensures |h16| == 16
  {
    c.sha256(BindingInput(LEN_FIELD, psk))[..16]
  }

  /** Header, length and digest of the binding input: the part written before the cipher runs. */
  method WriteHead(c: Crypto, psk: Bytes, outWb: array<Byte>, faults: set<Call>) returns (ok: bool)
    requires c.Lawful() && |psk| == PSK_LEN && outWb.Length == WB_LEN
    modifies outWb
    ensures ok <==> Digest !in faults
    ensures outWb[..0x20] == old(outWb[..0x20])
    ensures ok ==> outWb[0x20..0x36] == HDR + LEN_FIELD + BindingDigest(c, psk)
    ensures ok ==> outWb[0x26..0x36] == BindingDigest(c, psk)
  {
    Memcpy(outWb, 0x20, HDR);
    Memcpy(outWb, 0x22, LEN_FIELD, 0x20);
    assert outWb[0x20..0x26] == HDR + LEN_FIELD;
    var shaIn := BuildBindingInput(outWb[0x22..0x26], psk[..8]);
    ok := Digest !in faults;
    if ok {
      Memcpy(outWb, 0x26, c.sha256(shaIn[..])[..16], 0x20);
    }
  }

  /** Ciphertext and tag, keyed by the digest already in the buffer. */
  method WriteSealed(c: Crypto, psk: Bytes, outWb: array<Byte>)
    requires c.Lawful() && |psk| == PSK_LEN && outWb.Length == WB_LEN
    modifies outWb
    ensures outWb[..0x20] == old(outWb[..0x20])
    ensures var sealed := c.encrypt(KEY, old(outWb[0x26..0x36]), AAD, psk);
            && outWb[0x20..] == old(outWb[0x20..0x36]) + sealed.ct + sealed.tag
            && outWb[0x36..0x56] == sealed.ct && outWb[0x56..] == sealed.tag
  {
    var sealed := c.encrypt(KEY, outWb[0x26..0x36], AAD, psk);
    Memcpy(outWb, 0x36, sealed.ct, 0x20);
    assert outWb[0x20..0x56] == old(outWb[0x20..0x36]) + sealed.ct;
    Memcpy(outWb, 0x56, sealed.tag, 0x20);
    assert outWb[0x20..0x66] == outWb[0x20..] && outWb[0x56..0x66] == outWb[0x56..];
    assert outWb[0x36..0x56] == outWb[0x20..][0x16..0x36] == sealed.ct;
  }

  /** The authenticating front, computed over fields already in the buffer. */
  method WriteFront(c: Crypto, outWb: array<Byte>)
    requires c.Lawful() && outWb.Length == WB_LEN
    modifies outWb
    ensures var macIn := HDR + LEN_FIELD + old(outWb[0x36..0x56]) + old(outWb[0x56..]);
            outWb[..] == c.hmac(HMAC_KEY, macIn) + old(outWb[0x20..])
  {
    var macIn := BuildMacInput(LEN_FIELD, outWb[0x36..0x56], outWb[0x56..]);
    Memcpy(outWb, 0, c.hmac(HMAC_KEY, macIn[..]));
    assert outWb[..] == outWb[0..0x20] + outWb[0x20..];
  }

  /** Writes every field at its offset; the front comes last. */
  method Wrap(c: Crypto, psk: Bytes, outWb: array<Byte>, faults: set<Call>) returns (ok: bool)
    requires c.Lawful() && |psk| == PSK_LEN && outWb.Length == WB_LEN
    modifies outWb
    ensures ok <==> faults == {}
    ensures ok ==> outWb[..] == WrapPsk(c, psk)
    ensures !ok ==> outWb[..0x20] == old(outWb[..0x20])
  {
    AllCalls(faults);
    ok := WriteHead(c, psk, outWb, faults);
    if !ok || Cipher in faults {
      return false;
    }
    WriteSealed(c, psk, outWb);
    if Mac in faults {
      return false;
    }
    WriteFront(c, outWb);
    WrapParts(c, psk);
  }

  lemma WrapParts(c: Crypto, psk: Bytes)
    requires c.Lawful() && |psk| == PSK_LEN
    ensures var h16 := BindingDigest(c, psk);
            var sealed := c.encrypt(KEY, h16, AAD, psk);
            WrapPsk(c, psk) == c.hmac(HMAC_KEY, HDR + LEN_FIELD + sealed.ct + sealed.tag)
                               + (HDR + LEN_FIELD + h16 + sealed.ct + sealed.tag)
  {
    assert [PSK_LEN] + [0, 0, 0] == LEN_FIELD;
  }

  lemma AllCalls(faults: set<Call>)
    ensures faults == {} <==> Digest !in faults && Cipher !in faults && Mac !in faults
  {
    if c :| c in faults {
      assert c == Digest || c == Cipher || c == Mac;
    }
  }

  /** Reads the fields of a container in place; only a library fault separates it from the reference. */
  method Unwrap(c: Crypto, wb: array<Byte>, faults: set<Call>) returns (psk: Option<Bytes>)
    requires c.Lawful() && wb.Length == WB_LEN
    ensures psk.Some? ==> psk == UnwrapWb(c, wb[..])
    ensures faults == {} ==> psk == UnwrapWb(c, wb[..])
  {
    AllCalls(faults);
    if wb[0x20..0x22] != HDR || wb[0x22] != PSK_LEN {
      return None;
    }
    var macIn := BuildMacInput(wb[0x22..0x26], wb[0x36..0x56], wb[0x56..]);
    if Mac in faults || wb[..0x20] != c.hmac(HMAC_KEY, macIn[..]) {
      return None;
    }
    if Cipher in faults {
      return None;
    }
    var plain := c.decrypt(KEY, wb[0x26..0x36], AAD, wb[0x36..0x56], wb[0x56..]);
    if plain.None? {
      return None;
    }
    assert c.encrypt(KEY, wb[0x26..0x36], AAD, plain.value) == Sealed(wb[0x36..0x56], wb[0x56..]);
    var shaIn := BuildBindingInput(wb[0x22..0x26], plain.value[..8]);
    if Digest in faults || c.sha256(shaIn[..])[..16] != wb[0x26..0x36] {
      return None;
    }
    psk := plain;
  }

  // ---- provisioning -----------------------------------------------------------

  /** Register 0xbb010003 and length 102, both little-endian. */
  const PROVISION_HEAD: seq<Byte> := [0x03, 0x00, 0x01, 0xbb, 102, 0, 0, 0]

  /** The register-write argument: address, length, container, padding to four bytes. */
  method ProvisionData(c: Crypto, psk: Bytes, faults: set<Call>) returns (data: Option<Bytes>)
    requires c.Lawful() && |psk| == PSK_LEN
    ensures data.Some? <==> faults == {}
    ensures data.Some? ==> data.value == PROVISION_HEAD + WrapPsk(c, psk) + [0, 0]
  {
    var wb := new Byte[WB_LEN];
    var ok := Wrap(c, psk, wb, faults);
    if !ok {
      return None;
    }
    var padded := (8 + WB_LEN + 3) / 4 * 4;
    var buf := new Byte[padded](_ => 0);
    ghost var zeros := buf[..];
    assert zeros[110..] == [0, 0];
    Memcpy(buf, 0, PROVISION_HEAD);
    SliceTwice(zeros, 8, 102);
    SliceTwice(buf[..], 8, 102);
    assert buf[110..] == zeros[110..];
    Memcpy(buf, 8, wb[..]);
    assert buf[0..110] == PROVISION_HEAD + wb[..];
    assert buf[..] == buf[0..110] + buf[110..];
    data := Some(buf[..]);
  }

  /** A 32-bit little-endian field. */
  function Word32(b: Bytes, at: nat): nat
    requires at + 4 <= |b|
  {
    var b0: int, b1: int, b2: int, b3: int := b[at], b[at + 1], b[at + 2], b[at + 3];
    b0 + 0x100 * b1 + 0x1_0000 * b2 + 0x100_0000 * b3
  }

  /** The register write names its address and length, and the MCU finds the key at byte 8. */
  lemma ProvisionedKey(c: Crypto, psk: Bytes)
    requires c.Lawful() && |psk| == PSK_LEN
    ensures var data := PROVISION_HEAD + WrapPsk(c, psk) + [0, 0];
            && Word32(data, 0) == 0xbb01_0003 && Word32(data, 4) == 102
            && |data| == 112 && data[110..] == [0, 0]
            && UnwrapWb(c, data[8..110]) == Some(psk)
  {
    ProvisionFields(WrapPsk(c, psk));
    UnwrapOfWrap(c, psk);
  }

  lemma ProvisionFields(wb: Bytes)
    requires |wb| == WB_LEN
    ensures var data := PROVISION_HEAD + wb + [0, 0];
            && |data| == 112 && data[110..] == [0, 0] && data[8..110] == wb
            && Word32(data, 0) == 0xbb01_0003 && Word32(data, 4) == 102
  {
  }
}

/** The key as text: environment values and the persisted state file. */
module PskState {
  import opened Common

  type Key = k: Bytes | |k| == 32 witness seq(32, _ => 0)

  const DIGITS: string := "0123456789abcdef"

  predicate Space(c: char) {
    c == ' ' || '\t' <= c <= '\r'
  }

  type Nibble = x: int | 0 <= x < 16

  function DigitValue(c: char): Option<Nibble> {
    if '0' <= c <= '9' then Some(c as int - '0' as int)
    else if 'a' <= c <= 'f' then Some(c as int - 'a' as int + 10)
    else if 'A' <= c <= 'F' then Some(c as int - 'A' as int + 10)
    else None
  }

  /**
    A two-character base-16 conversion that must consume both characters. The library call skips a leading
    space and takes a sign, so a pair need not be two digits.
   */
  function ParsePair(a: char, b: char): Option<Byte> {
    var hi, lo := DigitValue(a), DigitValue(b);
    if lo.None? then None
    else if hi.Some? then Some(hi.value * 16 + lo.value)
    else if Space(a) || a == '+' then lo
    else if a == '-' then Some((256 - lo.value) % 256)
    else None
  }

  function ParsePairs(text: string): Option<Bytes>
    requires |text| % 2 == 0
  {
    if text == "" then Some([])
    else
      match ParsePair(text[0], text[1])
      case None => None
      case Some(b) =>
        match ParsePairs(text[2..])
        case None => None
        case Some(bs) => Some([b] + bs)
  }

  lemma {:induction false} ParsePairsLength(text: string)
    requires |text| % 2 == 0 && ParsePairs(text).Some?
    ensures 2 * |ParsePairs(text).value| == |text|
  {
    if text != "" {
      ParsePairsLength(text[2..]);
    }
  }

  /** Exactly 64 characters, or nothing. */
  function ParseHex(text: string): Option<Key> {
    if |text| != 64 then None
    else
      match ParsePairs(text)
      case None => None
      case Some(k) => ParsePairsLength(text); Some(k)
  }

  /** A digit value in either case, as text. */
  ghost predicate IsDigit(c: char, v: nat) {
    v < 16 && (c == DIGITS[v] || c == "0123456789ABCDEF"[v])
  }

  lemma DigitExactly(c: char, v: nat)
    requires v < 16
    ensures DigitValue(c) == Some(v) <==> IsDigit(c, v)
  {
    DigitOfValue(v);
    UpperDigitOfValue(v);
  }

  lemma UpperDigitOfValue(v: nat)
    requires v < 16
    ensures DigitValue("0123456789ABCDEF"[v]) == Some(v)
  {
  }

  /** A pair is two digits, or one digit behind a space or a sign; a minus takes the value modulo 256. */
  lemma PairExactly(a: char, b: char)
    ensures ParsePair(a, b)
            == if DigitValue(b).None? then None
               else
                 var lo := DigitValue(b).value;
                 if DigitValue(a).Some? then Some(16 * DigitValue(a).value + lo)
                 else if a == '-' then Some(if lo == 0 then 0 else 256 - lo)
                 else if a == '+' || a == ' ' || '\t' <= a <= '\r' then Some(lo)
                 else None
  {
  }

  function ToHex(bytes: Bytes): (text: string)
    ensures |text| == 2 * |bytes|
  {
    if bytes == [] then "" else [DIGITS[bytes[0] / 16], DIGITS[bytes[0] % 16]] + ToHex(bytes[1..])
  }

  lemma PairOfByte(b: Byte)
    ensures ParsePair(DIGITS[b / 16], DIGITS[b % 16]) == Some(b)
  {
    DigitOfValue(b / 16);
    DigitOfValue(b % 16);
  }

  lemma DigitOfValue(v: nat)
    requires v < 16
    ensures DigitValue(DIGITS[v]) == Some(v)
  {
    assert DIGITS[0] == '0' && DIGITS[1] == '1' && DIGITS[2] == '2' && DIGITS[3] == '3';
    assert DIGITS[4] == '4' && DIGITS[5] == '5' && DIGITS[6] == '6' && DIGITS[7] == '7';
    assert DIGITS[8] == '8' && DIGITS[9] == '9' && DIGITS[10] == 'a' && DIGITS[11] == 'b';
    assert DIGITS[12] == 'c' && DIGITS[13] == 'd' && DIGITS[14] == 'e' && DIGITS[15] == 'f';
  }

  lemma {:induction false} ParseOfHex(bytes: Bytes)
    ensures ParsePairs(ToHex(bytes)) == Some(bytes)
  {
    if bytes != [] {
      PairOfByte(bytes[0]);
      ParseOfHex(bytes[1..]);
      assert ToHex(bytes)[2..] == ToHex(bytes[1..]);
      assert bytes == [bytes[0]] + bytes[1..];
    }
  }

  // ---- case and surrounding space ---------------------------------------------

  function UpperDigit(c: char): char {
    if 'a' <= c <= 'f' then (c as int - 'a' as int + 'A' as int) as char else c
  }

  function Upper(text: string): (u: string)
    ensures |u| == |text|
  {
    if text == "" then "" else [UpperDigit(text[0])] + Upper(text[1..])
  }

  lemma UpperPair(a: char, b: char)
    ensures ParsePair(UpperDigit(a), UpperDigit(b)) == ParsePair(a, b)
  {
    assert DigitValue(UpperDigit(a)) == DigitValue(a) && DigitValue(UpperDigit(b)) == DigitValue(b);
  }

  /** Parsing does not look at the case of the digits. */
  lemma {:induction false} ParseIgnoresCase(text: string)
    requires |text| % 2 == 0
    ensures ParsePairs(Upper(text)) == ParsePairs(text)
  {
    if text != "" {
      var rest := text[2..];
      UpperPair(text[0], text[1]);
      ParseIgnoresCase(rest);
      assert text[1..][1..] == rest;
      assert Upper(text) == [UpperDigit(text[0])] + ([UpperDigit(text[1])] + Upper(rest));
      assert Upper(text)[2..] == Upper(rest);
    }
  }

  // ---- state file --------------------------------------------------------------

  function StripLeading(text: string): string {
    if text != "" && Space(text[0]) then StripLeading(text[1..]) else text
  }

  function StripTrailing(text: string): string {
    if text != "" && Space(text[|text| - 1]) then StripTrailing(text[..|text| - 1]) else text
  }

  /** What the state file holds after a save. */
  function SaveText(key: Key): string {
    ToHex(key) + "\n"
  }

  /** What loading reads; an absent or malformed file is no key. */
  function LoadText(contents: Option<string>): Option<Key> {
    if contents.None? then None else ParseHex(StripTrailing(StripLeading(contents.value)))
  }

  predicate AllSpace(text: string) {
    forall i | 0 <= i < |text| :: Space(text[i])
  }

  lemma {:induction false} StripsBefore(space: string, text: string)
    requires AllSpace(space) && text != "" && !Space(text[0])
    ensures StripLeading(space + text) == text
  {
    if space != "" {
      assert (space + text)[1..] == space[1..] + text;
      StripsBefore(space[1..], text);
    } else {
      assert space + text == text;
    }
  }

  lemma {:induction false} StripsAfter(text: string, space: string)
    requires AllSpace(space) && text != "" && !Space(text[|text| - 1])
    ensures StripTrailing(text + space) == text
  {
    if space != "" {
      var n := |space| - 1;
      assert (text + space)[..|text + space| - 1] == text + space[..n];
      StripsAfter(text, space[..n]);
    } else {
      assert text + space == text;
    }
  }

  /** White space around the key text in the state file does not matter. */
  lemma LoadIgnoresSpace(before: string, key: Key, after: string)
    requires AllSpace(before) && AllSpace(after)
    ensures LoadText(Some(before + (ToHex(key) + after))) == Some(key)
  {
    DigitIsNotSpace(key[0] / 16);
    LastDigit(key);
    StripsBefore(before, ToHex(key) + after);
    StripsAfter(ToHex(key), after);
    ParseOfHex(key);
  }

  lemma DigitIsNotSpace(v: nat)
    requires v < 16
    ensures !Space(DIGITS[v])
  {
    DigitOfValue(v);
  }

  lemma {:induction false} LastDigit(bytes: Bytes)
    requires bytes != []
    ensures !Space(ToHex(bytes)[|ToHex(bytes)| - 1])
  {
    if |bytes| == 1 {
      DigitIsNotSpace(bytes[0] % 16);
    } else {
      LastDigit(bytes[1..]);
    }
  }

  /** Loading returns the key that was saved. */
  lemma LoadOfSave(key: Key)
    ensures LoadText(Some(SaveText(key))) == Some(key)
  {
    var text := SaveText(key);
    DigitIsNotSpace(key[0] / 16);
    LastDigit(key);
    assert StripLeading(text) == text;
    assert text[..|text| - 1] == ToHex(key);
    assert StripTrailing(text) == StripTrailing(ToHex(key)) == ToHex(key);
    ParseOfHex(key);
  }
}

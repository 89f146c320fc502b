/**
 The secret of an MTProto proxy and its textual form in links
 (td/mtproto/ProxySecret.h and ProxySecret.cpp).
 */
module ProxySecret {
  import opened Bytes
  import opened TextCodecs

  const MAX_DOMAIN_LENGTH := 182

  datatype Secret = Secret(raw: seq<byte>) {
    predicate EmulateTls() {
      |raw| >= 17 && raw[0] == 0xee
    }
  }

  datatype Result = Ok(secret: Secret) | TooLong | Wrong | Unsupported

  /** from_binary. */
  function FromBinary(raw: seq<byte>, truncate: bool): Result {
    if |raw| > 17 + MAX_DOMAIN_LENGTH && !truncate then TooLong
    else
      var kept := if |raw| > 17 + MAX_DOMAIN_LENGTH then raw[..17 + MAX_DOMAIN_LENGTH] else raw;
      if |kept| == 16 || (|kept| == 17 && kept[0] == 0xdd) || (|kept| >= 18 && kept[0] == 0xee) then Ok(Secret(kept))
      else if |kept| < 16 then Wrong
      else Unsupported
  }

  /** get_encoded_secret. */
  function Encoded(s: Secret): string {
    if s.EmulateTls() then Base64Text(s.raw, true) else HexText(s.raw)
  }

  /** from_link: hexadecimal first, then the two base64 alphabets. */
  method FromLink(text: string, truncate: bool) returns (r: Result)
    ensures r == Parsed(text, truncate)
  {
    var decoded := HexDecode(text);
    if decoded.None? {
      decoded := Base64Decode(text, true);
    }
    if decoded.None? {
      decoded := Base64Decode(text, false);
    }
    if decoded.None? {
      return Wrong;
    }
    return FromBinary(decoded.value, truncate);
  }

  /** The first reading of the text that succeeds. */
  function Parsed(text: string, truncate: bool): Result {
    var readings := [HexBytes(text), Base64Bytes(text, true), Base64Bytes(text, false)];
    if readings[0].Some? then FromBinary(readings[0].value, truncate)
    else if readings[1].Some? then FromBinary(readings[1].value, truncate)
    else if readings[2].Some? then FromBinary(readings[2].value, truncate)
    else Wrong
  }

  /** A leading byte 0xee makes the first two letters '7' and one of 'g' to 'v', which is no digit. */
  lemma TlsLetters(raw: seq<byte>)
    requires |raw| >= 2 && raw[0] == 0xee
    ensures var text := Base64Text(raw, true); |text| >= 2 && text[0] == '7' && 'g' <= text[1] <= 'v'
  {
    var group := if |raw| <= 3 then raw else raw[..3];
    var n := Word(group);
    FirstDigits(n, raw[1], if |group| > 2 then group[2] else 0);
    assert Group(group, true)[0] == Letter(n / 262144, true) && Group(group, true)[1] == Letter(n / 4096 % 64, true);
  }

  lemma FirstDigits(n: nat, b: int, c: int)
    requires 0 <= b < 256 && 0 <= c < 256 && n == 0xee * 65536 + b * 256 + c
    ensures n / 262144 == 59 && n / 4096 % 64 == 32 + b / 16
  {
    assert n / 4096 == 0xee * 16 + b / 16;
  }

  lemma TlsIsNoHex(raw: seq<byte>)
    requires |raw| >= 2 && raw[0] == 0xee
    ensures HexBytes(Base64Text(raw, true)) == None
  {
    TlsLetters(raw);
    assert HexValue(Base64Text(raw, true)[1]) == 16;
  }

  /** Every accepted secret comes back from its link, whether or not the reader truncates. */
  lemma LinkRoundTrip(raw: seq<byte>, truncate: bool, again: bool)
    requires FromBinary(raw, truncate).Ok?
    ensures var s := FromBinary(raw, truncate).secret; Parsed(Encoded(s), again) == Ok(s)
  {
    var s := FromBinary(raw, truncate).secret;
    if s.EmulateTls() {
      TlsIsNoHex(s.raw);
      Base64RoundTrip(s.raw, true);
    } else {
      HexRoundTrip(s.raw);
    }
  }

  lemma ZerosGroup(n: nat)
    requires 1 <= n <= 3
    ensures Group(Zeros(n), true) == seq(n + 1, _ => 'A')
  {
    assert Word(Zeros(n)) == 0;
  }

  lemma {:induction false} ZerosLetters(n: nat)
    ensures Letters(Zeros(n), true) == seq(LetterCount(n), _ => 'A')
  {
    var raw := Zeros(n);
    if n > 3 {
      ZerosLetters(n - 3);
      assert raw[..3] == Zeros(3) && raw[3..] == Zeros(n - 3);
      ZerosGroup(3);
    } else if n > 0 {
      ZerosGroup(n);
    }
  }

  lemma {:induction false} HexOfAs(text: string)
    requires |text| % 2 == 0 && forall i: nat | i < |text| :: text[i] == 'A'
    ensures HexBytes(text).Some? && 2 * |HexBytes(text).value| == |text|
  {
    if text != [] {
      HexOfAs(text[2..]);
    }
  }

  lemma LetterCounts16And17()
    ensures LetterCount(16) == 22 && LetterCount(17) == 23
  {
    assert LetterCount(16) == 4 + LetterCount(13) && LetterCount(13) == 4 + LetterCount(10);
    assert LetterCount(10) == 4 + LetterCount(7) && LetterCount(7) == 4 + LetterCount(4) && LetterCount(4) == 4 + LetterCount(1);
    assert LetterCount(17) == 4 + LetterCount(14) && LetterCount(14) == 4 + LetterCount(11);
    assert LetterCount(11) == 4 + LetterCount(8) && LetterCount(8) == 4 + LetterCount(5) && LetterCount(5) == 4 + LetterCount(2);
  }

  lemma UrlTextLength(raw: seq<byte>)
    ensures |Base64Text(raw, true)| == LetterCount(|raw|)
  {
    TextIsLetters(raw, true);
    LettersLength(raw, true);
  }

  /** Of the accepted secrets, only those of 16 bytes can have a base64 form that reads as hexadecimal. */
  lemma OnlyPlainReadsAsHex(raw: seq<byte>)
    requires FromBinary(raw, false) == Ok(Secret(raw)) && HexBytes(Base64Text(raw, true)).Some?
    ensures |raw| == 16 && |HexBytes(Base64Text(raw, true)).value| == 11
  {
    UrlTextLength(raw);
    HexBytesLength(Base64Text(raw, true));
    LetterCounts16And17();
    if |raw| >= 18 {
      TlsIsNoHex(raw);
    }
  }

  /**
   Base64 would be a safe text form of an accepted secret if and only if the text does not read
   as hexadecimal, which is tried first.
   */
  lemma Base64FormReturns(raw: seq<byte>, truncate: bool)
    requires FromBinary(raw, false) == Ok(Secret(raw))
    ensures Parsed(Base64Text(raw, true), truncate) == Ok(Secret(raw)) <==> HexBytes(Base64Text(raw, true)).None?
  {
    if HexBytes(Base64Text(raw, true)).None? {
      Base64RoundTrip(raw, true);
    } else {
      OnlyPlainReadsAsHex(raw);
    }
  }

  /** Such secrets exist, so plain secrets are written in hexadecimal: the base64 form of 16 zero bytes reads as 11 others. */
  lemma PlainNeedsHex()
    ensures var s := Secret(Zeros(16));
            FromBinary(s.raw, false) == Ok(s) && Parsed(Base64Text(s.raw, true), false) == Wrong
  {
    var text := Base64Text(Zeros(16), true);
    TextIsLetters(Zeros(16), true);
    ZerosLetters(16);
    LetterCounts16And17();
    HexOfAs(text);
  }
}

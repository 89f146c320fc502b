/**
 Hexadecimal (tdutils/td/utils/misc.cpp) and base64 (tdutils/td/utils/base64.cpp) text,
 sections 4, 5 and 8 of RFC 4648. The specifications recurse over the text; the methods are
 the loops of the program.
 */
module TextCodecs {
  import opened Bytes

  // ---------- hexadecimal ----------

  function HexDigit(v: nat): char
    requires v < 16
  {
    if v < 10 then ('0' as int + v) as char else ('a' as int + v - 10) as char
  }

  /** hex_to_int; 16 stands for no digit. */
  function HexValue(c: char): (v: nat)
    ensures v <= 16
  {
    if '0' <= c <= '9' then c as int - '0' as int
    else if 'a' <= c <= 'f' then c as int - 'a' as int + 10
    else if 'A' <= c <= 'F' then c as int - 'A' as int + 10
    else 16
  }

  function HexText(data: seq<byte>): (r: string)
    ensures |r| == 2 * |data|
  {
    if data == [] then [] else [HexDigit(data[0] / 16), HexDigit(data[0] % 16)] + HexText(data[1..])
  }

  function HexBytes(text: string): Option<seq<byte>> {
    if text == [] then Some([])
    else if |text| == 1 then None
    else
      var high, low := HexValue(text[0]), HexValue(text[1]);
      if high == 16 || low == 16 then None
      else
        match HexBytes(text[2..])
        case None => None
        case Some(rest) => Some([high * 16 + low] + rest)
  }

  lemma HexDigitValue(v: nat)
    requires v < 16
    ensures HexValue(HexDigit(v)) == v
  {
  }

  lemma {:induction false} HexRoundTrip(data: seq<byte>)
    ensures HexBytes(HexText(data)) == Some(data)
  {
    if data != [] {
      var text := HexText(data);
      HexDigitValue(data[0] / 16);
      HexDigitValue(data[0] % 16);
      HexRoundTrip(data[1..]);
      assert text[2..] == HexText(data[1..]);
      assert [data[0]] + data[1..] == data;
    }
  }

  method HexEncode(data: seq<byte>) returns (text: string)
    ensures text == HexText(data)
  {
    text := [];
    for i := 0 to |data|
      invariant text + HexText(data[i..]) == HexText(data)
    {
      ghost var rest := data[i..];
      assert HexText(rest) == [HexDigit(data[i] / 16), HexDigit(data[i] % 16)] + HexText(data[i + 1..]);
      text := text + [HexDigit(data[i] / 16), HexDigit(data[i] % 16)];
    }
  }

  /** A text has bytes only when its length is even and its pairs are digits. */
  lemma {:induction false} HexBytesLength(text: string)
    ensures HexBytes(text).Some? ==> |text| == 2 * |HexBytes(text).value|
  {
    if |text| > 1 {
      HexBytesLength(text[2..]);
    }
  }

  /** data is what the part of the text before rest decodes to. */
  ghost predicate HexSoFar(text: string, data: seq<byte>, rest: string) {
    HexBytes(text) == match HexBytes(rest) case None => None case Some(more) => Some(data + more)
  }

  lemma HexStep(text: string, data: seq<byte>, rest: string)
    requires HexSoFar(text, data, rest) && |rest| >= 2
    ensures HexValue(rest[0]) == 16 || HexValue(rest[1]) == 16 ==> HexBytes(text) == None
    ensures HexValue(rest[0]) < 16 && HexValue(rest[1]) < 16 ==>
              HexSoFar(text, data + [HexValue(rest[0]) * 16 + HexValue(rest[1])], rest[2..])
  {
    if HexValue(rest[0]) < 16 && HexValue(rest[1]) < 16 && HexBytes(rest[2..]).Some? {
      var b: byte := HexValue(rest[0]) * 16 + HexValue(rest[1]);
      assert data + ([b] + HexBytes(rest[2..]).value) == data + [b] + HexBytes(rest[2..]).value;
    }
  }

  method HexDecode(text: string) returns (r: Option<seq<byte>>)
    ensures r == HexBytes(text)
  {
    HexBytesLength(text);
    if |text| % 2 != 0 {
      return None;
    }
    var data: seq<byte> := [];
    assert text[0..] == text;
    assert HexBytes(text).Some? ==> [] + HexBytes(text).value == HexBytes(text).value;
    for i := 0 to |text| / 2
      invariant HexSoFar(text, data, text[2 * i..])
    {
      var high, low := HexValue(text[2 * i]), HexValue(text[2 * i + 1]);
      HexStep(text, data, text[2 * i..]);
      if high == 16 || low == 16 {
        return None;
      }
      data := data + [high * 16 + low];
      assert text[2 * i..][2..] == text[2 * (i + 1)..];
    }
    assert text[2 * (|text| / 2)..] == [] && data + [] == data;
    return Some(data);
  }

  // ---------- base64 ----------

  /** The alphabets of sections 4 and 5 of RFC 4648. */
  function Letter(v: nat, url: bool): char
    requires v < 64
  {
    if v < 26 then ('A' as int + v) as char
    else if v < 52 then ('a' as int + v - 26) as char
    else if v < 62 then ('0' as int + v - 52) as char
    else if v == 62 then (if url then '-' else '+')
    else if url then '_' else '/'
  }

  /** The character table; 64 stands for no letter. */
  function LetterValue(c: char, url: bool): (v: nat)
    ensures v <= 64
  {
    if 'A' <= c <= 'Z' then c as int - 'A' as int
    else if 'a' <= c <= 'z' then c as int - 'a' as int + 26
    else if '0' <= c <= '9' then c as int - '0' as int + 52
    else if c == (if url then '-' else '+') then 62
    else if c == (if url then '_' else '/') then 63
    else 64
  }

  lemma LetterRoundTrip(v: nat, url: bool)
    requires v < 64
    ensures LetterValue(Letter(v, url), url) == v && Letter(v, url) != '='
  {
  }

  function Padding(n: nat, url: bool): string {
    if url then [] else seq(n, _ => '=')
  }

  /** One, two or three bytes as a 24-bit number. */
  function Word(data: seq<byte>): (n: nat)
    requires 1 <= |data| <= 3
    ensures n < 0x100_0000
  {
    var a: int, b: int, c: int := data[0], if |data| > 1 then data[1] else 0, if |data| > 2 then data[2] else 0;
    a * 65536 + b * 256 + c
  }

  /** The letters of one group of one, two or three bytes, before padding. */
  function Group(data: seq<byte>, url: bool): (r: string)
    requires 1 <= |data| <= 3
    ensures |r| == |data| + 1
  {
    var n := Word(data);
    [Letter(n / 262144, url), Letter(n / 4096 % 64, url)] +
    (if |data| > 1 then [Letter(n / 64 % 64, url)] else []) + if |data| > 2 then [Letter(n % 64, url)] else []
  }

  function Base64Text(data: seq<byte>, url: bool): string {
    if data == [] then []
    else if |data| <= 3 then Group(data, url) + Padding(3 - |data|, url)
    else Group(data[..3], url) + Base64Text(data[3..], url)
  }

  /** The bytes of a 24-bit number that was given by two, three or four letters; the unused bits must be zero. */
  function Unpack(n: nat, letters: nat): Option<seq<byte>>
    requires n < 0x100_0000
  {
    if letters == 2 then (if n % 65536 != 0 then None else Some([n / 65536]))
    else if letters == 3 then (if n % 256 != 0 then None else Some([n / 65536, n / 256 % 256]))
    else Some([n / 65536, n / 256 % 256, n % 256])
  }

  /** The bytes of one group of two, three or four letters. */
  function GroupBytes(text: string, url: bool): Option<seq<byte>>
    requires 2 <= |text| <= 4
  {
    var v0, v1 := LetterValue(text[0], url), LetterValue(text[1], url);
    var v2 := if |text| > 2 then LetterValue(text[2], url) else 0;
    var v3 := if |text| > 3 then LetterValue(text[3], url) else 0;
    if v0 == 64 || v1 == 64 || v2 == 64 || v3 == 64 then None
    else Unpack(v0 * 262144 + v1 * 4096 + v2 * 64 + v3, |text|)
  }

  /** do_base64_decode_impl on text without padding. */
  function LettersBytes(text: string, url: bool): Option<seq<byte>> {
    if text == [] then Some([])
    else if |text| == 1 then None
    else if |text| <= 4 then GroupBytes(text, url)
    else
      match GroupBytes(text[..4], url)
      case None => None
      case Some(first) =>
        match LettersBytes(text[4..], url)
        case None => None
        case Some(rest) => Some(first + rest)
  }

  /** The text without its trailing padding characters. */
  function Stripped(text: string): (r: string)
    ensures r <= text
  {
    if text != [] && text[|text| - 1] == '=' then Stripped(text[..|text| - 1]) else text
  }

  /** base64_decode_impl. */
  function Base64Bytes(text: string, url: bool): Option<seq<byte>> {
    var letters := Stripped(text);
    var padding := |text| - |letters|;
    if padding >= 3 then None
    else if (!url || padding > 0) && |text| % 4 != 0 then None
    else if url && |letters| % 4 == 1 then None
    else LettersBytes(letters, url)
  }

  /** A 24-bit number is its four base-64 digits. */
  lemma Digits(n: nat)
    requires n < 0x100_0000
    ensures n / 262144 < 64
    ensures n / 262144 * 262144 + n / 4096 % 64 * 4096 + n / 64 % 64 * 64 + n % 64 == n
  {
    var x, y := n / 4096, n / 64;
    assert x / 64 == n / 262144 && y / 64 == x;
    assert n == y * 64 + n % 64;
    assert y == x * 64 + y % 64;
    assert x == x / 64 * 64 + x % 64;
  }

  lemma WordBytes(data: seq<byte>)
    requires 1 <= |data| <= 3
    ensures var n := Word(data);
            && n / 65536 == data[0]
            && (|data| == 1 ==> n % 65536 == 0 && n / 64 % 64 == 0 && n % 64 == 0)
            && (|data| >= 2 ==> n / 256 % 256 == data[1])
            && (|data| == 2 ==> n % 256 == 0 && n % 64 == 0)
            && (|data| == 3 ==> n % 256 == data[2])
  {
    var n := Word(data);
    if |data| >= 2 {
      var x := n / 256;
      var a: int, b: int := data[0], data[1];
      assert x == a * 256 + b;
    }
  }

  lemma GroupRoundTrip(data: seq<byte>, url: bool)
    requires 1 <= |data| <= 3
    ensures GroupBytes(Group(data, url), url) == Some(data)
    ensures forall i: nat | i < |data| + 1 :: Group(data, url)[i] != '='
  {
    var n := Word(data);
    Digits(n);
    WordBytes(data);
    GroupDigits(data, url, n / 262144, n / 4096 % 64, n / 64 % 64, n % 64);
  }

  lemma GroupDigits(data: seq<byte>, url: bool, v0: nat, v1: nat, v2: nat, v3: nat)
    requires 1 <= |data| <= 3 && v0 < 64 && v1 < 64 && v2 < 64 && v3 < 64
    requires v0 * 262144 + v1 * 4096 + v2 * 64 + v3 == Word(data)
    requires |data| < 3 ==> v3 == 0
    requires |data| < 2 ==> v2 == 0
    requires Group(data, url) == [Letter(v0, url), Letter(v1, url)] +
             (if |data| > 1 then [Letter(v2, url)] else []) + if |data| > 2 then [Letter(v3, url)] else []
    ensures GroupBytes(Group(data, url), url) == Some(data)
    ensures forall i: nat | i < |data| + 1 :: Group(data, url)[i] != '='
  {
    LetterRoundTrip(v0, url);
    LetterRoundTrip(v1, url);
    LetterRoundTrip(v2, url);
    LetterRoundTrip(v3, url);
    WordBytes(data);
    assert data == if |data| == 1 then [data[0]] else if |data| == 2 then [data[0], data[1]] else [data[0], data[1], data[2]];
  }

  // The letters of a whole text, without its padding.

  function Letters(data: seq<byte>, url: bool): string {
    if data == [] then [] else if |data| <= 3 then Group(data, url) else Group(data[..3], url) + Letters(data[3..], url)
  }

  /** What is missing to full groups of three. */
  function PadLength(n: nat): nat {
    if n == 0 then 0 else if n <= 3 then 3 - n else PadLength(n - 3)
  }

  lemma {:induction false} TextIsLetters(data: seq<byte>, url: bool)
    ensures Base64Text(data, url) == Letters(data, url) + Padding(PadLength(|data|), url)
  {
    if |data| > 3 {
      TextIsLetters(data[3..], url);
    }
  }

  /** Four letters per full group and one more than the bytes of the last one. */
  function LetterCount(n: nat): nat {
    if n == 0 then 0 else if n <= 3 then n + 1 else 4 + LetterCount(n - 3)
  }

  lemma {:induction false} LettersLength(data: seq<byte>, url: bool)
    ensures |Letters(data, url)| == LetterCount(|data|)
  {
    if |data| > 3 {
      LettersLength(data[3..], url);
    }
  }

  lemma {:induction false} LetterCounts(n: nat)
    ensures LetterCount(n) % 4 != 1 && (LetterCount(n) + PadLength(n)) % 4 == 0 && PadLength(n) <= 2
  {
    if n > 3 {
      LetterCounts(n - 3);
    }
  }

  lemma {:induction false} LettersRoundTrip(data: seq<byte>, url: bool)
    ensures LettersBytes(Letters(data, url), url) == Some(data)
  {
    if 1 <= |data| <= 3 {
      GroupRoundTrip(data, url);
    } else if |data| > 3 {
      GroupRoundTrip(data[..3], url);
      LettersRoundTrip(data[3..], url);
      LettersLength(data[3..], url);
      var text := Letters(data, url);
      assert text[..4] == Group(data[..3], url) && text[4..] == Letters(data[3..], url);
      assert data[..3] + data[3..] == data;
    }
  }

  lemma {:induction false} LettersEnd(data: seq<byte>, url: bool)
    requires data != []
    ensures var text := Letters(data, url); text != [] && text[|text| - 1] != '='
  {
    if |data| <= 3 {
      GroupRoundTrip(data, url);
    } else {
      LettersEnd(data[3..], url);
    }
  }

  lemma {:induction false} StrippedPadding(text: string, n: nat)
    requires text == [] || text[|text| - 1] != '='
    ensures Stripped(text + seq(n, _ => '=')) == text
  {
    var padded := text + seq(n, _ => '=');
    if n == 0 {
      assert padded == text;
    } else {
      StrippedPadding(text, n - 1);
      assert padded[..|padded| - 1] == text + seq(n - 1, _ => '=');
    }
  }

  lemma PaddingAccepted(text: string, letters: string, padding: nat, url: bool)
    requires Stripped(text) == letters && |text| == |letters| + padding && padding <= 2
    requires if url then padding == 0 && |letters| % 4 != 1 else (|letters| + padding) % 4 == 0
    ensures Base64Bytes(text, url) == LettersBytes(letters, url)
  {
  }

  lemma TextStrips(data: seq<byte>, url: bool, n: nat)
    requires n == if url then 0 else PadLength(|data|)
    ensures Stripped(Base64Text(data, url)) == Letters(data, url)
    ensures |Base64Text(data, url)| == |Letters(data, url)| + n
  {
    TextIsLetters(data, url);
    if data != [] {
      LettersEnd(data, url);
    }
    StrippedPadding(Letters(data, url), n);
    assert Padding(PadLength(|data|), url) == seq(n, _ => '=');
  }

  /** Decoding inverts encoding, in both alphabets, with and without padding. */
  lemma Base64RoundTrip(data: seq<byte>, url: bool)
    ensures Base64Bytes(Base64Text(data, url), url) == Some(data)
  {
    var n := if url then 0 else PadLength(|data|);
    var text, letters := Base64Text(data, url), Letters(data, url);
    assert Stripped(text) == letters && |text| == |letters| + n by { TextStrips(data, url, n); }
    LettersLength(data, url);
    LetterCounts(|data|);
    PaddingAccepted(text, letters, n, url);
    LettersRoundTrip(data, url);
  }

  // ---------- the loops ----------

  lemma EarlyDigits(a: nat, b: nat, c: nat)
    requires a < 256 && b < 256 && c < 256
    ensures (a * 65536) / 262144 == (a * 65536 + b * 256 + c) / 262144
    ensures (a * 65536 + b * 256) / 4096 == (a * 65536 + b * 256 + c) / 4096
  {
    var x := a * 256 + b;
    assert (a * 65536) / 262144 == a / 4;
    assert (a * 65536 + b * 256 + c) / 262144 == a / 4;
    assert (x * 256) / 4096 == x / 16;
    assert (x * 256 + c) / 4096 == x / 16;
  }

  /** One round of base64_encode_impl: letters are written as soon as their bits are known. */
  method EncodeGroup(data: seq<byte>, url: bool) returns (text: string)
    requires 1 <= |data| <= 3
    ensures text == Group(data, url) + Padding(3 - |data|, url)
  {
    var left := |data|;
    var first: int := data[0];
    var second: int := if left != 1 then data[1] else 0;
    var third: int := if left == 3 then data[2] else 0;
    EarlyDigits(first, second, third);
    var c := first * 65536;
    text := [Letter(c / 262144, url)];
    if left != 1 {
      c := c + second * 256;
    }
    text := text + [Letter(c / 4096 % 64, url)];
    if left == 3 {
      c := c + third;
    }
    assert c == Word(data);
    if left != 1 {
      text := text + [Letter(c / 64 % 64, url)];
    } else if !url {
      text := text + ['='];
    }
    if left == 3 {
      text := text + [Letter(c % 64, url)];
    } else if !url {
      text := text + ['='];
    }
  }

  method EncodeNext(data: seq<byte>, i: nat, url: bool) returns (text: string, next: nat)
    requires i < |data|
    ensures i < next <= |data|
    ensures Base64Text(data[i..], url) == text + Base64Text(data[next..], url)
  {
    var left := if |data| - i < 3 then |data| - i else 3;
    next := i + left;
    text := EncodeGroup(data[i..next], url);
    ghost var rest := data[i..];
    EncodeStep(rest, left, url);
    assert rest[..left] == data[i..next] && rest[left..] == data[next..];
  }

  method Base64Encode(data: seq<byte>, url: bool) returns (text: string)
    ensures text == Base64Text(data, url)
  {
    text := [];
    var i: nat := 0;
    ghost var whole := Base64Text(data, url);
    ghost var rest := whole;
    assert data[0..] == data;
    while i < |data|
      invariant i <= |data| && rest == Base64Text(data[i..], url)
      invariant text + rest == whole
    {
      var letters, next := EncodeNext(data, i, url);
      rest := Base64Text(data[next..], url);
      Regroup(text, letters, rest);
      text, i := text + letters, next;
    }
    assert data[i..] == [] && text + [] == text;
  }

  lemma Regroup(a: string, b: string, c: string)
    ensures a + (b + c) == a + b + c
  {
  }

  lemma EncodeStep(rest: seq<byte>, left: nat, url: bool)
    requires rest != [] && left == if |rest| < 3 then |rest| else 3
    ensures Base64Text(rest, url) == Group(rest[..left], url) + Padding(3 - left, url) + Base64Text(rest[left..], url)
  {
    if |rest| <= 3 {
      assert rest[..left] == rest && rest[left..] == [];
    } else {
      assert Padding(0, url) == [];
    }
  }

  function Weight(t: nat): nat {
    if t == 0 then 262144 else if t == 1 then 4096 else if t == 2 then 64 else 1
  }

  /** The first t letters, shifted into place. */
  function Partial(text: string, url: bool, t: nat): nat
    requires t <= |text|
  {
    if t == 0 then 0 else Partial(text, url, t - 1) + LetterValue(text[t - 1], url) * Weight(t - 1)
  }

  lemma PartialSum(text: string, url: bool)
    requires 2 <= |text| <= 4
    ensures Partial(text, url, |text|) ==
            LetterValue(text[0], url) * 262144 + LetterValue(text[1], url) * 4096 +
            (if |text| > 2 then LetterValue(text[2], url) else 0) * 64 + if |text| > 3 then LetterValue(text[3], url) else 0
  {
    hide LetterValue;
    var two := Partial(text, url, 2);
    assert two == Partial(text, url, 1) + LetterValue(text[1], url) * 4096;
    if |text| > 2 {
      var three := Partial(text, url, 3);
      assert three == two + LetterValue(text[2], url) * 64;
    }
  }

  lemma PartialIsGroup(text: string, url: bool)
    requires 2 <= |text| <= 4 && forall j: nat | j < |text| :: LetterValue(text[j], url) < 64
    ensures Partial(text, url, |text|) < 0x100_0000
    ensures GroupBytes(text, url) == Unpack(Partial(text, url, |text|), |text|)
  {
    PartialSum(text, url);
  }

  /** One round of do_base64_decode_impl. */
  method DecodeGroup(text: string, url: bool) returns (r: Option<seq<byte>>)
    requires 2 <= |text| <= 4
    ensures r == GroupBytes(text, url)
  {
    var c := 0;
    for t := 0 to |text|
      invariant c == Partial(text, url, t)
      invariant forall j: nat | j < t :: LetterValue(text[j], url) < 64
    {
      var value := LetterValue(text[t], url);
      if value == 64 {
        BadLetter(text, url, t);
        return None;
      }
      c := c + value * Weight(t);
    }
    PartialIsGroup(text, url);
    r := Unpack(c, |text|);
  }

  lemma BadLetter(text: string, url: bool, t: nat)
    requires 2 <= |text| <= 4 && t < |text| && LetterValue(text[t], url) == 64
    ensures GroupBytes(text, url) == None
  {
  }

  /** data is what the letters before rest decode to. */
  ghost predicate LettersSoFar(text: string, url: bool, data: seq<byte>, rest: string) {
    LettersBytes(text, url) == match LettersBytes(rest, url) case None => None case Some(more) => Some(data + more)
  }

  lemma LettersStep(text: string, url: bool, data: seq<byte>, rest: string, left: nat)
    requires LettersSoFar(text, url, data, rest) && |rest| >= 2 && left == if |rest| < 4 then |rest| else 4
    ensures GroupBytes(rest[..left], url) == None ==> LettersBytes(text, url) == None
    ensures GroupBytes(rest[..left], url).Some? ==>
              LettersSoFar(text, url, data + GroupBytes(rest[..left], url).value, rest[left..])
  {
    var group := GroupBytes(rest[..left], url);
    if |rest| <= 4 {
      assert rest[..left] == rest && rest[left..] == [];
      assert group.Some? ==> data + group.value + [] == data + group.value;
    } else if group.Some? && LettersBytes(rest[4..], url).Some? {
      var more := LettersBytes(rest[4..], url).value;
      assert data + (group.value + more) == data + group.value + more;
    }
  }

  method Base64Decode(text: string, url: bool) returns (r: Option<seq<byte>>)
    ensures r == Base64Bytes(text, url)
  {
    var letters, padding: nat := text, 0;
    while letters != [] && letters[|letters| - 1] == '='
      invariant Stripped(letters) == Stripped(text) && |letters| + padding == |text|
      decreases |letters|
    {
      letters := letters[..|letters| - 1];
      padding := padding + 1;
    }
    if padding >= 3 {
      return None;
    }
    if (!url || padding > 0) && (|letters| + padding) % 4 != 0 {
      return None;
    }
    if url && |letters| % 4 == 1 {
      return None;
    }
    r := DecodeLetters(letters, url);
  }

  lemma NotOneLeft(n: nat, k: int)
    requires n % 4 != 1
    ensures n != 4 * k + 1
  {
  }

  /** do_base64_decode_impl. */
  method DecodeLetters(letters: string, url: bool) returns (r: Option<seq<byte>>)
    requires |letters| % 4 != 1
    ensures r == LettersBytes(letters, url)
  {
    var data: seq<byte> := [];
    var i: nat := 0;
    ghost var k := 0;
    assert letters[0..] == letters;
    assert LettersBytes(letters, url).Some? ==> [] + LettersBytes(letters, url).value == LettersBytes(letters, url).value;
    while i < |letters|
      invariant i <= |letters| && (i == 4 * k || i == |letters|)
      invariant LettersSoFar(letters, url, data, letters[i..])
    {
      ghost var rest := letters[i..];
      NotOneLeft(|letters|, k);
      var left := if |letters| - i < 4 then |letters| - i else 4;
      assert rest[..left] == letters[i..i + left] && rest[left..] == letters[i + left..];
      LettersStep(letters, url, data, rest, left);
      var group := DecodeGroup(letters[i..i + left], url);
      if group.None? {
        return None;
      }
      data := data + group.value;
      i, k := i + left, k + 1;
    }
    assert letters[i..] == [] && data + [] == data;
    return Some(data);
  }
}

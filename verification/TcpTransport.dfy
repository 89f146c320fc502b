/**
 The obfuscated TCP transport of td/mtproto/TcpTransport.cpp: length-prefixed frames,
 a stream cipher whose key travels in a 64-byte header, and, for emulated TLS, splitting
 into records (sections 5.1 and 5.2 of RFC 8446). AES-CTR is XOR with a keystream that is
 an arbitrary function of the key material.
 */
module TcpTransport {
  import opened Bytes

  // ---------- the stream cipher ----------

  /** Keystream byte number `pos` for key material (header bytes 8..56; the proxy secret is fixed). */
  type Cipher = (seq<byte>, nat) -> byte

  lemma Pow2At8()
    ensures Pow2(8) == 256
  {
    assert Pow2(4) == 16;
  }

  function XorByte(a: byte, b: byte): byte {
    Pow2At8();
    Xor(8, a, b)
  }

  /** Encryption and decryption of a stretch of the stream that starts at keystream position `off`. */
  function Crypt(c: Cipher, key: seq<byte>, off: nat, data: seq<byte>): (r: seq<byte>)
    ensures |r| == |data|
  {
    seq(|data|, i requires 0 <= i < |data| => XorByte(data[i], c(key, off + i)))
  }

  lemma CryptTwice(c: Cipher, key: seq<byte>, off: nat, data: seq<byte>)
    ensures Crypt(c, key, off, Crypt(c, key, off, data)) == data
  {
    var once := Crypt(c, key, off, data);
    forall i: nat | i < |data|
      ensures Crypt(c, key, off, once)[i] == data[i]
    {
      Pow2At8();
      XorInvolution(8, data[i], c(key, off + i));
    }
  }

  lemma CryptConcat(c: Cipher, key: seq<byte>, off: nat, a: seq<byte>, b: seq<byte>)
    ensures Crypt(c, key, off, a + b) == Crypt(c, key, off, a) + Crypt(c, key, off + |a|, b)
  {
    forall i: nat | i < |a| + |b|
      ensures Crypt(c, key, off, a + b)[i] == (Crypt(c, key, off, a) + Crypt(c, key, off + |a|, b))[i]
    {
      if i >= |a| {
        assert (a + b)[i] == b[i - |a|];
        assert off + |a| + (i - |a|) == off + i;
      }
    }
  }

  // ---------- frames and records ----------

  /** What a reader finds at the front of its buffer. */
  datatype Item =
    | Message(data: seq<byte>)
    | QuickAck(token: nat)
    | Record(kind: byte, payload: seq<byte>)

  /** Frames are read by read_from_stream; records by TlsReaderByteFlow, or by a peer that skips change_cipher_spec. */
  datatype Mode = Framing | Tls(skipChangeCipherSpec: bool)

  datatype Parsed = NeedMore(size: nat) | Got(item: Item, rest: seq<byte>) | Bad

  const APPLICATION_DATA: byte := 0x17
  const CHANGE_CIPHER_SPEC: byte := 0x14
  const QUICK_ACK_BIT: nat := 0x8000_0000

  /** IntermediateTransport::read_from_stream. */
  function ReadFromStream(stream: seq<byte>): Parsed {
    if |stream| < 4 then NeedMore(4)
    else
      var size := FromLe(stream[..4]);
      if size >= QUICK_ACK_BIT then Got(QuickAck(size), stream[4..])
      else if |stream| < size + 4 then NeedMore(size + 4)
      else Got(Message(stream[4..size + 4]), stream[size + 4..])
  }

  /** TlsReaderByteFlow::loop, which takes application data only. */
  function ReadRecord(stream: seq<byte>, skipChangeCipherSpec: bool): Parsed {
    if |stream| < 5 then NeedMore(5)
    else if stream[1] != 3 || stream[2] != 3 then Bad
    else if stream[0] != APPLICATION_DATA && !(skipChangeCipherSpec && stream[0] == CHANGE_CIPHER_SPEC) then Bad
    else
      var high: int, low: int := stream[3], stream[4];
      var len: nat := high * 256 + low;
      if |stream| < 5 + len then NeedMore(5 + len)
      else Got(Record(stream[0], stream[5..5 + len]), stream[5 + len..])
  }

  function ParseOne(mode: Mode, stream: seq<byte>): (p: Parsed)
    ensures p.Got? ==> |p.rest| < |stream|
  {
    match mode
    case Framing => ReadFromStream(stream)
    case Tls(skip) => ReadRecord(stream, skip)
  }

  /** Everything a reader takes from a buffer until it needs more. */
  datatype Drained = Drained(items: seq<Item>, rest: seq<byte>, bad: bool)

  function Drain(mode: Mode, stream: seq<byte>): Drained
    decreases |stream|
  {
    var p := ParseOne(mode, stream);
    match p
    case NeedMore(_) => Drained([], stream, false)
    case Bad => Drained([], stream, true)
    case Got(item, rest) => var d := Drain(mode, rest); Drained([item] + d.items, d.rest, d.bad)
  }

  /** More bytes behind a complete item do not change it. */
  lemma ParseStable(mode: Mode, a: seq<byte>, b: seq<byte>)
    ensures ParseOne(mode, a).Got? ==>
              ParseOne(mode, a + b) == Got(ParseOne(mode, a).item, ParseOne(mode, a).rest + b)
    ensures ParseOne(mode, a).Bad? ==> ParseOne(mode, a + b).Bad?
  {
    if |a| >= 4 {
      assert (a + b)[..4] == a[..4];
    }
    var p := ParseOne(mode, a);
    if p.Got? {
      var n := |a| - |p.rest|;
      assert a == a[..n] + p.rest;
      assert (a + b)[..n] == a[..n] && (a + b)[n..] == p.rest + b;
      if p.item.Message? {
        assert (a + b)[4..n] == a[4..n];
      } else if p.item.Record? {
        assert (a + b)[5..n] == a[5..n];
      }
    }
  }

  lemma DrainCons(mode: Mode, stream: seq<byte>, item: Item, rest: seq<byte>, d: Drained)
    requires ParseOne(mode, stream) == Got(item, rest) && Drain(mode, rest) == d
    ensures Drain(mode, stream) == Drained([item] + d.items, d.rest, d.bad)
  {
  }

  /** Draining a buffer, then the leftover with new bytes, is draining everything at once. */
  lemma DrainWaits(mode: Mode, stream: seq<byte>)
    requires !ParseOne(mode, stream).Got?
    ensures Drain(mode, stream) == Drained([], stream, ParseOne(mode, stream).Bad?)
  {
  }

  lemma {:induction false} DrainSplit(mode: Mode, a: seq<byte>, b: seq<byte>)
    requires !Drain(mode, a).bad
    ensures var first := Drain(mode, a);
            var more := Drain(mode, first.rest + b);
            Drain(mode, a + b) == Drained(first.items + more.items, more.rest, more.bad)
    decreases |a|
  {
    hide ParseOne, Drain;
    var p := ParseOne(mode, a);
    if p.Got? {
      var first := Drain(mode, p.rest);
      var more := Drain(mode, first.rest + b);
      DrainCons(mode, a, p.item, p.rest, first);
      DrainSplit(mode, p.rest, b);
      ParseStable(mode, a, b);
      DrainCons(mode, a + b, p.item, p.rest + b, Drained(first.items + more.items, more.rest, more.bad));
      assert ([p.item] + first.items) + more.items == [p.item] + (first.items + more.items);
    } else {
      DrainWaits(mode, a);
      assert [] + Drain(mode, a + b).items == Drain(mode, a + b).items;
    }
  }

  // ---------- what is written ----------

  /** One call of write: the message, the random padding and the quick acknowledgement request. */
  datatype Written = Written(data: seq<byte>, pad: seq<byte>, quickAck: bool)

  /** The CHECKs of write_prepare_inplace, and at most 15 bytes of padding, if any. */
  predicate Writable(w: Written, withPadding: bool) {
    |w.data| % 4 == 0 && |w.data| < 0x100_0000 && |w.pad| < 16 && (withPadding || w.pad == [])
  }

  predicate AllWritable(log: seq<Written>, withPadding: bool) {
    forall w | w in log :: Writable(w, withPadding)
  }

  /** IntermediateTransport::write_prepare_inplace. */
  function Frame(w: Written): (r: seq<byte>)
    ensures |r| == 4 + |w.data| + |w.pad|
  {
    Le(4, |w.data| + (if w.quickAck then QUICK_ACK_BIT else 0) + |w.pad|) + w.data + w.pad
  }

  function Frames(log: seq<Written>): seq<byte> {
    if log == [] then [] else Frames(log[..|log| - 1]) + Frame(log[|log| - 1])
  }

  /** What the receiver should get: every message followed by its padding. */
  function Messages(log: seq<Written>): seq<Item> {
    if log == [] then []
    else Messages(log[..|log| - 1]) + [Message(log[|log| - 1].data + log[|log| - 1].pad)]
  }

  lemma FrameReads(w: Written)
    requires Writable(w, true) && !w.quickAck
    ensures Drain(Framing, Frame(w)) == Drained([Message(w.data + w.pad)], [], false)
  {
    var n := |w.data| + |w.pad|;
    var f := Frame(w);
    assert n < Pow256(4) by { Pow256Values(); }
    LeRoundTrip(4, n);
    assert f == Le(4, n) + (w.data + w.pad);
    assert f[..4] == Le(4, n) && f[4..n + 4] == w.data + w.pad && f[n + 4..] == [];
    assert ParseOne(Framing, f) == Got(Message(w.data + w.pad), []);
    assert Drain(Framing, []) == Drained([], [], false);
  }

  /** Frames written one after the other are read back one after the other. */
  lemma {:induction false} FramesRead(log: seq<Written>)
    requires forall w | w in log :: Writable(w, true) && !w.quickAck
    ensures Drain(Framing, Frames(log)) == Drained(Messages(log), [], false)
  {
    if log == [] {
      assert Drain(Framing, []) == Drained([], [], false);
    } else {
      var n := |log| - 1;
      assert log[n] in log;
      FramesRead(log[..n]);
      DrainSplit(Framing, Frames(log[..n]), Frame(log[n]));
      assert [] + Frame(log[n]) == Frame(log[n]);
      FrameReads(log[n]);
    }
  }

  function RecordBytes(payload: seq<byte>): seq<byte>
    requires |payload| < 0x10000
  {
    [APPLICATION_DATA, 3, 3, |payload| / 256, |payload| % 256] + payload
  }

  const CHANGE_CIPHER_SPEC_RECORD: seq<byte> := [0x14, 3, 3, 0, 1, 1]

  lemma RecordReads(payload: seq<byte>, skip: bool)
    requires |payload| < 0x10000
    ensures Drain(Tls(skip), RecordBytes(payload)) == Drained([Record(APPLICATION_DATA, payload)], [], false)
  {
    var r := RecordBytes(payload);
    assert r[5..5 + |payload|] == payload && r[5 + |payload|..] == [];
    assert ParseOne(Tls(skip), r) == Got(Record(APPLICATION_DATA, payload), []);
    assert Drain(Tls(skip), []) == Drained([], [], false);
  }

  lemma ChangeCipherSpecReads()
    ensures Drain(Tls(true), CHANGE_CIPHER_SPEC_RECORD) == Drained([Record(CHANGE_CIPHER_SPEC, [1])], [], false)
  {
    var r := CHANGE_CIPHER_SPEC_RECORD;
    assert r[5..6] == [1] && r[6..] == [];
    assert ParseOne(Tls(true), r) == Got(Record(CHANGE_CIPHER_SPEC, [1]), []);
    assert Drain(Tls(true), []) == Drained([], [], false);
  }

  function Carried(item: Item): seq<byte> {
    if item.Record? && item.kind == APPLICATION_DATA then item.payload else []
  }

  /** The application data carried by records. */
  function AppData(items: seq<Item>): seq<byte> {
    if items == [] then [] else AppData(items[..|items| - 1]) + Carried(items[|items| - 1])
  }

  predicate RecordsWithin(items: seq<Item>, max: nat) {
    forall r | r in items :: r.Record? && |r.payload| <= max
  }

  /** One change_cipher_spec record, and only application data behind it. */
  predicate Disguised(items: seq<Item>) {
    && items != [] && items[0] == Record(CHANGE_CIPHER_SPEC, [1])
    && forall i: nat | 0 < i < |items| :: items[i].Record? && items[i].kind == APPLICATION_DATA
  }

  /** `stream` is a disguised run of whole records of at most `max` bytes that carry exactly `bytes`. */
  predicate Carries(stream: seq<byte>, max: nat, bytes: seq<byte>) {
    var d := Drain(Tls(true), stream);
    && d.rest == [] && !d.bad && RecordsWithin(d.items, max) && AppData(d.items) == bytes
    && CHANGE_CIPHER_SPEC_RECORD <= stream && Disguised(d.items)
  }

  lemma AppDataLast(items: seq<Item>, payload: seq<byte>)
    ensures AppData(items + [Record(APPLICATION_DATA, payload)]) == AppData(items) + payload
  {
    assert (items + [Record(APPLICATION_DATA, payload)])[..|items|] == items;
  }

  lemma RecordsMore(items: seq<Item>, max: nat, payload: seq<byte>)
    requires RecordsWithin(items, max) && Disguised(items) && |payload| <= max
    ensures var more := items + [Record(APPLICATION_DATA, payload)];
            RecordsWithin(more, max) && Disguised(more) && AppData(more) == AppData(items) + payload
  {
    AppDataLast(items, payload);
  }

  /** A record behind whole records. */
  lemma CarriesMore(stream: seq<byte>, max: nat, bytes: seq<byte>, payload: seq<byte>)
    requires Carries(stream, max, bytes) && |payload| <= max < 0x10000
    ensures Carries(stream + RecordBytes(payload), max, bytes + payload)
  {
    hide Drain, RecordBytes, RecordsWithin, Disguised, AppData;
    var items := Drain(Tls(true), stream).items;
    DrainSplit(Tls(true), stream, RecordBytes(payload));
    assert [] + RecordBytes(payload) == RecordBytes(payload);
    RecordReads(payload, true);
    RecordsMore(items, max, payload);
  }

  lemma CarriesNothing(max: nat)
    requires max > 0
    ensures Carries(CHANGE_CIPHER_SPEC_RECORD, max, [])
  {
    ChangeCipherSpecReads();
    assert AppData([Record(CHANGE_CIPHER_SPEC, [1])]) == AppData([]) + [];
  }

  // ---------- the header ----------

  const FORBIDDEN: set<nat> :=
    {0x44414548, 0x54534f50, 0x20544547, 0x4954504f, 0xdddddddd, 0xeeeeeeee, 0x02010316}

  /** Random bytes that cannot be mistaken for another protocol. */
  predicate Acceptable(h: seq<byte>, tls: bool)
    requires |h| == 64
  {
    tls || (h[0] != 0xef && FromLe(h[..4]) !in FORBIDDEN && FromLe(h[4..8]) != 0)
  }

  function Magic(withPadding: bool): seq<byte> {
    if withPadding then [0xdd, 0xdd, 0xdd, 0xdd] else [0xee, 0xee, 0xee, 0xee]
  }

  /** The protocol magic and the data centre are written over the random bytes. */
  function FillHeader(h: seq<byte>, withPadding: bool, dcId: nat): (r: seq<byte>)
    requires |h| == 64
    ensures |r| == 64
  {
    h[..56] + Magic(withPadding) + (if dcId != 0 then Le(2, dcId) else h[60..62]) + h[62..]
  }

  function KeyOf(header: seq<byte>): seq<byte>
    requires |header| == 64
  {
    header[8..56]
  }

  /** On the wire the first 56 bytes are plain and the last 8 encrypted. */
  function WireHeader(c: Cipher, h: seq<byte>): (r: seq<byte>)
    requires |h| == 64
    ensures |r| == 64
  {
    h[..56] + Crypt(c, KeyOf(h), 0, h)[56..]
  }

  /** A peer derives the same key from the wire and decrypts the magic and the data centre. */
  lemma HeaderReads(c: Cipher, h: seq<byte>)
    requires |h| == 64
    ensures KeyOf(WireHeader(c, h)) == KeyOf(h)
    ensures Crypt(c, KeyOf(h), 0, WireHeader(c, h))[56..] == h[56..]
  {
    var key := KeyOf(h);
    var wire := WireHeader(c, h);
    var enc := Crypt(c, key, 0, h);
    CryptTwice(c, key, 0, h);
    CryptConcat(c, key, 0, h[..56], enc[56..]);
    assert enc == enc[..56] + enc[56..];
    CryptConcat(c, key, 0, enc[..56], enc[56..]);
    assert h == h[..56] + h[56..];
  }
}

/**
 A peer of ObfuscatedTransport that receives the bytes of a connection in chunks of any
 size: it strips TLS records, takes the key from the header, decrypts and cuts frames.
 */
module TransportPeer {
  import opened Bytes
  import opened TcpTransport
  import opened ObfuscatedTransport

  /**
   raw: bytes of an incomplete record. header: the first up to 64 payload bytes.
   position: payload bytes decrypted so far. buffer: plain bytes of an incomplete frame.
   */
  datatype Peer = Peer(raw: seq<byte>, bad: bool, header: seq<byte>, position: nat, buffer: seq<byte>, items: seq<Item>)

  const FRESH := Peer([], false, [], 0, [], [])

  function Min(a: nat, b: nat): nat { if a < b then a else b }

  function NewHeader(header: seq<byte>, data: seq<byte>): (r: seq<byte>)
    requires |header| <= 64
    ensures |r| == Min(64, |header| + |data|)
  {
    header + data[..Min(64 - |header|, |data|)]
  }

  /** What becomes readable when payload arrives: nothing until the header is complete. */
  function NewPlain(c: Cipher, header: seq<byte>, position: nat, data: seq<byte>): seq<byte>
    requires |header| <= 64
  {
    if |NewHeader(header, data)| < 64 then []
    else Crypt(c, KeyOf(NewHeader(header, data)), 64 + position, data[64 - |header|..])
  }

  function FeedPayload(c: Cipher, p: Peer, data: seq<byte>): Peer
    requires |p.header| <= 64
  {
    var header := NewHeader(p.header, data);
    var d := Drain(Framing, p.buffer + NewPlain(c, p.header, p.position, data));
    p.(header := header, position := p.position + |data| + |p.header| - |header|,
       buffer := d.rest, items := p.items + d.items)
  }

  function FeedChunk(c: Cipher, tls: bool, p: Peer, chunk: seq<byte>): Peer
    requires |p.header| <= 64
  {
    if tls then
      var d := Drain(Tls(true), p.raw + chunk);
      FeedPayload(c, p.(raw := d.rest, bad := p.bad || d.bad), AppData(d.items))
    else FeedPayload(c, p, chunk)
  }

  function Receive(c: Cipher, tls: bool, chunks: seq<seq<byte>>): (p: Peer)
    ensures |p.header| <= 64
  {
    if chunks == [] then FRESH
    else FeedChunk(c, tls, Receive(c, tls, chunks[..|chunks| - 1]), chunks[|chunks| - 1])
  }

  function Concat(chunks: seq<seq<byte>>): seq<byte> {
    if chunks == [] then [] else Concat(chunks[..|chunks| - 1]) + chunks[|chunks| - 1]
  }

  // ---------- the same, all at once ----------

  /** The frames in a payload stream, decrypted with the key in its own header. */
  function Plain(c: Cipher, received: seq<byte>): seq<byte> {
    if |received| < 64 then [] else Crypt(c, KeyOf(received[..64]), 64, received[64..])
  }

  /** The peer has seen exactly the payload `received`. */
  predicate Tracks(c: Cipher, p: Peer, received: seq<byte>) {
    && p.header == received[..Min(64, |received|)] && p.position == |received| - |p.header|
    && Drain(Framing, Plain(c, received)) == Drained(p.items, p.buffer, false)
  }

  lemma {:induction false} FramingNeverBad(stream: seq<byte>)
    ensures !Drain(Framing, stream).bad
    decreases |stream|
  {
    var p := ParseOne(Framing, stream);
    if p.Got? {
      FramingNeverBad(p.rest);
    }
  }

  lemma HeaderGrows(received: seq<byte>, data: seq<byte>)
    ensures (received + data)[..Min(64, |received + data|)] == NewHeader(received[..Min(64, |received|)], data)
  {
  }

  /** More payload behind a complete header extends the plain stream by what the peer decrypts at its position. */
  lemma PlainContinues(c: Cipher, received: seq<byte>, data: seq<byte>)
    requires |received| >= 64
    ensures Plain(c, received + data) == Plain(c, received) + NewPlain(c, received[..64], |received| - 64, data)
  {
    var total, header := received + data, received[..64];
    assert total[..64] == header && total[64..] == received[64..] + data;
    assert NewHeader(header, data) == header && data[0..] == data;
    CryptConcat(c, KeyOf(header), 64, received[64..], data);
  }

  lemma PlainStarts(c: Cipher, received: seq<byte>, data: seq<byte>)
    requires |received| < 64
    ensures Plain(c, received + data) == NewPlain(c, received, 0, data)
  {
    if |received| + |data| >= 64 {
      HeaderGrows(received, data);
      assert received[..|received|] == received;
      assert (received + data)[64..] == data[64 - |received|..];
    }
  }

  lemma PlainGrows(c: Cipher, received: seq<byte>, data: seq<byte>)
    ensures var n := Min(64, |received|);
            Plain(c, received + data) == Plain(c, received) + NewPlain(c, received[..n], |received| - n, data)
  {
    if |received| >= 64 {
      PlainContinues(c, received, data);
    } else {
      PlainStarts(c, received, data);
      assert received[..|received|] == received;
    }
  }

  lemma FrameBufferTracks(before: seq<byte>, plain: seq<byte>, items: seq<Item>, buffer: seq<byte>)
    requires Drain(Framing, before) == Drained(items, buffer, false)
    ensures var d := Drain(Framing, buffer + plain);
            Drain(Framing, before + plain) == Drained(items + d.items, d.rest, false)
  {
    DrainSplit(Framing, before, plain);
    FramingNeverBad(buffer + plain);
  }

  lemma PayloadTracks(c: Cipher, p: Peer, received: seq<byte>, data: seq<byte>)
    requires |p.header| <= 64 && Tracks(c, p, received)
    ensures Tracks(c, FeedPayload(c, p, data), received + data)
  {
    hide Plain, NewPlain, Drain, NewHeader;
    HeaderGrows(received, data);
    PlainGrows(c, received, data);
    FrameBufferTracks(Plain(c, received), NewPlain(c, p.header, p.position, data), p.items, p.buffer);
  }

  /** Bytes behind a malformed record cannot repair it. */
  lemma {:induction false} BadStays(mode: Mode, a: seq<byte>, b: seq<byte>)
    requires Drain(mode, a).bad
    ensures Drain(mode, a + b).bad
    decreases |a|
  {
    ParseStable(mode, a, b);
    var p := ParseOne(mode, a);
    if p.Got? {
      BadStays(mode, p.rest, b);
    }
  }

  lemma {:induction false} AppDataConcat(a: seq<Item>, b: seq<Item>)
    ensures AppData(a + b) == AppData(a) + AppData(b)
    decreases |b|
  {
    if b == [] {
      assert a + b == a;
    } else {
      hide Carried;
      var n := |b| - 1;
      AppDataConcat(a, b[..n]);
      var total := a + b;
      assert total[..|total| - 1] == a + b[..n] && total[|total| - 1] == b[n];
      assert AppData(total) == AppData(a + b[..n]) + Carried(b[n]);
      assert AppData(b) == AppData(b[..n]) + Carried(b[n]);
    }
  }

  /** The payload that a complete or incomplete stream carries. */
  function PayloadOf(tls: bool, stream: seq<byte>): seq<byte> {
    if tls then AppData(Drain(Tls(true), stream).items) else stream
  }

  lemma ChunkTracks(c: Cipher, tls: bool, p: Peer, stream: seq<byte>, chunk: seq<byte>)
    requires |p.header| <= 64 && Tracks(c, p, PayloadOf(tls, stream)) && !p.bad
    requires tls ==> !Drain(Tls(true), stream + chunk).bad && p.raw == Drain(Tls(true), stream).rest
    ensures var p' := FeedChunk(c, tls, p, chunk);
            && Tracks(c, p', PayloadOf(tls, stream + chunk)) && !p'.bad
            && (tls ==> p'.raw == Drain(Tls(true), stream + chunk).rest)
  {
    if tls {
      if Drain(Tls(true), stream).bad {
        BadStays(Tls(true), stream, chunk);
      }
      DrainSplit(Tls(true), stream, chunk);
      var d := Drain(Tls(true), p.raw + chunk);
      AppDataConcat(Drain(Tls(true), stream).items, d.items);
      PayloadTracks(c, p.(raw := d.rest, bad := p.bad || d.bad), PayloadOf(tls, stream), AppData(d.items));
    } else {
      PayloadTracks(c, p, stream, chunk);
    }
  }

  /** However the stream is cut into chunks, the peer ends where it would with the whole stream at once. */
  lemma {:induction false} ChunksDoNotMatter(c: Cipher, tls: bool, chunks: seq<seq<byte>>)
    requires tls ==> !Drain(Tls(true), Concat(chunks)).bad
    ensures var p := Receive(c, tls, chunks);
            && Tracks(c, p, PayloadOf(tls, Concat(chunks))) && !p.bad
            && (tls ==> p.raw == Drain(Tls(true), Concat(chunks)).rest)
  {
    if chunks == [] {
      assert Drain(Tls(true), []) == Drained([], [], false);
      assert Drain(Framing, []) == Drained([], [], false);
    } else {
      var n := |chunks| - 1;
      if tls && Drain(Tls(true), Concat(chunks[..n])).bad {
        BadStays(Tls(true), Concat(chunks[..n]), chunks[n]);
      }
      ChunksDoNotMatter(c, tls, chunks[..n]);
      ChunkTracks(c, tls, Receive(c, tls, chunks[..n]), Concat(chunks[..n]), chunks[n]);
    }
  }

  lemma PlainOfWire(c: Cipher, plainHeader: seq<byte>, log: seq<Written>)
    requires |plainHeader| == 64
    ensures Plain(c, Wire(c, plainHeader, log)) == Frames(log)
  {
    var wire := Wire(c, plainHeader, log);
    HeaderReads(c, plainHeader);
    assert wire[..64] == WireHeader(c, plainHeader);
    assert wire[64..] == Crypt(c, KeyOf(plainHeader), 64, Frames(log));
    CryptTwice(c, KeyOf(plainHeader), 64, Frames(log));
  }

  lemma FramesArrive(c: Cipher, plainHeader: seq<byte>, log: seq<Written>, p: Peer)
    requires |plainHeader| == 64 && Tracks(c, p, Wire(c, plainHeader, log))
    requires forall w | w in log :: Writable(w, true) && !w.quickAck
    ensures p.items == Messages(log) && p.buffer == []
    ensures p.header == WireHeader(c, plainHeader)
  {
    PlainOfWire(c, plainHeader, log);
    FramesRead(log);
    assert Wire(c, plainHeader, log)[..64] == WireHeader(c, plainHeader);
  }

  /**
   For every sequence of writes without quick acknowledgement, delivered in arbitrary chunks,
   the peer gets exactly the messages in order, each followed by at most 15 bytes of padding,
   and nothing is left over. The header tells it the padding mode and the data centre.
   */
  lemma Delivered(s: Sender, chunks: seq<seq<byte>>)
    requires s.Valid() && s.header == [] && Concat(chunks) == s.output
    requires forall w | w in s.log :: !w.quickAck
    ensures var p := Receive(s.cipher, s.tls, chunks);
            && p.items == Messages(s.log) && p.buffer == [] && !p.bad && (s.tls ==> p.raw == [])
            && |p.header| == 64
            && Crypt(s.cipher, KeyOf(p.header), 0, p.header)[56..] == s.plainHeader[56..]
    ensures forall w | w in s.log :: |w.pad| <= 15
    ensures s.tls ==>
              && CHANGE_CIPHER_SPEC_RECORD <= s.output && Disguised(Drain(Tls(true), s.output).items)
              && RecordsWithin(Drain(Tls(true), s.output).items, s.maxRecord)
  {
    var p := Receive(s.cipher, s.tls, chunks);
    ChunksDoNotMatter(s.cipher, s.tls, chunks);
    assert PayloadOf(s.tls, s.output) == Wire(s.cipher, s.plainHeader, s.log);
    forall w | w in s.log
      ensures Writable(w, true)
    {
      assert Writable(w, s.withPadding);
    }
    FramesArrive(s.cipher, s.plainHeader, s.log, p);
    HeaderReads(s.cipher, s.plainHeader);
  }
}

/**
 ObfuscatedTransport of td/mtproto/TcpTransport.cpp as a sender, and a peer that receives
 its bytes in arbitrary chunks.
 */
module ObfuscatedTransport {
  import opened Bytes
  import opened TcpTransport

  /** The state of the TLS output: nothing yet, or whole records that carry `soFar`. */
  predicate TlsState(isFirst: bool, output: seq<byte>, max: nat, soFar: seq<byte>) {
    if isFirst then output == [] && soFar == [] else Carries(output, max, soFar)
  }

  /** The first acceptable random header among the first nine. */
  method PickHeader(tries: seq<seq<byte>>, tls: bool) returns (i: nat)
    requires |tries| >= 9 && forall j: nat | j < 9 :: |tries[j]| == 64
    ensures i <= 9 && (i < 9 ==> Acceptable(tries[i], tls))
    ensures forall j: nat | j < i :: !Acceptable(tries[j], tls)
  {
    i := 0;
    while i < 9 && !Acceptable(tries[i], tls)
      invariant i <= 9
      invariant forall j: nat | j < i :: !Acceptable(tries[j], tls)
    {
      i := i + 1;
    }
  }

  lemma FilledMagic(h: seq<byte>, withPadding: bool, dcId: nat)
    requires |h| == 64
    ensures FillHeader(h, withPadding, dcId)[56..60] == Magic(withPadding)
  {
  }

  class Sender {
    const cipher: Cipher
    /** From the proxy secret: emulate_tls, use_random_padding; dc_id as an unsigned 16-bit number. */
    const tls: bool
    const withPadding: bool
    const dcId: nat
    const maxRecord: nat

    var header: seq<byte>       // header_
    var isFirstTlsPacket: bool  // is_first_tls_packet_
    var key: seq<byte>          // key material of output_state_
    var position: nat           // keystream position of output_state_
    var output: seq<byte>       // everything appended to output_

    ghost var plainHeader: seq<byte>
    ghost var log: seq<Written>
    ghost var sent: seq<byte>

    ghost predicate Configured() {
      64 < maxRecord < 0x10000 && dcId < 0x10000
    }

    ghost predicate Valid()
      reads this
    {
      && Configured() && Sealed(cipher, withPadding, plainHeader, log, key, position, header, sent)
      && (header != [] ==> output == [] && isFirstTlsPacket)
      && (header == [] ==> PutOut(sent))
    }

    /** `bytes` is exactly what has been put out, as it stands or as the data of whole, small enough, disguised records. */
    ghost predicate PutOut(bytes: seq<byte>)
      reads this
    {
      if tls then !isFirstTlsPacket && Carries(output, maxRecord, bytes) else output == bytes
    }

    constructor (cipher: Cipher, tls: bool, withPadding: bool, dcId: nat, maxRecord: nat)
      requires 64 < maxRecord < 0x10000 && dcId < 0x10000
      ensures this.cipher == cipher && this.tls == tls && this.withPadding == withPadding
      ensures this.dcId == dcId && this.maxRecord == maxRecord && output == [] && isFirstTlsPacket
    {
      this.cipher, this.tls, this.withPadding := cipher, tls, withPadding;
      this.dcId, this.maxRecord := dcId, maxRecord;
      header, isFirstTlsPacket, key, position, output := [], true, [], 0, [];
      plainHeader, log, sent := [], [], [];
    }

    /** init: `tries` are the successive random headers; the tenth try aborts. */
    method Init(tries: seq<seq<byte>>) returns (ok: bool)
      requires Configured() && output == [] && isFirstTlsPacket
      requires |tries| >= 9 && forall j: nat | j < 9 :: |tries[j]| == 64
      modifies this
      ensures ok <==> exists i: nat :: i < 9 && Acceptable(tries[i], tls)
      ensures ok ==> Valid() && log == [] && header != []
      ensures ok ==> exists i: nat :: i < 9 && Acceptable(tries[i], tls) && plainHeader == FillHeader(tries[i], withPadding, dcId)
    {
      var i := PickHeader(tries, tls);
      if i == 9 {
        return false;
      }
      var h := FillHeader(tries[i], withPadding, dcId);
      FilledMagic(tries[i], withPadding, dcId);
      plainHeader, log, sent := h, [], [];
      key, position := KeyOf(h), 64;
      header := WireHeader(cipher, h);
      return true;
    }

    /** do_write_main: the header goes out in front of the first message. */
    method DoWriteMain(message: seq<byte>)
      modifies this`header, this`output
      ensures header == [] && output == old(output) + old(header) + message
    {
      if header != [] {
        output := output + (header + message);
        header := [];
      } else {
        output := output + message;
      }
    }

    /** do_write_tls for one record: header, record head and, once, the change_cipher_spec record. */
    method DoWriteRecord(payload: seq<byte>, ghost soFar: seq<byte>)
      requires Configured() && |payload| + |header| <= maxRecord
      requires TlsState(isFirstTlsPacket, output, maxRecord, soFar)
      modifies this`header, this`output, this`isFirstTlsPacket
      ensures header == [] && !isFirstTlsPacket && Carries(output, maxRecord, soFar + (old(header) + payload))
    {
      var body := header + payload;
      header := [];
      var size := |body|;
      var bytes := [APPLICATION_DATA, 3, 3, size / 256, size % 256] + body;
      if isFirstTlsPacket {
        isFirstTlsPacket := false;
        CarriesNothing(maxRecord);
        CarriesMore(CHANGE_CIPHER_SPEC_RECORD, maxRecord, [], body);
        bytes := CHANGE_CIPHER_SPEC_RECORD + bytes;
        assert output + bytes == bytes;
      } else {
        CarriesMore(output, maxRecord, soFar, body);
      }
      output := output + bytes;
    }

    /** do_write_tls: a message that does not fit one record is cut into the largest possible pieces. */
    method DoWriteTls(message: seq<byte>, ghost soFar: seq<byte>)
      requires Configured() && message != [] && |header| <= 64
      requires TlsState(isFirstTlsPacket, output, maxRecord, soFar)
      modifies this`header, this`output, this`isFirstTlsPacket
      ensures header == [] && !isFirstTlsPacket && Carries(output, maxRecord, soFar + (old(header) + message))
    {
      if |message| + |header| > maxRecord {
        var slice := message;
        ghost var done := soFar;
        while slice != []
          invariant TlsState(isFirstTlsPacket, output, maxRecord, done) && |header| <= 64
          invariant slice == [] ==> header == [] && !isFirstTlsPacket
          invariant done + (header + slice) == soFar + (old(header) + message)
          decreases |slice|
        {
          var room := maxRecord - |header|;
          var n := if |slice| < room then |slice| else room;
          Regroup(done, header, slice, n);
          ghost var next := done + (header + slice[..n]);
          DoWriteRecord(slice[..n], done);
          done := next;
          slice := slice[n..];
        }
        assert done + ([] + []) == done;
        return;
      }
      DoWriteRecord(message, soFar);
    }

    /** The two ways out of write, for a message that is already encrypted. */
    method PutMessage(message: seq<byte>, ghost soFar: seq<byte>)
      requires Configured() && message != [] && |header| <= 64
      requires if tls then TlsState(isFirstTlsPacket, output, maxRecord, soFar) else output == soFar
      modifies this`header, this`output, this`isFirstTlsPacket
      ensures header == [] && PutOut(soFar + (old(header) + message))
    {
      if tls {
        DoWriteTls(message, soFar);
      } else {
        DoWriteMain(message);
      }
    }

    /** write: frame, encrypt, and put out; `pad` is the random padding. */
    method Write(data: seq<byte>, pad: seq<byte>, quickAck: bool)
      requires Valid() && Writable(Written(data, pad, quickAck), withPadding)
      modifies this`header, this`output, this`isFirstTlsPacket, this`position, this`log, this`sent
      ensures Valid() && log == old(log) + [Written(data, pad, quickAck)] && header == []
    {
      var w := Written(data, pad, quickAck);
      var frame := Frame(w);
      var message := Crypt(cipher, key, position, frame);
      SealedGrows(cipher, withPadding, plainHeader, log, key, position, header, sent, w);
      ghost var next := sent + (header + message);
      PutMessage(message, sent);
      position := position + |frame|;
      log := log + [w];
      sent := next;
    }
  }

  /**
   The cipher state fits what has been sent: the header waits in front of an empty log, or
   everything that belongs on the wire has been sent.
   */
  predicate Sealed(c: Cipher, withPadding: bool, plainHeader: seq<byte>, log: seq<Written>, key: seq<byte>, position: nat,
                   header: seq<byte>, sent: seq<byte>)
  {
    && |plainHeader| == 64 && plainHeader[56..60] == Magic(withPadding) && AllWritable(log, withPadding)
    && key == KeyOf(plainHeader) && position == 64 + |Frames(log)|
    && if header != [] then header == WireHeader(c, plainHeader) && log == [] && sent == []
       else sent == Wire(c, plainHeader, log)
  }

  lemma Regroup(done: seq<byte>, header: seq<byte>, slice: seq<byte>, n: nat)
    requires n <= |slice|
    ensures done + (header + slice) == (done + (header + slice[..n])) + ([] + slice[n..])
  {
  }

  /** What a peer must see once TLS records are stripped. */
  function Wire(c: Cipher, plainHeader: seq<byte>, log: seq<Written>): seq<byte>
    requires |plainHeader| == 64
  {
    WireHeader(c, plainHeader) + Crypt(c, KeyOf(plainHeader), 64, Frames(log))
  }

  lemma FramesGrow(log: seq<Written>, w: Written)
    ensures Frames(log + [w]) == Frames(log) + Frame(w)
  {
    assert (log + [w])[..|log|] == log;
  }

  lemma WireGrows(c: Cipher, plainHeader: seq<byte>, log: seq<Written>, w: Written)
    requires |plainHeader| == 64
    ensures Wire(c, plainHeader, log + [w])
         == Wire(c, plainHeader, log) + Crypt(c, KeyOf(plainHeader), 64 + |Frames(log)|, Frame(w))
  {
    FramesGrow(log, w);
    CryptConcat(c, KeyOf(plainHeader), 64, Frames(log), Frame(w));
  }

  lemma WireEmpty(c: Cipher, plainHeader: seq<byte>)
    requires |plainHeader| == 64
    ensures Wire(c, plainHeader, []) == WireHeader(c, plainHeader)
  {
    assert Crypt(c, KeyOf(plainHeader), 64, []) == [];
  }

  lemma Appended(sent: seq<byte>, header: seq<byte>, message: seq<byte>, total: seq<byte>)
    requires sent == [] || header == []
    requires total == (if header != [] then header else sent) + message
    ensures sent + (header + message) == total
  {
  }

  /** One more frame is encrypted where the keystream stands, behind a header that still waits. */
  lemma SealedGrows(c: Cipher, withPadding: bool, plainHeader: seq<byte>, log: seq<Written>, key: seq<byte>,
                    position: nat, header: seq<byte>, sent: seq<byte>, w: Written)
    requires Sealed(c, withPadding, plainHeader, log, key, position, header, sent) && Writable(w, withPadding)
    ensures |header| <= 64
    ensures Sealed(c, withPadding, plainHeader, log + [w], key, position + |Frame(w)|, [],
                   sent + (header + Crypt(c, key, position, Frame(w))))
  {
    FramesGrow(log, w);
    WireGrows(c, plainHeader, log, w);
    WireEmpty(c, plainHeader);
    Appended(sent, header, Crypt(c, key, position, Frame(w)), Wire(c, plainHeader, log + [w]));
  }
}

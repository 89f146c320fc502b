/**
 How one encrypted packet is laid out (td/mtproto/CryptoStorer.h, td/mtproto/PacketStorer.h):
 the queries and the service messages of a flush become one bare message or one container.
 Storers run twice, once to count bytes and once to write them. The reader is the one of
 td/mtproto/SessionConnection.cpp. 64-bit numbers are unsigned words.
 */
module CryptoStorer {
  import opened Bytes
  import opened TlCompiler
  import AuthData
  import TlRoundTrip

  // ---------- storers ----------

  /** Bytes as they are, a TL string, two storers in a row, or a storer behind its 32-bit size. */
  datatype Storer = Raw(bytes: seq<byte>) | Str(bytes: seq<byte>) | Cat(first: Storer, second: Storer) | Counted(body: Storer)

  /** The counting pass (TlStorerCalcLength). */
  function Size(s: Storer): nat {
    match s
    case Raw(bytes) => |bytes|
    case Str(bytes) =>
      var n := |bytes|;
      (n + (if n < 254 then 1 else if n < 0x100_0000 then 4 else 8) + 3) / 4 * 4
    case Cat(a, b) => Size(a) + Size(b)
    case Counted(body) => 4 + Size(body)
  }

  /** The writing pass (TlStorerUnsafe). */
  function Write(s: Storer): seq<byte> {
    match s
    case Raw(bytes) => bytes
    case Str(bytes) => StoreStr(bytes)
    case Cat(a, b) => Write(a) + Write(b)
    case Counted(body) => Le(4, Size(body)) + Write(body)
  }

  lemma StrSize(bytes: seq<byte>)
    ensures |StoreStr(bytes)| == Size(Str(bytes))
  {
    var n := |bytes|;
    TlRoundTrip.Pad4Aligned(n + 1);
    TlRoundTrip.Pad4Aligned(n);
    assert (n + 4 + 3) / 4 * 4 == 4 + (n + 3) / 4 * 4;
    assert (n + 8 + 3) / 4 * 4 == 8 + (n + 3) / 4 * 4;
  }

  /** The counting pass announces exactly the bytes the writing pass produces. */
  lemma {:induction false} SizeIsWritten(s: Storer)
    ensures |Write(s)| == Size(s)
  {
    match s
    case Raw(bytes) =>
    case Str(bytes) => StrSize(bytes);
    case Cat(a, b) =>
      SizeIsWritten(a);
      SizeIsWritten(b);
    case Counted(body) =>
      SizeIsWritten(body);
  }

  /** PacketStorer and TLObjectStorer remember the size once counted. */
  class CachedStorer {
    const storer: Storer
    var size: nat
    const UNKNOWN: nat := 0xffff_ffff_ffff_ffff

    predicate Valid()
      reads this
    {
      size == UNKNOWN || size == Size(storer)
    }

    constructor (s: Storer)
      ensures Valid() && storer == s
    {
      storer := s;
      size := UNKNOWN;
    }

    method GetSize() returns (n: nat)
      requires Valid()
      modifies this
      ensures Valid() && n == |Write(storer)|
    {
      SizeIsWritten(storer);
      if size != UNKNOWN {
        return size;
      }
      size := Size(storer);
      return size;
    }
  }

  // ---------- service messages ----------

  datatype Service =
    | Ack(ids: seq<nat>)
    | HttpWait(maxDelay: int32, waitAfter: int32, maxWait: int32)
    | FutureSalts(num: int32)
    | StateRequest(ids: seq<nat>)
    | Resend(ids: seq<nat>)
    | Cancel(id: nat)
    | DestroyKey
    | Ping(id: nat, delay: int32)

  const VECTOR_ID := 0x1cb5c415
  const CONTAINER_ID := 0x73f1f8dc

  function Int(x: int32): (r: seq<byte>)
    ensures |r| == 4
  {
    Le(4, Unsigned32(x))
  }

  function Longs(ids: seq<nat>): (r: seq<byte>)
    ensures |r| == 8 * |ids|
  {
    if ids == [] then [] else Le(8, ids[0]) + Longs(ids[1..])
  }

  function LongVector(ids: seq<nat>): (r: seq<byte>)
    ensures |r| == 8 + 8 * |ids|
  {
    Le(4, VECTOR_ID) + Le(4, |ids|) + Longs(ids)
  }

  function ServiceId(s: Service): (id: nat)
    ensures id < 0x1_0000_0000
  {
    match s
    case Ack(_) => 0x62d6b459
    case HttpWait(_, _, _) => 0x9299359f
    case FutureSalts(_) => 0xb921bd04
    case StateRequest(_) => 0xda69fb52
    case Resend(_) => 0x7d861a08
    case Cancel(_) => 0x58e4a740
    case DestroyKey => 0xd1435160
    case Ping(_, _) => 0xf3427b8c
  }

  function Arguments(s: Service): seq<byte> {
    match s
    case Ack(ids) => LongVector(ids)
    case HttpWait(delay, after, wait) => Int(delay) + Int(after) + Int(wait)
    case FutureSalts(num) => Int(num)
    case StateRequest(ids) => LongVector(ids)
    case Resend(ids) => LongVector(ids)
    case Cancel(id) => Le(8, id)
    case DestroyKey => []
    case Ping(id, delay) => Le(8, id) + Int(delay)
  }

  function ServiceBytes(s: Service): seq<byte> {
    Le(4, ServiceId(s)) + Arguments(s)
  }

  /** The number of 32-bit words after the constructor. */
  function ArgumentWords(s: Service): nat {
    match s
    case Ack(ids) => 2 + 2 * |ids|
    case HttpWait(_, _, _) => 3
    case FutureSalts(_) => 1
    case StateRequest(ids) => 2 + 2 * |ids|
    case Resend(ids) => 2 + 2 * |ids|
    case Cancel(_) => 2
    case DestroyKey => 0
    case Ping(_, _) => 3
  }

  lemma ServiceWords(s: Service)
    ensures |ServiceBytes(s)| == 4 * (1 + ArgumentWords(s))
  {
    match s
    case HttpWait(delay, after, wait) => assert |Int(delay) + Int(after) + Int(wait)| == 12;
    case Ping(id, delay) => assert |Le(8, id) + Int(delay)| == 12;
    case _ =>
  }

  function ReadLongs(n: nat, data: seq<byte>): Option<seq<nat>> {
    if n == 0 then (if data == [] then Some([]) else None)
    else if |data| < 8 then None
    else
      match ReadLongs(n - 1, data[8..])
      case None => None
      case Some(rest) => Some([FromLe(data[..8])] + rest)
  }

  function ReadLongVector(data: seq<byte>): Option<seq<nat>> {
    if |data| < 8 || FromLe(data[..4]) != VECTOR_ID then None
    else ReadLongs(FromLe(data[4..8]), data[8..])
  }

  function ReadInt(data: seq<byte>): int32
    requires |data| == 4
  {
    FromLeBound(data);
    Pow256Values();
    Signed32(FromLe(data))
  }

  /** What the other side makes of a service message. */
  function ReadService(data: seq<byte>): Option<Service> {
    if |data| < 4 then None else ReadArguments(FromLe(data[..4]), data[4..])
  }

  function ReadArguments(id: nat, rest: seq<byte>): Option<Service> {
    if id == 0x62d6b459 then
      match ReadLongVector(rest) case None => None case Some(ids) => Some(Ack(ids))
    else if id == 0xda69fb52 then
      match ReadLongVector(rest) case None => None case Some(ids) => Some(StateRequest(ids))
    else if id == 0x7d861a08 then
      match ReadLongVector(rest) case None => None case Some(ids) => Some(Resend(ids))
    else if id == 0x9299359f && |rest| == 12 then
      Some(HttpWait(ReadInt(rest[..4]), ReadInt(rest[4..8]), ReadInt(rest[8..])))
    else if id == 0xb921bd04 && |rest| == 4 then Some(FutureSalts(ReadInt(rest)))
    else if id == 0x58e4a740 && |rest| == 8 then Some(Cancel(FromLe(rest)))
    else if id == 0xd1435160 && rest == [] then Some(DestroyKey)
    else if id == 0xf3427b8c && |rest| == 12 then Some(Ping(FromLe(rest[..8]), ReadInt(rest[8..])))
    else None
  }

  predicate LongsFit(ids: seq<nat>) {
    |ids| < 0x8000_0000 && forall i: nat | i < |ids| :: ids[i] < AuthData.TWO_64
  }

  predicate ServiceFits(s: Service) {
    match s
    case Ack(ids) => LongsFit(ids)
    case StateRequest(ids) => LongsFit(ids)
    case Resend(ids) => LongsFit(ids)
    case Cancel(id) => id < AuthData.TWO_64
    case Ping(id, _) => id < AuthData.TWO_64
    case _ => true
  }

  lemma Word4(x: nat, tail: seq<byte>)
    requires x < 0x1_0000_0000
    ensures (Le(4, x) + tail)[..4] == Le(4, x) && (Le(4, x) + tail)[4..] == tail
    ensures FromLe(Le(4, x)) == x && |Le(4, x) + tail| == 4 + |tail|
  {
    Pow256Values();
    LeRoundTrip(4, x);
  }

  lemma Word8(x: nat, tail: seq<byte>)
    requires x < AuthData.TWO_64
    ensures (Le(8, x) + tail)[..8] == Le(8, x) && (Le(8, x) + tail)[8..] == tail
    ensures FromLe(Le(8, x)) == x && |Le(8, x) + tail| == 8 + |tail|
  {
    Pow256Values();
    LeRoundTrip(8, x);
  }

  lemma IntRoundTrip(x: int32)
    ensures |Int(x)| == 4 && ReadInt(Int(x)) == x
  {
    Word4(Unsigned32(x), []);
  }

  lemma {:induction false} LongsRoundTrip(ids: seq<nat>)
    requires forall i: nat | i < |ids| :: ids[i] < AuthData.TWO_64
    ensures ReadLongs(|ids|, Longs(ids)) == Some(ids)
  {
    if ids != [] {
      var rest := ids[1..];
      LongsRoundTrip(rest);
      Word8(ids[0], Longs(rest));
      assert [ids[0]] + rest == ids;
    }
  }

  lemma VectorSlices(a: seq<byte>, b: seq<byte>, rest: seq<byte>)
    requires |a| == |b| == 4
    ensures var data := a + b + rest; data[..4] == a && data[4..8] == b && data[8..] == rest
  {
  }

  lemma LongVectorRoundTrip(ids: seq<nat>)
    requires LongsFit(ids)
    ensures ReadLongVector(LongVector(ids)) == Some(ids)
  {
    Word4(VECTOR_ID, []);
    Word4(|ids|, []);
    VectorSlices(Le(4, VECTOR_ID), Le(4, |ids|), Longs(ids));
    LongsRoundTrip(ids);
  }

  lemma ArgumentsRoundTrip(s: Service)
    requires ServiceFits(s)
    ensures ReadArguments(ServiceId(s), Arguments(s)) == Some(s)
  {
    match s
    case Ack(ids) => LongVectorRoundTrip(ids);
    case StateRequest(ids) => LongVectorRoundTrip(ids);
    case Resend(ids) => LongVectorRoundTrip(ids);
    case HttpWait(delay, after, wait) =>
      var rest := Arguments(s);
      IntRoundTrip(delay);
      IntRoundTrip(after);
      IntRoundTrip(wait);
      assert rest[..4] == Int(delay) && rest[4..8] == Int(after) && rest[8..] == Int(wait);
    case FutureSalts(num) => IntRoundTrip(num);
    case Cancel(id) => Word8(id, []);
    case DestroyKey =>
    case Ping(id, delay) =>
      Word8(id, Int(delay));
      IntRoundTrip(delay);
  }

  lemma ServiceRoundTrip(s: Service)
    requires ServiceFits(s)
    ensures ReadService(ServiceBytes(s)) == Some(s)
  {
    Word4(ServiceId(s), Arguments(s));
    ArgumentsRoundTrip(s);
  }
}

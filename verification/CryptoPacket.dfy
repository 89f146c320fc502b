/**
 CryptoImpl of td/mtproto/CryptoStorer.h: which messages one packet carries, in which order
 they take their identifiers from the session and how they are written, against the reader of
 td/mtproto/SessionConnection.cpp.
 */
module CryptoPacket {
  import opened Bytes
  import opened TlCompiler
  import opened TlRoundTrip
  import opened CryptoStorer
  import AuthData

  datatype Query = Query(id: nat, seqNo: int32, packet: seq<byte>, gzip: bool, after: seq<nat>)

  /** A message before it is written and after it is read. */
  datatype Stored = Stored(id: nat, seqNo: int32, content: Storer)
  datatype Message = Message(id: nat, seqNo: int32, body: seq<byte>)

  // ---------- queries ----------

  const INVOKE_AFTER_ONE := 0xcb9f372d
  const INVOKE_AFTER_MANY := 0x3dc4b4f0
  const GZIP_PACKED := 0x3072cfa1

  function AfterTag(n: nat): nat {
    if n == 1 then INVOKE_AFTER_ONE else INVOKE_AFTER_MANY
  }

  function InvokeAfter(after: seq<nat>): seq<byte> {
    if |after| == 0 then []
    else Le(4, AfterTag(|after|)) + if |after| == 1 then Le(8, after[0]) else LongVector(after)
  }

  function Payload(q: Query): Storer {
    if q.gzip then Cat(Raw(Le(4, GZIP_PACKED)), Str(q.packet)) else Raw(q.packet)
  }

  function QueryContent(q: Query, header: seq<byte>): Storer {
    Cat(Raw(header), Cat(Raw(InvokeAfter(q.after)), Payload(q)))
  }

  function ReadInvokeAfter(data: seq<byte>): Option<(seq<nat>, seq<byte>)> {
    if |data| < 12 then None
    else if FromLe(data[..4]) == INVOKE_AFTER_ONE then Some(([FromLe(data[4..12])], data[12..]))
    else if FromLe(data[..4]) == INVOKE_AFTER_MANY && FromLe(data[4..8]) == VECTOR_ID then
      var n := FromLe(data[8..12]);
      if |data| < 12 + 8 * n then None
      else
        match ReadLongs(n, data[12..12 + 8 * n])
        case None => None
        case Some(after) => Some((after, data[12 + 8 * n..]))
    else None
  }

  lemma OneSlices(tag: nat, id: nat, tail: seq<byte>)
    requires tag < 0x1_0000_0000 && id < AuthData.TWO_64
    ensures var data := Le(4, tag) + Le(8, id) + tail;
            |data| >= 12 && FromLe(data[..4]) == tag && FromLe(data[4..12]) == id && data[12..] == tail
  {
    var data := Le(4, tag) + Le(8, id) + tail;
    Word4(tag, Le(8, id) + tail);
    Word8(id, tail);
    assert data == Le(4, tag) + (Le(8, id) + tail);
    assert data[4..12] == data[4..][..8] && data[12..] == data[4..][8..];
  }

  lemma ManySlices(tag: nat, vector: nat, ids: seq<nat>, tail: seq<byte>)
    requires tag < 0x1_0000_0000 && vector < 0x1_0000_0000 && |ids| < 0x1_0000_0000
    ensures var n := |ids|;
            var data := Le(4, tag) + (Le(4, vector) + Le(4, n) + Longs(ids)) + tail;
            && |data| >= 12 + 8 * n && FromLe(data[..4]) == tag && FromLe(data[4..8]) == vector
            && FromLe(data[8..12]) == n && data[12..12 + 8 * n] == Longs(ids) && data[12 + 8 * n..] == tail
  {
    var n := |ids|;
    var data := Le(4, tag) + (Le(4, vector) + Le(4, n) + Longs(ids)) + tail;
    Word4(tag, []);
    Word4(vector, []);
    Word4(n, []);
    WordSlices(Le(4, tag), Le(4, vector), Le(4, n), Longs(ids), tail);
  }

  lemma WordSlices(a: seq<byte>, b: seq<byte>, c: seq<byte>, d: seq<byte>, tail: seq<byte>)
    requires |a| == |b| == |c| == 4
    ensures var data := a + (b + c + d) + tail;
            data[..4] == a && data[4..8] == b && data[8..12] == c && data[12..12 + |d|] == d && data[12 + |d|..] == tail
  {
    var data := a + (b + c + d) + tail;
    assert data == a + (b + (c + (d + tail)));
    assert data[4..] == b + (c + (d + tail));
    assert data[8..] == c + (d + tail);
    assert data[12..] == d + tail;
  }

  /** The wrapper of a dependent query names its predecessors and ends exactly where the query starts. */
  lemma InvokeAfterRoundTrip(after: seq<nat>, tail: seq<byte>)
    requires after != [] && LongsFit(after)
    ensures ReadInvokeAfter(InvokeAfter(after) + tail) == Some((after, tail))
  {
    var tag := AfterTag(|after|);
    if |after| == 1 {
      OneSlices(tag, after[0], tail);
      assert after == [after[0]];
    } else {
      ManySlices(tag, VECTOR_ID, after, tail);
      LongsRoundTrip(after);
    }
  }

  lemma PayloadRead(q: Query)
    requires |q.packet| < 0x8000_0000
    ensures !q.gzip ==> Write(Payload(q)) == q.packet
    ensures q.gzip ==> FetchNat(4, Write(Payload(q))) == Fetched(GZIP_PACKED, StoreStr(q.packet)) &&
                       FetchStr(StoreStr(q.packet)) == Fetched(q.packet, [])
  {
    if q.gzip {
      Word4(GZIP_PACKED, StoreStr(q.packet));
      StrRoundTrip(q.packet, []);
      assert StoreStr(q.packet) + [] == StoreStr(q.packet);
    }
  }

  /** The other side undoes the header and the dependencies in turn; PayloadRead undoes the compression wrapper. */
  lemma QueryContentRead(q: Query, header: seq<byte>)
    requires LongsFit(q.after)
    ensures var data := Write(QueryContent(q, header));
            && header <= data
            && var rest := data[|header|..];
            && (q.after != [] ==> ReadInvokeAfter(rest) == Some((q.after, Write(Payload(q)))))
            && (q.after == [] ==> rest == Write(Payload(q)))
  {
    var payload := Payload(q);
    var rest := InvokeAfter(q.after) + Write(payload);
    var data := Write(QueryContent(q, header));
    var inner := Cat(Raw(InvokeAfter(q.after)), payload);
    assert Write(inner) == rest;
    assert data == Write(Raw(header)) + Write(inner);
    assert data[|header|..] == rest;
    if q.after != [] {
      InvokeAfterRoundTrip(q.after, Write(payload));
    } else {
      assert rest == Write(payload);
    }
  }

  // ---------- messages ----------

  function MessageStorer(m: Stored): Storer {
    Cat(Raw(Le(8, m.id) + Int(m.seqNo)), Counted(m.content))
  }

  predicate Fits(m: Stored) {
    m.id < AuthData.TWO_64 && Size(m.content) < 0x1_0000_0000
  }

  function Read(m: Stored): Message {
    Message(m.id, m.seqNo, Write(m.content))
  }

  /** parse_message: identifier, sequence number, size, body; sizes are whole words. */
  function ParseMessage(data: seq<byte>): Option<(Message, seq<byte>)> {
    if |data| < 16 then None
    else
      var n := FromLe(data[12..16]);
      if n % 4 != 0 || |data| - 16 < n then None
      else Some((Message(FromLe(data[..8]), ReadInt(data[8..12]), data[16..16 + n]), data[16 + n..]))
  }

  lemma MessageBytes(m: Stored)
    ensures Write(MessageStorer(m)) == Le(8, m.id) + Int(m.seqNo) + (Le(4, Size(m.content)) + Write(m.content))
  {
    var head, tail := Raw(Le(8, m.id) + Int(m.seqNo)), Counted(m.content);
    assert Write(Cat(head, tail)) == Write(head) + Write(tail);
  }

  /** A written message is read back with its exact length if its size is whole words and refused if not. */
  lemma MessageRoundTrip(m: Stored, tail: seq<byte>)
    requires Fits(m)
    ensures ParseMessage(Write(MessageStorer(m)) + tail) ==
            if Size(m.content) % 4 == 0 then Some((Read(m), tail)) else None
  {
    var body := Write(m.content);
    var n := Size(m.content);
    SizeIsWritten(m.content);
    MessageBytes(m);
    var data := Le(8, m.id) + Int(m.seqNo) + (Le(4, n) + body) + tail;
    Word8(m.id, []);
    IntRoundTrip(m.seqNo);
    Word4(n, []);
    assert data[..8] == Le(8, m.id) && data[8..12] == Int(m.seqNo) && data[12..16] == Le(4, n);
    assert data[16..16 + n] == body && data[16 + n..] == tail;
  }

  function WriteAll(ms: seq<Stored>): seq<byte> {
    if ms == [] then [] else Write(MessageStorer(ms[0])) + WriteAll(ms[1..])
  }

  /** The loop of on_packet_container. */
  function ParseMany(n: nat, data: seq<byte>): Option<(seq<Message>, seq<byte>)> {
    if n == 0 then Some(([], data))
    else
      match ParseMessage(data)
      case None => None
      case Some((m, rest)) =>
        match ParseMany(n - 1, rest)
        case None => None
        case Some((ms, end)) => Some(([m] + ms, end))
  }

  function ReadAll(ms: seq<Stored>): (r: seq<Message>)
    ensures |r| == |ms| && forall i: nat | i < |ms| :: r[i] == Read(ms[i])
  {
    seq(|ms|, i requires 0 <= i < |ms| => Read(ms[i]))
  }

  predicate AllFit(ms: seq<Stored>) {
    forall i: nat | i < |ms| :: Fits(ms[i])
  }

  predicate AllWhole(ms: seq<Stored>) {
    forall i: nat | i < |ms| :: Size(ms[i].content) % 4 == 0
  }

  lemma {:induction false} ManyRoundTrip(ms: seq<Stored>, tail: seq<byte>)
    requires AllFit(ms)
    ensures ParseMany(|ms|, WriteAll(ms) + tail) == if AllWhole(ms) then Some((ReadAll(ms), tail)) else None
  {
    hide ParseMessage, Write, MessageStorer, Fits, Read, Size;
    if ms == [] {
      assert WriteAll(ms) + tail == tail;
    } else {
      var rest := ms[1..];
      assert WriteAll(ms) + tail == Write(MessageStorer(ms[0])) + (WriteAll(rest) + tail);
      MessageRoundTrip(ms[0], WriteAll(rest) + tail);
      ManyRoundTrip(rest, tail);
      assert ReadAll(ms) == [Read(ms[0])] + ReadAll(rest);
      assert AllWhole(ms) <==> Size(ms[0].content) % 4 == 0 && AllWhole(rest) by {
        assert forall i: nat | 0 < i < |ms| :: ms[i] == rest[i - 1];
        assert forall i: nat | i < |rest| :: rest[i] == ms[i + 1];
      }
    }
  }

  lemma Associates<T>(a: seq<T>, b: seq<T>, c: seq<T>)
    ensures a + (b + c) == (a + b) + c
  {
  }

  lemma {:induction false} WriteAllConcat(a: seq<Stored>, b: seq<Stored>)
    ensures WriteAll(a + b) == WriteAll(a) + WriteAll(b)
  {
    if a == [] {
      assert a + b == b;
    } else {
      WriteAllConcat(a[1..], b);
      assert (a + b)[0] == a[0] && (a + b)[1..] == a[1..] + b;
      Associates(Write(MessageStorer(a[0])), WriteAll(a[1..]), WriteAll(b));
    }
  }

  /** on_packet_container, with the constructor still in place; a negative count reads nothing. */
  function ParseContainer(body: seq<byte>): Option<(seq<Message>, seq<byte>)> {
    if |body| < 8 || FromLe(body[..4]) != CONTAINER_ID then None
    else
      var n := ReadInt(body[4..8]);
      ParseMany(if n < 0 then 0 else n, body[8..])
  }

  // ---------- the packet ----------

  datatype Kind = OnlyQuery | OnlyAck | OnlyPing | OnlyHttpWait | OnlyFutureSalts | OnlyResend | OnlyCancel
                | OnlyGetInfo | OnlyDestroyKey | Mixed

  datatype Parts = Parts(queries: seq<Query>, header: seq<byte>,
                         ack: Option<Stored>, httpWait: Option<Stored>, futureSalts: Option<Stored>,
                         getInfo: Option<Stored>, resend: Option<Stored>, cancels: seq<Stored>,
                         destroyKey: Option<Stored>, ping: Option<Stored>)

  datatype Packet = Packet(parts: Parts, kind: Kind, id: nat, seqNo: int32)

  function QueryMessage(q: Query, header: seq<byte>): Stored {
    Stored(q.id, q.seqNo, QueryContent(q, header))
  }

  function QueryMessages(qs: seq<Query>, header: seq<byte>): (r: seq<Stored>)
    ensures |r| == |qs|
    ensures forall i: nat | i < |qs| :: r[i] == QueryMessage(qs[i], header)
  {
    seq(|qs|, i requires 0 <= i < |qs| => QueryMessage(qs[i], header))
  }

  function Opt(m: Option<Stored>): seq<Stored> {
    if m.Some? then [m.value] else []
  }

  function Services(p: Parts): seq<Stored> {
    Opt(p.ack) + Opt(p.httpWait) + Opt(p.futureSalts) + Opt(p.getInfo) + Opt(p.resend) + p.cancels +
    Opt(p.destroyKey) + Opt(p.ping)
  }

  /** Everything the packet carries, in wire order. */
  function Members(p: Parts): seq<Stored> {
    QueryMessages(p.queries, p.header) + Opt(p.ack) + Opt(p.httpWait) + Opt(p.futureSalts) + Opt(p.getInfo) +
    Opt(p.resend) + p.cancels + Opt(p.destroyKey) + Opt(p.ping)
  }

  lemma MembersSplit(p: Parts)
    ensures Members(p) == QueryMessages(p.queries, p.header) + Services(p)
    ensures |Members(p)| == Count(p)
  {
    var q := QueryMessages(p.queries, p.header);
    var s := Opt(p.ack);
    Associates(q, s, Opt(p.httpWait));
    s := s + Opt(p.httpWait);
    Associates(q, s, Opt(p.futureSalts));
    s := s + Opt(p.futureSalts);
    Associates(q, s, Opt(p.getInfo));
    s := s + Opt(p.getInfo);
    Associates(q, s, Opt(p.resend));
    s := s + Opt(p.resend);
    Associates(q, s, p.cancels);
    s := s + p.cancels;
    Associates(q, s, Opt(p.destroyKey));
    s := s + Opt(p.destroyKey);
    Associates(q, s, Opt(p.ping));
  }

  function Count(p: Parts): nat {
    |p.queries| + |Opt(p.ack)| + |Opt(p.ping)| + |Opt(p.httpWait)| + |Opt(p.futureSalts)| + |Opt(p.getInfo)| +
    |Opt(p.resend)| + |p.cancels| + |Opt(p.destroyKey)|
  }

  // One storer per part, and the chain of ConcatStorers.

  function OptStorer(m: Option<Stored>): Storer {
    if m.Some? then MessageStorer(m.value) else Raw([])
  }

  function ListStorer(ms: seq<Stored>): Storer {
    if ms == [] then Raw([]) else Cat(MessageStorer(ms[0]), ListStorer(ms[1..]))
  }

  function QueryStorer(p: Parts): Storer {
    ListStorer(QueryMessages(p.queries, p.header))
  }

  function ConcatStorer(p: Parts): Storer {
    var tmp := Cat(QueryStorer(p), OptStorer(p.ack));
    var tmp2 := Cat(tmp, OptStorer(p.httpWait));
    var tmp3 := Cat(tmp2, OptStorer(p.futureSalts));
    var tmp4 := Cat(tmp3, OptStorer(p.getInfo));
    var tmp5 := Cat(tmp4, OptStorer(p.resend));
    var tmp6 := Cat(tmp5, ListStorer(p.cancels));
    var tmp7 := Cat(tmp6, OptStorer(p.destroyKey));
    Cat(tmp7, OptStorer(p.ping))
  }

  function ContainerStorer(p: Parts): Storer {
    Cat(Raw(Le(4, CONTAINER_ID) + Le(4, Count(p))), ConcatStorer(p))
  }

  /** do_store. */
  function PacketStorer(c: Packet): Storer {
    match c.kind
    case OnlyAck => OptStorer(c.parts.ack)
    case OnlyQuery => QueryStorer(c.parts)
    case OnlyPing => OptStorer(c.parts.ping)
    case OnlyHttpWait => OptStorer(c.parts.httpWait)
    case OnlyFutureSalts => OptStorer(c.parts.futureSalts)
    case OnlyResend => OptStorer(c.parts.resend)
    case OnlyCancel => ListStorer(c.parts.cancels)
    case OnlyGetInfo => OptStorer(c.parts.getInfo)
    case OnlyDestroyKey => OptStorer(c.parts.destroyKey)
    case Mixed => MessageStorer(Stored(c.id, c.seqNo, ContainerStorer(c.parts)))
  }

  lemma {:induction false} ListStorerWrites(ms: seq<Stored>)
    ensures Write(ListStorer(ms)) == WriteAll(ms)
  {
    if ms != [] {
      ListStorerWrites(ms[1..]);
    }
  }

  lemma OptStorerWrites(m: Option<Stored>)
    ensures Write(OptStorer(m)) == WriteAll(Opt(m))
  {
    if m.Some? {
      assert Opt(m)[1..] == [];
      assert WriteAll(Opt(m)) == Write(MessageStorer(m.value)) + WriteAll([]);
    }
  }

  /** Appending one more part to what a storer writes. */
  lemma CatWrites(a: Storer, ms: seq<Stored>, b: Storer, more: seq<Stored>)
    requires Write(a) == WriteAll(ms) && Write(b) == WriteAll(more)
    ensures Write(Cat(a, b)) == WriteAll(ms + more)
  {
    WriteAllConcat(ms, more);
  }

  /** The chain of storers writes the members in wire order. */
  lemma ConcatWrites(p: Parts)
    ensures Write(ConcatStorer(p)) == WriteAll(Members(p))
  {
    var m0 := QueryMessages(p.queries, p.header);
    ListStorerWrites(m0);
    ListStorerWrites(p.cancels);
    OptStorerWrites(p.ack);
    OptStorerWrites(p.httpWait);
    OptStorerWrites(p.futureSalts);
    OptStorerWrites(p.getInfo);
    OptStorerWrites(p.resend);
    OptStorerWrites(p.destroyKey);
    OptStorerWrites(p.ping);
    var tmp, m1 := Cat(QueryStorer(p), OptStorer(p.ack)), m0 + Opt(p.ack);
    CatWrites(QueryStorer(p), m0, OptStorer(p.ack), Opt(p.ack));
    var tmp2, m2 := Cat(tmp, OptStorer(p.httpWait)), m1 + Opt(p.httpWait);
    CatWrites(tmp, m1, OptStorer(p.httpWait), Opt(p.httpWait));
    var tmp3, m3 := Cat(tmp2, OptStorer(p.futureSalts)), m2 + Opt(p.futureSalts);
    CatWrites(tmp2, m2, OptStorer(p.futureSalts), Opt(p.futureSalts));
    var tmp4, m4 := Cat(tmp3, OptStorer(p.getInfo)), m3 + Opt(p.getInfo);
    CatWrites(tmp3, m3, OptStorer(p.getInfo), Opt(p.getInfo));
    var tmp5, m5 := Cat(tmp4, OptStorer(p.resend)), m4 + Opt(p.resend);
    CatWrites(tmp4, m4, OptStorer(p.resend), Opt(p.resend));
    var tmp6, m6 := Cat(tmp5, ListStorer(p.cancels)), m5 + p.cancels;
    CatWrites(tmp5, m5, ListStorer(p.cancels), p.cancels);
    var tmp7, m7 := Cat(tmp6, OptStorer(p.destroyKey)), m6 + Opt(p.destroyKey);
    CatWrites(tmp6, m6, OptStorer(p.destroyKey), Opt(p.destroyKey));
    CatWrites(tmp7, m7, OptStorer(p.ping), Opt(p.ping));
  }

  // ---------- reading a packet back ----------

  /** What the constructor guarantees about the kind it chose. */
  predicate KindFits(c: Packet) {
    var p := c.parts;
    && Count(p) > 0
    && (c.kind != Mixed ==> Count(p) == 1)
    && (c.kind == OnlyQuery ==> p.queries != []) && (c.kind == OnlyAck ==> p.ack.Some?)
    && (c.kind == OnlyPing ==> p.ping.Some?) && (c.kind == OnlyHttpWait ==> p.httpWait.Some?)
    && (c.kind == OnlyFutureSalts ==> p.futureSalts.Some?) && (c.kind == OnlyGetInfo ==> p.getInfo.Some?)
    && (c.kind == OnlyResend ==> p.resend.Some?) && (c.kind == OnlyCancel ==> p.cancels != [])
    && (c.kind == OnlyDestroyKey ==> p.destroyKey.Some?)
  }

  /** A bare packet writes its only message, whichever part it came from. */
  lemma BareWrites(c: Packet)
    requires KindFits(c) && c.kind != Mixed
    ensures |Members(c.parts)| == 1
    ensures Write(PacketStorer(c)) == Write(MessageStorer(Members(c.parts)[0]))
  {
    var p := c.parts;
    MembersSplit(p);
    ConcatWrites(p);
    ListStorerWrites(p.cancels);
    ListStorerWrites(QueryMessages(p.queries, p.header));
    var m := Members(p)[0];
    assert Members(p) == [m];
    assert [m][1..] == [];
    assert WriteAll([m]) == Write(MessageStorer(m)) + WriteAll([]);
    match c.kind
    case OnlyQuery => assert Members(p) == QueryMessages(p.queries, p.header);
    case OnlyCancel => assert Members(p) == p.cancels;
    case _ =>
  }

  /** data is one message that ends with it: a container of exactly got, or got itself. */
  predicate ReadsAs(data: seq<byte>, mixed: bool, got: seq<Message>) {
    var top := ParseMessage(data);
    && top.Some? && top.value.1 == []
    && if mixed then ParseContainer(top.value.0.body) == Some((got, [])) else got == [top.value.0]
  }

  /**
   The bytes of a packet are one message that ends with them. A bare packet is its only
   member; a container holds exactly Count members, each read back with its exact length,
   and nothing after them. The reader refuses exactly the members that are not whole words.
   */
  lemma PacketReadsBack(c: Packet)
    requires KindFits(c) && AllFit(Members(c.parts))
    requires c.kind == Mixed ==> Fits(Stored(c.id, c.seqNo, ContainerStorer(c.parts))) && Count(c.parts) < 0x8000_0000
    ensures AllWhole(Members(c.parts)) ==>
              ReadsAs(Write(PacketStorer(c)), c.kind == Mixed, ReadAll(Members(c.parts)))
    ensures !AllWhole(Members(c.parts)) ==>
              if c.kind == Mixed then ParseContainer(Write(ContainerStorer(c.parts))) == None
              else ParseMessage(Write(PacketStorer(c))) == None
  {
    hide ParseMessage, ParseContainer, Write, MessageStorer, PacketStorer, ContainerStorer, Members, Read, Size;
    var ms := Members(c.parts);
    if c.kind == Mixed {
      MixedReadsBack(c);
    } else {
      BareWrites(c);
      var data := Write(MessageStorer(ms[0]));
      assert data + [] == data;
      MessageRoundTrip(ms[0], []);
      assert ms == [ms[0]];
      if AllWhole(ms) {
        assert ReadAll(ms) == [Read(ms[0])];
      }
    }
  }

  lemma MixedReadsBack(c: Packet)
    requires c.kind == Mixed && AllFit(Members(c.parts)) && Count(c.parts) < 0x8000_0000
    requires Fits(Stored(c.id, c.seqNo, ContainerStorer(c.parts)))
    ensures AllWhole(Members(c.parts)) ==> ReadsAs(Write(PacketStorer(c)), true, ReadAll(Members(c.parts)))
    ensures !AllWhole(Members(c.parts)) ==> ParseContainer(Write(ContainerStorer(c.parts))) == None
  {
    ContainerReadsBack(c.parts);
    if AllWhole(Members(c.parts)) {
      ContainerWhole(c.parts);
      var outer := Stored(c.id, c.seqNo, ContainerStorer(c.parts));
      var data := Write(MessageStorer(outer));
      assert data + [] == data;
      MessageRoundTrip(outer, []);
    }
  }

  lemma ContainerBytes(p: Parts)
    ensures Write(ContainerStorer(p)) == Le(4, CONTAINER_ID) + Le(4, Count(p)) + WriteAll(Members(p))
    ensures |Write(ContainerStorer(p))| == 8 + |WriteAll(Members(p))|
  {
    ConcatWrites(p);
    var head := Raw(Le(4, CONTAINER_ID) + Le(4, Count(p)));
    assert Write(ContainerStorer(p)) == Write(head) + Write(ConcatStorer(p));
  }

  lemma ContainerReadsBack(p: Parts)
    requires AllFit(Members(p)) && Count(p) < 0x8000_0000
    ensures ParseContainer(Write(ContainerStorer(p))) ==
            if AllWhole(Members(p)) then Some((ReadAll(Members(p)), [])) else None
  {
    var ms := Members(p);
    MembersSplit(p);
    ContainerBytes(p);
    ManyRoundTrip(ms, []);
    assert WriteAll(ms) + [] == WriteAll(ms);
    ContainerSlices(CONTAINER_ID, Count(p), WriteAll(ms));
  }

  lemma ContainerWhole(p: Parts)
    requires AllWhole(Members(p))
    ensures Size(ContainerStorer(p)) % 4 == 0
  {
    ContainerBytes(p);
    WholeTogether(Members(p));
    WholeSum(0, |WriteAll(Members(p))|);
    SizeIsWritten(ContainerStorer(p));
  }

  lemma ContainerSlices(tag: nat, n: nat, tail: seq<byte>)
    requires tag < 0x1_0000_0000 && n < 0x8000_0000
    ensures var body := Le(4, tag) + Le(4, n) + tail;
            |body| == 8 + |tail| && FromLe(body[..4]) == tag && ReadInt(body[4..8]) == n && body[8..] == tail
  {
    var body := Le(4, tag) + Le(4, n) + tail;
    Word4(tag, []);
    IntRoundTrip(n);
    assert body[..4] == Le(4, tag) && body[4..8] == Le(4, n);
  }

  lemma MessageLength(m: Stored)
    ensures |Write(MessageStorer(m))| == 16 + Size(m.content)
  {
    SizeIsWritten(MessageStorer(m));
    assert Size(MessageStorer(m)) == |Le(8, m.id) + Int(m.seqNo)| + Size(Counted(m.content));
  }

  lemma WholeSum(a: nat, b: nat)
    requires a % 4 == 0 && b % 4 == 0
    ensures (16 + a + b) % 4 == 0 && (8 + b) % 4 == 0
  {
  }

  lemma {:induction false} WholeTogether(ms: seq<Stored>)
    requires AllWhole(ms)
    ensures |WriteAll(ms)| % 4 == 0
  {
    if ms != [] {
      MessageLength(ms[0]);
      WholeTogether(ms[1..]);
      WholeSum(Size(ms[0].content), |WriteAll(ms[1..])|);
    }
  }
}

/**
 The constructor of CryptoImpl (td/mtproto/CryptoStorer.h): it draws identifiers and sequence
 numbers from the session for every service message that is due, decides between a bare
 message and a container, and reports the identifier the packet is known by.
 */
module CryptoBuilder {
  import opened Bytes
  import opened CryptoStorer
  import opened CryptoPacket
  import AuthData

  datatype Request = Request(
    queries: seq<Query>, header: seq<byte>, acks: seq<nat>, pingId: nat, pingTimeout: int32,
    maxDelay: int32, maxAfter: int32, maxWait: int32, futureSalts: int32,
    getInfo: seq<nat>, resend: seq<nat>, cancel: seq<nat>, destroyKey: bool)

  function When(due: bool, service: Service): seq<Service> {
    if due then [service] else []
  }

  function Cancels(ids: seq<nat>): (r: seq<Service>)
    ensures |r| == |ids|
  {
    seq(|ids|, i requires 0 <= i < |ids| => Cancel(ids[i]))
  }

  lemma CancelsMore(ids: seq<nat>, i: nat)
    requires i < |ids|
    ensures Cancels(ids[..i]) + [Cancel(ids[i])] == Cancels(ids[..i + 1])
  {
  }

  /** The service messages that are due, in wire order. */
  function Due(r: Request): seq<Service> {
    When(r.acks != [], Ack(r.acks)) + When(r.maxDelay >= 0, HttpWait(r.maxDelay, r.maxAfter, r.maxWait)) +
    When(r.futureSalts > 0, FutureSalts(r.futureSalts)) + When(r.getInfo != [], StateRequest(r.getInfo)) +
    When(r.resend != [], Resend(r.resend)) + Cancels(r.cancel) + When(r.destroyKey, DestroyKey) +
    When(r.pingId != 0, Ping(r.pingId, r.pingTimeout))
  }

  // ---------- issued messages ----------

  predicate IssuedOne(m: Stored, service: Service, seqNo: int, low: nat, high: nat) {
    m.content == Raw(ServiceBytes(service)) && m.seqNo == seqNo && low < m.id <= high
  }

  predicate Increasing(ms: seq<Stored>) {
    forall i: nat, j: nat | i < j < |ms| :: ms[i].id < ms[j].id
  }

  /** ms are the given services with increasing identifiers above low and up to high. */
  predicate Issued(ms: seq<Stored>, services: seq<Service>, seqNo: int, low: nat, high: nat) {
    && |ms| == |services| && low <= high && Increasing(ms)
    && forall i: nat | i < |ms| :: IssuedOne(ms[i], services[i], seqNo, low, high)
  }

  lemma IssuedMore(ms: seq<Stored>, services: seq<Service>, seqNo: int, low: nat, high: nat, m: Stored, service: Service)
    requires Issued(ms, services, seqNo, low, high) && high < m.id && IssuedOne(m, service, seqNo, low, m.id)
    ensures Issued(ms + [m], services + [service], seqNo, low, m.id)
  {
    var ms', services' := ms + [m], services + [service];
    forall i: nat | i < |ms'|
      ensures IssuedOne(ms'[i], services'[i], seqNo, low, m.id)
    {
      if i < |ms| {
        assert IssuedOne(ms[i], services[i], seqNo, low, high);
      }
    }
    forall i: nat, j: nat | i < j < |ms'|
      ensures ms'[i].id < ms'[j].id
    {
      assert IssuedOne(ms[i], services[i], seqNo, low, high);
    }
  }

  /** The server time in units of identifiers. */
  function Clock(serverTime: real): int {
    (serverTime * 4294967296.0).Floor
  }

  predicate RoomAt(last: nat, clock: int, k: nat) {
    last + 8192 * k < AuthData.TWO_64 && clock + AuthData.TWO_22 + 8192 * k < AuthData.TWO_64
  }

  /** Identifiers do not wrap around within the next k draws. */
  predicate Room(last: nat, serverTime: real, k: nat) {
    0.0 <= serverTime < 4294967296.0 && RoomAt(last, Clock(serverTime), k)
  }

  lemma DrawKeepsRoom(last: nat, serverTime: real, random: nat, k: nat)
    requires Room(last, serverTime, k + 1) && last % 4 == 0
    ensures last < AuthData.NextId(last, serverTime, random)
    ensures Room(AuthData.NextId(last, serverTime, random), serverTime, k)
  {
    AuthData.NextIdGrows(last, serverTime, random);
    StepKeepsRoom(last, Clock(serverTime), random / AuthData.TWO_22 % 1024 + 1, AuthData.FreshId(serverTime, random), k);
  }

  lemma StepKeepsRoom(last: nat, clock: int, step: nat, drawn: nat, k: nat)
    requires RoomAt(last, clock, k + 1) && 0 < step <= 1024 && drawn < clock + AuthData.TWO_22
    ensures var id := if last >= drawn then (last + 8 * step) % AuthData.TWO_64 else drawn;
            last < id && RoomAt(id, clock, k)
  {
    assert last + 8 * step < AuthData.TWO_64;
  }

  // ---------- the constructor ----------

  /** The type chosen for the packet; the last branch is never reached. */
  function KindOf(p: Parts, firstValid: bool): Kind
    requires Count(p) > 0
  {
    if Count(p) > 1 || (p.queries != [] && !firstValid) then Mixed
    else if p.queries != [] then OnlyQuery
    else if p.ack.Some? then OnlyAck
    else if p.ping.Some? then OnlyPing
    else if p.httpWait.Some? then OnlyHttpWait
    else if p.futureSalts.Some? then OnlyFutureSalts
    else if p.getInfo.Some? then OnlyGetInfo
    else if p.resend.Some? then OnlyResend
    else if p.cancels != [] then OnlyCancel
    else if p.destroyKey.Some? then OnlyDestroyKey
    else assert false; Mixed
  }

  /** get_message_id of the part a bare packet consists of. */
  function BareId(p: Parts, kind: Kind): nat
    requires KindFits(Packet(p, kind, 0, 0)) && kind != Mixed
  {
    match kind
    case OnlyQuery => assert |p.queries| == 1; p.queries[0].id
    case OnlyAck => p.ack.value.id
    case OnlyPing => p.ping.value.id
    case OnlyHttpWait => p.httpWait.value.id
    case OnlyFutureSalts => p.futureSalts.value.id
    case OnlyGetInfo => p.getInfo.value.id
    case OnlyResend => p.resend.value.id
    case OnlyCancel => assert |p.cancels| == 1; p.cancels[0].id
    case OnlyDestroyKey => p.destroyKey.value.id
  }

  lemma BareIdIsMember(p: Parts, kind: Kind)
    requires KindFits(Packet(p, kind, 0, 0)) && kind != Mixed
    ensures |Members(p)| == 1 && BareId(p, kind) == Members(p)[0].id
  {
    MembersSplit(p);
    match kind
    case OnlyQuery => assert Members(p)[0] == QueryMessages(p.queries, p.header)[0];
    case OnlyCancel => assert Members(p)[0] == p.cancels[0];
    case _ =>
  }

  /** ObjectImpl: a due message takes the next identifier and an even sequence number. */
  method AddService(session: AuthData.Session, now: real, word: nat, due: bool, service: Service,
                    ghost ms: seq<Stored>, ghost services: seq<Service>, ghost low: nat, ghost room: nat)
    returns (m: Option<Stored>)
    requires session.Valid() && session.seqNo < 0x7fff_fffe
    requires Room(session.lastMessageId, session.ServerTime(now), room + 1)
    requires Issued(ms, services, session.seqNo, low, session.lastMessageId)
    modifies session`lastMessageId, session`seqNo, session`contentMessages
    ensures session.Valid() && session.contentMessages == old(session.contentMessages)
    ensures session.seqNo == old(session.seqNo)
    ensures Room(session.lastMessageId, session.ServerTime(now), room)
    ensures m.Some? <==> due
    ensures Issued(ms + Opt(m), services + When(due, service), session.seqNo, low, session.lastMessageId)
  {
    if !due {
      assert ms + [] == ms && services + [] == services;
      return None;
    }
    DrawKeepsRoom(session.lastMessageId, session.ServerTime(now), word, room);
    ghost var high := session.lastMessageId;
    var id := session.NextMessageId(now, word);
    var seqNo := session.NextSeqNo(false);
    var stored := Stored(id, seqNo, Raw(ServiceBytes(service)));
    IssuedMore(ms, services, seqNo, low, high, stored, service);
    return Some(stored);
  }

  /** CancelVectorImpl. */
  method AddCancels(session: AuthData.Session, now: real, random: nat -> nat, ids: seq<nat>,
                    ghost ms: seq<Stored>, ghost services: seq<Service>, ghost low: nat, ghost room: nat)
    returns (r: seq<Stored>)
    requires session.Valid() && session.seqNo < 0x7fff_fffe
    requires Room(session.lastMessageId, session.ServerTime(now), room + |ids|)
    requires Issued(ms, services, session.seqNo, low, session.lastMessageId)
    modifies session`lastMessageId, session`seqNo, session`contentMessages
    ensures session.Valid() && session.contentMessages == old(session.contentMessages)
    ensures session.seqNo == old(session.seqNo)
    ensures Room(session.lastMessageId, session.ServerTime(now), room)
    ensures |r| == |ids|
    ensures Issued(ms + r, services + Cancels(ids), session.seqNo, low, session.lastMessageId)
  {
    r := [];
    assert ms + r == ms && services + Cancels(ids[..0]) == services;
    for i := 0 to |ids|
      invariant session.Valid() && session.contentMessages == old(session.contentMessages)
      invariant session.seqNo == old(session.seqNo)
      invariant Room(session.lastMessageId, session.ServerTime(now), room + |ids| - i)
      invariant |r| == i
      invariant Issued(ms + r, services + Cancels(ids[..i]), session.seqNo, low, session.lastMessageId)
    {
      var m := AddService(session, now, random(i), true, Cancel(ids[i]), ms + r, services + Cancels(ids[..i]), low,
                          room + |ids| - i - 1);
      Associates(ms, r, [m.value]);
      Associates(services, Cancels(ids[..i]), [Cancel(ids[i])]);
      CancelsMore(ids, i);
      r := r + [m.value];
    }
    assert ids[..|ids|] == ids;
  }

  /** The services before the cancellations. */
  function DueFirst(r: Request): seq<Service> {
    When(r.acks != [], Ack(r.acks)) + When(r.maxDelay >= 0, HttpWait(r.maxDelay, r.maxAfter, r.maxWait)) +
    When(r.futureSalts > 0, FutureSalts(r.futureSalts)) + When(r.getInfo != [], StateRequest(r.getInfo)) +
    When(r.resend != [], Resend(r.resend))
  }

  method AddFirst(session: AuthData.Session, now: real, random: nat -> nat, r: Request, ghost room: nat)
    returns (a: Option<Stored>, h: Option<Stored>, f: Option<Stored>, g: Option<Stored>, s: Option<Stored>)
    requires session.Valid() && session.seqNo < 0x7fff_fffe
    requires Room(session.lastMessageId, session.ServerTime(now), room + 5)
    modifies session`lastMessageId, session`seqNo, session`contentMessages
    ensures session.Valid() && session.contentMessages == old(session.contentMessages)
    ensures session.seqNo == old(session.seqNo)
    ensures Room(session.lastMessageId, session.ServerTime(now), room)
    ensures Issued(Opt(a) + Opt(h) + Opt(f) + Opt(g) + Opt(s), DueFirst(r), session.seqNo,
                   old(session.lastMessageId), session.lastMessageId)
  {
    ghost var low := session.lastMessageId;
    a := AddService(session, now, random(0), r.acks != [], Ack(r.acks), [], [], low, room + 4);
    ghost var ms, due := Opt(a), When(r.acks != [], Ack(r.acks));
    assert [] + ms == ms && [] + due == due;
    h := AddService(session, now, random(1), r.maxDelay >= 0, HttpWait(r.maxDelay, r.maxAfter, r.maxWait),
                    ms, due, low, room + 3);
    ms, due := ms + Opt(h), due + When(r.maxDelay >= 0, HttpWait(r.maxDelay, r.maxAfter, r.maxWait));
    f := AddService(session, now, random(2), r.futureSalts > 0, FutureSalts(r.futureSalts), ms, due, low, room + 2);
    ms, due := ms + Opt(f), due + When(r.futureSalts > 0, FutureSalts(r.futureSalts));
    g := AddService(session, now, random(3), r.getInfo != [], StateRequest(r.getInfo), ms, due, low, room + 1);
    ms, due := ms + Opt(g), due + When(r.getInfo != [], StateRequest(r.getInfo));
    s := AddService(session, now, random(4), r.resend != [], Resend(r.resend), ms, due, low, room);
  }

  /** The service messages of a request, issued in wire order. */
  method AddServices(session: AuthData.Session, now: real, random: nat -> nat, r: Request) returns (p: Parts)
    requires session.Valid() && session.seqNo < 0x7fff_fffe
    requires Room(session.lastMessageId, session.ServerTime(now), |r.cancel| + 8)
    modifies session`lastMessageId, session`seqNo, session`contentMessages
    ensures session.Valid() && session.contentMessages == old(session.contentMessages)
    ensures session.seqNo == old(session.seqNo)
    ensures Room(session.lastMessageId, session.ServerTime(now), 1)
    ensures p.queries == r.queries && p.header == r.header
    ensures Issued(Services(p), Due(r), session.seqNo, old(session.lastMessageId), session.lastMessageId)
  {
    ghost var low := session.lastMessageId;
    var a, h, f, g, s := AddFirst(session, now, random, r, |r.cancel| + 3);
    ghost var ms, due := Opt(a) + Opt(h) + Opt(f) + Opt(g) + Opt(s), DueFirst(r);
    var c := AddCancels(session, now, i => random(i + 7), r.cancel, ms, due, low, 3);
    ms, due := ms + c, due + Cancels(r.cancel);
    var d := AddService(session, now, random(5), r.destroyKey, DestroyKey, ms, due, low, 2);
    ms, due := ms + Opt(d), due + When(r.destroyKey, DestroyKey);
    var q := AddService(session, now, random(6), r.pingId != 0, Ping(r.pingId, r.pingTimeout), ms, due, low, 1);
    p := Parts(r.queries, r.header, a, h, f, g, s, c, d, q);
  }

  /** The rest of the constructor: choose the type and the identifier the packet is known by. */
  method Finish(session: AuthData.Session, now: real, word: nat, p: Parts)
    returns (c: Packet, parentId: nat, containerId: Option<nat>)
    requires session.Valid() && session.seqNo < 0x7fff_fffe && Count(p) > 0
    requires Room(session.lastMessageId, session.ServerTime(now), 1)
    modifies session`lastMessageId, session`seqNo, session`contentMessages
    ensures session.Valid() && session.contentMessages == old(session.contentMessages)
    ensures session.seqNo == old(session.seqNo)
    ensures c.parts == p && KindFits(c)
    ensures c.kind == Mixed <==>
            Count(p) > 1 || (p.queries != [] && !AuthData.ValidOutbound(session.ServerTime(now), p.queries[0].id))
    ensures if c.kind == Mixed
            then containerId == Some(c.id) && parentId == c.id == session.lastMessageId > old(session.lastMessageId) &&
                 c.seqNo == session.seqNo
            else containerId == None && |Members(p)| == 1 && parentId == Members(p)[0].id &&
                 session.lastMessageId == old(session.lastMessageId)
  {
    var firstValid := p.queries == [] || AuthData.ValidOutbound(session.ServerTime(now), p.queries[0].id);
    var kind := KindOf(p, firstValid);
    if kind == Mixed {
      DrawKeepsRoom(session.lastMessageId, session.ServerTime(now), word, 0);
      var id := session.NextMessageId(now, word);
      var seqNo := session.NextSeqNo(false);
      return Packet(p, kind, id, seqNo), id, Some(id);
    }
    BareIdIsMember(p, kind);
    return Packet(p, kind, 0, 0), BareId(p, kind), None;
  }

  /**
   CryptoImpl. The caller guarantees that there is something to send. A container is known by
   an identifier above every identifier drawn from the session before, so above those of all
   service messages in it.
   */
  method Build(session: AuthData.Session, now: real, random: nat -> nat, r: Request)
    returns (c: Packet, parentId: nat, containerId: Option<nat>)
    requires session.Valid() && session.seqNo < 0x7fff_fffe
    requires Room(session.lastMessageId, session.ServerTime(now), |r.cancel| + 8)
    requires r.queries != [] || Due(r) != []
    modifies session`lastMessageId, session`seqNo, session`contentMessages
    ensures session.Valid() && session.contentMessages == old(session.contentMessages)
    ensures c.parts.queries == r.queries && c.parts.header == r.header && KindFits(c)
    ensures Issued(Services(c.parts), Due(r), session.seqNo, old(session.lastMessageId), session.lastMessageId)
    ensures c.kind == Mixed <==>
            |r.queries| + |Due(r)| > 1 ||
            (r.queries != [] && !AuthData.ValidOutbound(session.ServerTime(now), r.queries[0].id))
    ensures c.kind == Mixed ==>
              && containerId == Some(c.id) && parentId == c.id == session.lastMessageId > old(session.lastMessageId)
              && c.seqNo == session.seqNo
              && (forall m | m in Services(c.parts) :: m.id < c.id)
    ensures c.kind != Mixed ==> containerId == None && |Members(c.parts)| == 1 && parentId == Members(c.parts)[0].id
  {
    var p := AddServices(session, now, random, r);
    ghost var low, high := old(session.lastMessageId), session.lastMessageId;
    MembersSplit(p);
    c, parentId, containerId := Finish(session, now, random(7 + |r.cancel|), p);
    if c.kind == Mixed {
      IssuedBelow(Services(p), Due(r), session.seqNo, low, high, c.id);
    }
  }

  lemma IssuedBelow(ms: seq<Stored>, services: seq<Service>, seqNo: int, low: nat, high: nat, id: nat)
    requires Issued(ms, services, seqNo, low, high) && high < id
    ensures Issued(ms, services, seqNo, low, id)
    ensures forall m | m in ms :: m.id < id
  {
    forall i: nat | i < |ms|
      ensures IssuedOne(ms[i], services[i], seqNo, low, id)
    {
      assert IssuedOne(ms[i], services[i], seqNo, low, high);
    }
  }

  // ---------- what arrives ----------

  /** The peer decodes every service message of a packet to the service that was due. */
  lemma ServiceArrives(ms: seq<Stored>, services: seq<Service>, seqNo: int, low: nat, high: nat, i: nat)
    requires Issued(ms, services, seqNo, low, high) && i < |ms| && ServiceFits(services[i])
    ensures ReadService(Read(ms[i]).body) == Some(services[i])
  {
    assert IssuedOne(ms[i], services[i], seqNo, low, high);
    ServiceRoundTrip(services[i]);
  }

  function AfterWords(n: nat): nat {
    if n == 0 then 0 else if n == 1 then 3 else 3 + 2 * n
  }

  lemma InvokeAfterLength(after: seq<nat>)
    ensures |InvokeAfter(after)| == 4 * AfterWords(|after|)
  {
  }

  lemma PayloadWhole(q: Query)
    requires q.gzip || |q.packet| % 4 == 0
    ensures Size(Payload(q)) % 4 == 0
  {
    if q.gzip {
      assert Size(Payload(q)) == 4 + Size(Str(q.packet));
    }
  }

  lemma CatSize(header: seq<byte>, after: seq<byte>, payload: Storer, n: nat)
    requires |header| % 4 == 0 && |after| == 4 * n && Size(payload) % 4 == 0
    ensures Size(Cat(Raw(header), Cat(Raw(after), payload))) % 4 == 0
  {
    assert Size(Cat(Raw(after), payload)) == |after| + Size(payload);
  }

  lemma QueryWhole(q: Query, header: seq<byte>)
    requires |header| % 4 == 0 && (q.gzip || |q.packet| % 4 == 0)
    ensures Size(QueryContent(q, header)) % 4 == 0
  {
    var after, payload := InvokeAfter(q.after), Payload(q);
    InvokeAfterLength(q.after);
    PayloadWhole(q);
    CatSize(header, after, payload, AfterWords(|q.after|));
  }

  lemma QueriesAllWhole(qs: seq<Query>, header: seq<byte>)
    requires |header| % 4 == 0 && forall i: nat | i < |qs| :: qs[i].gzip || |qs[i].packet| % 4 == 0
    ensures AllWhole(QueryMessages(qs, header))
  {
    forall i: nat | i < |qs|
      ensures Size(QueryMessages(qs, header)[i].content) % 4 == 0
    {
      QueryWhole(qs[i], header);
    }
  }

  lemma IssuedWhole(ms: seq<Stored>, services: seq<Service>, seqNo: int, low: nat, high: nat)
    requires Issued(ms, services, seqNo, low, high)
    ensures AllWhole(ms)
  {
    hide ServiceBytes;
    forall i: nat | i < |ms|
      ensures Size(ms[i].content) % 4 == 0
    {
      assert IssuedOne(ms[i], services[i], seqNo, low, high);
      ServiceWords(services[i]);
    }
  }

  predicate QueriesWhole(r: Request) {
    |r.header| % 4 == 0 && forall i: nat | i < |r.queries| :: r.queries[i].gzip || |r.queries[i].packet| % 4 == 0
  }

  lemma AllWholeMembers(r: Request, qs: seq<Stored>, sv: seq<Stored>, due: seq<Service>, seqNo: int, low: nat, high: nat)
    requires qs == QueryMessages(r.queries, r.header) && QueriesWhole(r) && Issued(sv, due, seqNo, low, high)
    ensures AllWhole(qs + sv)
  {
    QueriesAllWhole(r.queries, r.header);
    IssuedWhole(sv, due, seqNo, low, high);
  }

  /**
   What Build produced arrives: the packet parses to its end, and its messages are the queries
   with their identifiers followed by the issued service messages.
   */
  lemma PacketArrives(c: Packet, r: Request, seqNo: int, low: nat, high: nat)
    requires KindFits(c) && c.parts.queries == r.queries && c.parts.header == r.header && QueriesWhole(r)
    requires Issued(Services(c.parts), Due(r), seqNo, low, high)
    requires AllFit(Members(c.parts)) && Count(c.parts) < 0x8000_0000
    requires c.kind == Mixed ==> Fits(Stored(c.id, c.seqNo, ContainerStorer(c.parts)))
    ensures ReadsAs(Write(PacketStorer(c)), c.kind == Mixed,
                    ReadAll(QueryMessages(r.queries, r.header) + Services(c.parts)))
    ensures |Services(c.parts)| == |Due(r)|
  {
    var qs, sv := QueryMessages(r.queries, r.header), Services(c.parts);
    assert Members(c.parts) == qs + sv by { MembersSplit(c.parts); }
    AllWholeMembers(r, qs, sv, Due(r), seqNo, low, high);
    PacketReadsBack(c);
  }
}

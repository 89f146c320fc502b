/**
 The state of an MTProto session (td/mtproto/AuthData.h and AuthData.cpp): the clock offset,
 the replay window, the generator of message identifiers and sequence numbers, and the
 schedule of server salts. Times are reals; the clock and the random words are arguments.
 */
module AuthData {
  import opened Bytes
  import opened DuplicateChecker

  const TWO_22: nat := 0x40_0000
  const TWO_32: nat := 0x1_0000_0000
  const TWO_64: nat := 0x1_0000_0000_0000_0000

  // ---------- message identifiers ----------

  /** The server time as a 32.32 number with its low 22 bits scrambled and its low 2 bits cleared. */
  function FreshId(serverTime: real, random: nat): nat
    requires serverTime >= 0.0
  {
    var t := (serverTime * 4294967296.0).Floor;
    DropLow(t / TWO_22 * TWO_22 + Xor(22, t % TWO_22, random % TWO_22))
  }

  /** With the low two bits cleared. */
  function DropLow(x: nat): nat {
    x - x % 4
  }

  /** The next identifier after last; random is the 32-bit random word. */
  function NextId(last: nat, serverTime: real, random: nat): nat
    requires serverTime >= 0.0
  {
    var clock := FreshId(serverTime, random);
    if last >= clock then (last + 8 * (random / TWO_22 % 1024 + 1)) % TWO_64 else clock
  }

  lemma Pow2Of22()
    ensures Pow2(22) == TWO_22
  {
    assert Pow2(8) == 256;
    assert Pow2(16) == 65536;
  }

  lemma ScrambledNear(t: nat, x: nat)
    requires t < TWO_64 && x < TWO_22
    ensures var scrambled := t / TWO_22 * TWO_22 + x;
            && scrambled < TWO_64 && t - TWO_22 < scrambled - scrambled % 4 < t + TWO_22
            && (scrambled - scrambled % 4) % 4 == 0
  {
    assert t == t / TWO_22 * TWO_22 + t % TWO_22;
    var high := t / TWO_22;
    assert high * TWO_22 <= t;
    assert high < 0x400_0000_0000;
  }

  lemma FreshIdNear(serverTime: real, random: nat)
    requires 0.0 <= serverTime < 4294967296.0
    ensures var t := (serverTime * 4294967296.0).Floor;
            var id := FreshId(serverTime, random);
            id < TWO_64 && id % 4 == 0 && t - TWO_22 < id < t + TWO_22
  {
    var t := (serverTime * 4294967296.0).Floor;
    Pow2Of22();
    ScrambledNear(t, Xor(22, t % TWO_22, random % TWO_22));
  }

  lemma StepWraps(last: nat, step: nat)
    requires last < TWO_64 && last % 4 == 0 && 0 < step <= 1024
    ensures var next := (last + 8 * step) % TWO_64;
            next < TWO_64 && next % 4 == 0 && (next > last <==> last + 8 * step < TWO_64)
  {
    var sum := last + 8 * step;
    if sum >= TWO_64 {
      assert sum % TWO_64 == sum - TWO_64;
    }
  }

  /** Identifiers are multiples of four, follow the clock up to 2^-10 seconds and grow unless they wrap around. */
  lemma NextIdGrows(last: nat, serverTime: real, random: nat)
    requires 0.0 <= serverTime < 4294967296.0 && last < TWO_64 && last % 4 == 0
    ensures var id := NextId(last, serverTime, random);
            && id % 4 == 0 && id < TWO_64
            && (id > last <==> last < FreshId(serverTime, random) ||
                               last + 8 * (random / TWO_22 % 1024 + 1) < TWO_64)
    ensures var t := (serverTime * 4294967296.0).Floor;
            t - TWO_22 < FreshId(serverTime, random) < t + TWO_22
  {
    FreshIdNear(serverTime, random);
    StepWraps(last, random / TWO_22 % 1024 + 1);
  }

  // ---------- the clock ----------

  function IdTime(id: nat): real {
    id as real / 4294967296.0
  }

  predicate ValidInbound(serverTime: real, id: nat) {
    serverTime - 300.0 < IdTime(id) < serverTime + 30.0
  }

  predicate ValidOutbound(serverTime: real, id: nat) {
    serverTime - 150.0 < IdTime(id) < serverTime + 30.0
  }

  /** The offset is one of the differences reported since the reset and at most 1e-4 below any of them. */
  ghost predicate TracksMaximum(updated: bool, offset: real, reported: seq<real>) {
    && (updated <==> reported != [])
    && (updated ==> offset in reported)
    && (forall d | d in reported :: d <= offset + 0.0001)
  }

  /** The identifier's second is the first report, or more than 1e-4 seconds above the offset. */
  predicate Learns(updated: bool, offset: real, id: nat, now: real) {
    !updated || offset + 0.0001 < (id / TWO_32) as real - now
  }

  // ---------- server salts ----------

  datatype ServerSalt = ServerSalt(salt: nat, validSince: real, validUntil: real)

  predicate Descending(s: seq<ServerSalt>) {
    forall i: nat, j: nat | i < j < |s| :: s[i].validSince >= s[j].validSince
  }

  lemma DescendingPrefix(s: seq<ServerSalt>, r: seq<ServerSalt>, serverTime: real)
    requires Descending(s) && r <= s && (r != [] ==> r[|r| - 1].validSince >= serverTime)
    ensures Descending(r) && forall x | x in r :: x.validSince >= serverTime
  {
    forall x | x in r
      ensures x.validSince >= serverTime
    {
      var i: nat :| i < |r| && r[i] == x;
      assert s[i].validSince >= s[|r| - 1].validSince;
    }
  }

  function InsertSalt(s: seq<ServerSalt>, x: ServerSalt): seq<ServerSalt> {
    if s == [] || x.validSince > s[0].validSince then [x] + s
    else [s[0]] + InsertSalt(s[1..], x)
  }

  lemma {:induction false} InsertSaltCounts(s: seq<ServerSalt>, x: ServerSalt)
    ensures multiset(InsertSalt(s, x)) == multiset(s) + multiset{x}
  {
    if s != [] && x.validSince <= s[0].validSince {
      InsertSaltCounts(s[1..], x);
      assert s == [s[0]] + s[1..];
    }
  }

  lemma {:induction false} InsertSaltDescending(s: seq<ServerSalt>, x: ServerSalt)
    requires Descending(s)
    ensures Descending(InsertSalt(s, x))
  {
    if s != [] && x.validSince <= s[0].validSince {
      var r := InsertSalt(s[1..], x);
      InsertSaltDescending(s[1..], x);
      forall i: nat | i < |r|
        ensures r[i].validSince <= s[0].validSince
      {
        InsertSaltCounts(s[1..], x);
        assert r[i] in multiset(r);
      }
    }
  }

  /** std::sort by decreasing start. */
  method SortSalts(salts: seq<ServerSalt>) returns (r: seq<ServerSalt>)
    ensures multiset(r) == multiset(salts) && Descending(r)
  {
    r := [];
    for i := 0 to |salts|
      invariant multiset(r) == multiset(salts[..i]) && Descending(r)
    {
      InsertSaltCounts(r, salts[i]);
      InsertSaltDescending(r, salts[i]);
      r := InsertSalt(r, salts[i]);
      assert salts[..i + 1] == salts[..i] + [salts[i]];
    }
    assert salts[..|salts|] == salts;
  }

  /** current is the newest salt of all in known that started; later are exactly those that did not. */
  ghost predicate Scheduled(current: ServerSalt, later: seq<ServerSalt>, serverTime: real,
                            previous: ServerSalt, known: multiset<ServerSalt>)
  {
    && (forall x :: multiset(later)[x] == if x.validSince >= serverTime then known[x] else 0)
    && (if exists x :: x in known && x.validSince < serverTime
        then current in known && current.validSince < serverTime
        else current == previous)
    && (forall x | x in known && x.validSince < serverTime :: x.validSince <= current.validSince)
  }

  // ---------- the session ----------

  ghost predicate RemembersAll(s: seq<nat>, accepted: set<nat>) {
    forall id: nat | id in accepted :: Remembers(s, 1000, id)
  }

  /** A check keeps every accepted identifier out of reach and accepts none of them. */
  lemma CheckRemembersAll(s: seq<nat>, accepted: set<nat>, id: nat)
    requires Sorted(s) && |s| <= 2000 && RemembersAll(s, accepted)
    ensures var checked := ArrayCheck(s, 1000, id);
            && RemembersAll(checked.1, accepted)
            && (checked.0 == Accepted ==> id !in accepted && RemembersAll(checked.1, accepted + {id}))
  {
    var after := ArrayCheck(s, 1000, id).1;
    CheckRemembers(s, 1000, id, id);
    forall other: nat | other in accepted
      ensures Remembers(after, 1000, other)
    {
      CheckRemembers(s, 1000, other, id);
    }
  }

  datatype PacketStatus = Ok | OtherSession | EvenId | AlreadyProcessed | VeryOld | OutsideWindow

  class Session {
    var sessionId: nat
    var timeUpdated: bool
    var timeDifference: real
    var lastMessageId: nat
    var seqNo: int
    var serverSalt: ServerSalt
    var futureSalts: seq<ServerSalt>
    const checker: Checker

    /** Every identifier a packet was accepted with. */
    ghost var accepted: set<nat>
    /** Every clock difference reported since the last reset. */
    ghost var reported: seq<real>
    /** Content-related messages numbered since the last clear. */
    ghost var contentMessages: nat

    ghost predicate Valid()
      reads this, checker, checker.saved
    {
      && checker.Valid() && checker.maxSize == 1000
      && (forall id: nat | id in accepted :: Remembers(checker.saved[..checker.endPos], 1000, id))
      && TracksMaximum(timeUpdated, timeDifference, reported)
      && lastMessageId < TWO_64 && lastMessageId % 4 == 0
      && seqNo == 2 * contentMessages
      && Descending(futureSalts)
    }

    constructor (randomSalt: nat)
      ensures Valid() && fresh(checker) && fresh(checker.saved)
      ensures sessionId == 0 && !timeUpdated && timeDifference == 0.0 && lastMessageId == 0
      ensures accepted == {} && reported == [] && contentMessages == 0
      ensures futureSalts == [] && serverSalt.salt == randomSalt
      ensures forall now: real :: IsServerSaltValid(now) <==> now < -10000000060.0
    {
      sessionId, timeUpdated, timeDifference, lastMessageId, seqNo := 0, false, 0.0, 0, 0;
      serverSalt := ServerSalt(randomSalt, -10000000000.0, -10000000000.0);
      futureSalts := [];
      checker := new Checker(1000);
      accepted, reported, contentMessages := {}, [], 0;
    }

    function ServerTime(now: real): real
      reads this`timeDifference
    {
      timeDifference + now
    }

    predicate IsServerSaltValid(now: real)
      reads this`timeDifference, this`serverSalt
    {
      serverSalt.validUntil > ServerTime(now) + 60.0
    }

    /** update_server_time_difference. */
    method UpdateTimeDifference(diff: real) returns (changed: bool)
      requires TracksMaximum(timeUpdated, timeDifference, reported)
      modifies this`timeUpdated, this`timeDifference, this`reported
      ensures TracksMaximum(timeUpdated, timeDifference, reported) && timeUpdated
      ensures reported == old(reported) + [diff]
      ensures old(timeUpdated) ==> timeDifference >= old(timeDifference)
      ensures changed <==> !old(timeUpdated) || old(timeDifference) + 0.0001 < diff
      ensures timeDifference == if changed then diff else old(timeDifference)
    {
      changed := false;
      if !timeUpdated {
        timeUpdated := true;
        timeDifference := diff;
        changed := true;
      } else if timeDifference + 0.0001 < diff {
        timeDifference := diff;
        changed := true;
      }
      reported := reported + [diff];
      assert diff in reported;
    }

    method ResetTimeDifference(diff: real)
      requires Valid()
      modifies this`timeUpdated, this`timeDifference, this`reported
      ensures Valid() && !timeUpdated && timeDifference == diff && reported == []
    {
      timeUpdated, timeDifference, reported := false, diff, [];
    }

    /** A report of the identifier's second keeps the identifier below the end of the window. */
    static lemma NeverInTheFuture(id: nat, now: real, offset: real)
      requires (id / TWO_32) as real - now <= offset + 0.0001
      ensures IdTime(id) < offset + now + 1.0001
      ensures ValidInbound(offset + now, id) <==> offset + now - 300.0 < IdTime(id)
    {
      assert id < (id / TWO_32 + 1) * TWO_32;
      var high := id / TWO_32;
      assert (id as real) < ((high + 1) * TWO_32) as real;
      assert ((high + 1) * TWO_32) as real == (high as real + 1.0) * 4294967296.0;
      assert IdTime(id) * 4294967296.0 == id as real;
    }

    /**
     check_packet. An identifier is accepted at most once over the life of the session, and
     the only identifiers the time window turns away are too old.
     */
    method CheckPacket(session: nat, id: nat, now: real) returns (status: PacketStatus, changed: bool)
      requires Valid() && sessionId != 0 && id < TWO_64
      modifies this`timeUpdated, this`timeDifference, this`reported, this`accepted, checker, checker.saved
      ensures Valid()
      ensures status == Ok ==> session == sessionId && id % 2 == 1 && id !in old(accepted)
      ensures accepted == if status == Ok then old(accepted) + {id} else old(accepted)
      ensures status in {OtherSession, EvenId, AlreadyProcessed, VeryOld} ==>
                timeUpdated == old(timeUpdated) && timeDifference == old(timeDifference) && reported == old(reported)
      ensures status == OtherSession <==> session != sessionId
      ensures status == EvenId <==> session == sessionId && id % 2 == 0
      ensures status in {OtherSession, EvenId} ==> checker.endPos == old(checker.endPos) && unchanged(checker.saved)
      ensures status !in {OtherSession, EvenId} ==>
                var checked := ArrayCheck(old(checker.saved[..checker.endPos]), 1000, id);
                && checker.saved[..checker.endPos] == checked.1
                && (status == AlreadyProcessed <==> checked.0 == Duplicate)
                && (status == VeryOld <==> checked.0 == TooOld)
      ensures status in {Ok, OutsideWindow} ==>
                reported == old(reported) + [(id / TWO_32) as real - now] &&
                (status == OutsideWindow <==> IdTime(id) <= ServerTime(now) - 300.0) &&
                IdTime(id) < ServerTime(now) + 1.0001
      ensures changed <==> status in {Ok, OutsideWindow} && Learns(old(timeUpdated), old(timeDifference), id, now)
      ensures changed ==> timeUpdated && timeDifference == (id / TWO_32) as real - now
      ensures !changed ==> timeUpdated == old(timeUpdated) && timeDifference == old(timeDifference)
    {
      hide ArrayCheck, Remembers, TracksMaximum;
      changed := false;
      if session != sessionId {
        return OtherSession, changed;
      }
      if id % 2 == 0 {
        return EvenId, changed;
      }
      ghost var before := checker.saved[..checker.endPos];
      CheckRemembersAll(before, accepted, id);
      var verdict := checker.Check(id);
      match verdict
      case Duplicate => return AlreadyProcessed, changed;
      case TooOld => return VeryOld, changed;
      case Accepted =>
        var inside: bool;
        inside, changed := CheckWindow(id, now);
        if !inside {
          return OutsideWindow, changed;
        }
        accepted := accepted + {id};
        return Ok, changed;
    }

    /** The clock part of check_packet: learn from the identifier, then look at the window. */
    method CheckWindow(id: nat, now: real) returns (inside: bool, changed: bool)
      requires TracksMaximum(timeUpdated, timeDifference, reported)
      modifies this`timeUpdated, this`timeDifference, this`reported
      ensures TracksMaximum(timeUpdated, timeDifference, reported)
      ensures reported == old(reported) + [(id / TWO_32) as real - now]
      ensures inside <==> ServerTime(now) - 300.0 < IdTime(id)
      ensures IdTime(id) < ServerTime(now) + 1.0001
      ensures changed <==> Learns(old(timeUpdated), old(timeDifference), id, now)
      ensures changed ==> timeUpdated && timeDifference == (id / TWO_32) as real - now
      ensures !changed ==> timeUpdated == old(timeUpdated) && timeDifference == old(timeDifference)
    {
      changed := UpdateTimeDifference((id / TWO_32) as real - now);
      assert reported[|reported| - 1] in reported;
      NeverInTheFuture(id, now, timeDifference);
      inside := !(timeUpdated && !ValidInbound(ServerTime(now), id));
    }

    /** next_message_id. The cast of the server time is defined only inside the range of 64-bit words. */
    method NextMessageId(now: real, random: nat) returns (id: nat)
      requires Valid() && 0.0 <= ServerTime(now) < 4294967296.0
      modifies this`lastMessageId
      ensures Valid() && lastMessageId == id
      ensures id == NextId(old(lastMessageId), ServerTime(now), random)
      ensures old(lastMessageId) + 8192 < TWO_64 ==> id > old(lastMessageId)
    {
      var serverTime := ServerTime(now);
      var result := FreshId(serverTime, random);
      if lastMessageId >= result {
        result := (lastMessageId + 8 * (random / TWO_22 % 1024 + 1)) % TWO_64;
      }
      NextIdGrows(lastMessageId, serverTime, random);
      lastMessageId := result;
      return result;
    }

    /** next_seq_no: twice the number of content-related messages before, plus one for a content-related one. */
    method NextSeqNo(contentRelated: bool) returns (r: int)
      requires Valid() && seqNo < 0x7fff_fffe
      modifies this`seqNo, this`contentMessages
      ensures Valid() && r == 2 * old(contentMessages) + (if contentRelated then 1 else 0)
      ensures contentMessages == old(contentMessages) + (if contentRelated then 1 else 0)
    {
      r := seqNo;
      if contentRelated {
        r := if r % 2 == 0 then r + 1 else r;
        seqNo := seqNo + 2;
        contentMessages := contentMessages + 1;
      }
    }

    /** update_salt. */
    method UpdateSalt(now: real)
      requires Valid()
      modifies this`serverSalt, this`futureSalts
      ensures Valid()
      ensures futureSalts <= old(futureSalts)
      ensures forall x | x in futureSalts :: x.validSince >= ServerTime(now)
      ensures forall x | x in old(futureSalts)[|futureSalts|..] :: x.validSince < ServerTime(now)
      ensures serverSalt == if futureSalts == old(futureSalts) then old(serverSalt)
                            else old(futureSalts)[|futureSalts|]
    {
      hide Descending;
      ghost var s := futureSalts;
      var serverTime := ServerTime(now);
      while futureSalts != [] && futureSalts[|futureSalts| - 1].validSince < serverTime
        invariant futureSalts <= s
        invariant forall x | x in s[|futureSalts|..] :: x.validSince < serverTime
        invariant serverSalt == if futureSalts == s then old(serverSalt) else s[|futureSalts|]
        decreases |futureSalts|
      {
        var n := |futureSalts| - 1;
        assert s[n..] == [s[n]] + s[n + 1..];
        serverSalt := futureSalts[n];
        futureSalts := futureSalts[..n];
      }
      DescendingPrefix(s, futureSalts, serverTime);
    }

    /** set_future_salts. */
    method SetFutureSalts(salts: seq<ServerSalt>, now: real)
      requires Valid()
      modifies this`serverSalt, this`futureSalts
      ensures Valid()
      ensures salts == [] ==> serverSalt == old(serverSalt) && futureSalts == old(futureSalts)
      ensures salts != [] ==> Scheduled(serverSalt, futureSalts, ServerTime(now), old(serverSalt), multiset(salts))
    {
      if salts == [] {
        return;
      }
      futureSalts := SortSalts(salts);
      ghost var s := futureSalts;
      UpdateSalt(now);
      assert futureSalts == s[..|futureSalts|];
      ScheduledAfterPop(s, |futureSalts|, serverSalt, ServerTime(now), old(serverSalt));
    }

    method SetServerSalt(salt: nat, now: real)
      requires Valid()
      modifies this`serverSalt, this`futureSalts
      ensures Valid() && serverSalt.salt == salt && futureSalts == []
      ensures forall t: real :: IsServerSaltValid(t) <==> t < now + 540.0
    {
      var serverTime := ServerTime(now);
      serverSalt := ServerSalt(salt, serverTime, serverTime + 600.0);
      futureSalts := [];
    }
  }

  /** What remains are the salts that have not started, each as often as before. */
  lemma RemainingSalts(s: seq<ServerSalt>, n: nat, serverTime: real, x: ServerSalt)
    requires n <= |s|
    requires forall y | y in s[..n] :: y.validSince >= serverTime
    requires forall y | y in s[n..] :: y.validSince < serverTime
    ensures multiset(s[..n])[x] == if x.validSince >= serverTime then multiset(s)[x] else 0
  {
    assert s == s[..n] + s[n..];
    if x.validSince >= serverTime {
      assert x !in s[n..] && x !in multiset(s[n..]);
    } else {
      assert x !in s[..n] && x !in multiset(s[..n]);
    }
  }

  lemma StartedSalt(s: seq<ServerSalt>, n: nat, serverTime: real, x: ServerSalt)
    requires Descending(s) && n <= |s| && x in s && x.validSince < serverTime
    requires forall y | y in s[..n] :: y.validSince >= serverTime
    ensures n < |s| && x.validSince <= s[n].validSince
  {
    var i: nat :| i < |s| && s[i] == x;
    if i < n {
      assert s[..n][i] in s[..n];
    }
  }

  lemma ScheduledAfterPop(s: seq<ServerSalt>, n: nat, current: ServerSalt, serverTime: real, previous: ServerSalt)
    requires Descending(s) && n <= |s|
    requires forall x | x in s[..n] :: x.validSince >= serverTime
    requires forall x | x in s[n..] :: x.validSince < serverTime
    requires current == if n == |s| then previous else s[n]
    ensures Scheduled(current, s[..n], serverTime, previous, multiset(s))
  {
    hide Descending;
    if n < |s| {
      assert s[n] == s[n..][0] && s[n] in s;
    }
    forall x | x in multiset(s) && x.validSince < serverTime
      ensures n < |s| && x.validSince <= current.validSince
    {
      StartedSalt(s, n, serverTime, x);
    }
    forall x
      ensures multiset(s[..n])[x] == if x.validSince >= serverTime then multiset(s)[x] else 0
    {
      RemainingSalts(s, n, serverTime, x);
    }
  }
}

/**
 The creation of an authorization key (td/mtproto/Handshake.cpp): three requests, three
 responses, and a state that is written to and resumed over changing connections. Parsing of
 responses, ciphers and hashes are parameters; random numbers and the clock are arguments.
 */
module Handshake {
  import opened Bytes
  import Dh = DhHandshake

  type Nonce = s: seq<byte> | |s| == 16 witness seq(16, _ => 0)
  type NewNonce = s: seq<byte> | |s| == 32 witness seq(32, _ => 0)
  type Filler = s: seq<byte> | |s| == 15 witness seq(15, _ => 0)
  type Digest = s: seq<byte> | |s| == 20 witness seq(20, _ => 0)

  // ---------- what the server sends ----------

  datatype ResPq = ResPq(nonce: Nonce, serverNonce: Nonce, pq: seq<byte>, fingerprints: seq<nat>)
  datatype DhParams = DhParams(nonce: Nonce, serverNonce: Nonce, encryptedAnswer: seq<byte>)
  datatype Inner = Inner(nonce: Nonce, serverNonce: Nonce, g: nat, prime: seq<byte>, gA: seq<byte>, serverTime: int32)
  datatype GenAnswer = GenOk(nonce: Nonce, serverNonce: Nonce, hash: Nonce) | GenFail | GenRetry

  /** AuthKey. */
  datatype AuthKey = AuthKey(id: nat, bytes: seq<byte>, expiresAt: real, createdAt: real)

  // ---------- what the client sends ----------

  datatype Mode = Main | Temp
  datatype Config = Config(mode: Mode, dc: int32, expiresIn: int32)

  datatype Request =
    | ReqPq(nonce: Nonce)
    | ReqDhParams(nonce: Nonce, serverNonce: Nonce, p: seq<byte>, q: seq<byte>, fingerprint: nat, data: seq<byte>)
    | SetClientDhParams(nonce: Nonce, serverNonce: Nonce, data: seq<byte>)

  /** The parts of requests that travel encrypted. */
  datatype Secret =
    | PqInnerData(pq: seq<byte>, p: seq<byte>, q: seq<byte>, nonce: Nonce, serverNonce: Nonce, newNonce: NewNonce, dc: int32)
    | PqInnerDataTemp(pq: seq<byte>, p: seq<byte>, q: seq<byte>, nonce: Nonce, serverNonce: Nonce, newNonce: NewNonce,
                      dc: int32, expiresIn: int32)
    | ClientDhInnerData(nonce: Nonce, serverNonce: Nonce, gB: seq<byte>)

  /** The random numbers one response may need: the new nonce, those of the RSA padding, the exponent and the filling. */
  datatype Draws = Draws(newNonce: NewNonce, sealing: seq<byte>, exponent: nat, filler: Filler)

  /** Everything this model does not look into. */
  datatype Crypto = Crypto(
    fetchResPq: seq<byte> -> Option<ResPq>,
    fetchDhParams: seq<byte> -> Option<DhParams>,
    fetchInner: seq<byte> -> Option<(Inner, nat)>,
    fetchGenAnswer: seq<byte> -> Option<GenAnswer>,
    store: Request -> seq<byte>,
    storeSecret: Secret -> seq<byte>,
    pickKey: seq<nat> -> Option<nat>,
    factorize: seq<byte> -> Option<(seq<byte>, seq<byte>)>,
    seal: (nat, seq<byte>, seq<byte>) -> seq<byte>,
    decrypt: (Nonce, NewNonce, seq<byte>) -> seq<byte>,
    encrypt: (Nonce, NewNonce, seq<byte>) -> seq<byte>,
    sha1: seq<byte> -> Digest,
    sha256: seq<byte> -> seq<byte>,
    isPrime: nat -> bool)

  /** Stored requests begin with a constructor, and a parser leaves no more than it was given. */
  ghost predicate CryptoOk(c: Crypto) {
    && (forall r :: c.store(r) != [])
    && (forall s :: c.fetchInner(s).Some? ==> c.fetchInner(s).value.1 <= |s|)
  }

  /** The hash by which the server confirms a key: sha1(new_nonce, 1, first 8 bytes of sha1(key)) without 4 bytes. */
  function Confirmation(sha1: seq<byte> -> Digest, newNonce: NewNonce, key: seq<byte>): Nonce {
    sha1(newNonce + [1] + sha1(key)[..8])[4..]
  }

  /** calc_key_id. */
  function KeyId(sha1: seq<byte> -> Digest, key: seq<byte>): nat {
    FromLe(sha1(key)[12..])
  }

  function Salt(serverNonce: Nonce, newNonce: NewNonce): nat {
    Xor(64, FromLe(newNonce[..8]), FromLe(serverNonce[..8]))
  }

  // ---------- the three responses ----------

  function PqSecret(g: Config, m: ResPq, p: seq<byte>, q: seq<byte>, newNonce: NewNonce): Secret {
    match g.mode
    case Main => PqInnerData(m.pq, p, q, m.nonce, m.serverNonce, newNonce, g.dc)
    case Temp => PqInnerDataTemp(m.pq, p, q, m.nonce, m.serverNonce, newNonce, g.dc, g.expiresIn)
  }

  /** A first response that echoes the nonce, names a known key and a product that factors, and leaves room for the secret. */
  predicate GoodResPq(c: Crypto, g: Config, message: seq<byte>, nonce: Nonce, newNonce: NewNonce) {
    && c.fetchResPq(message).Some?
    && var m := c.fetchResPq(message).value;
    && m.nonce == nonce && c.pickKey(m.fingerprints).Some? && c.factorize(m.pq).Some?
    && |c.storeSecret(PqSecret(g, m, c.factorize(m.pq).value.0, c.factorize(m.pq).value.1, newNonce))| <= 144
  }

  /** It is answered with the factors and with the new nonce, sealed for that key. */
  function SecondRequest(c: Crypto, g: Config, message: seq<byte>, nonce: Nonce, newNonce: NewNonce, sealing: seq<byte>): Request
    requires GoodResPq(c, g, message, nonce, newNonce)
  {
    var m := c.fetchResPq(message).value;
    var (p, q) := c.factorize(m.pq).value;
    var rsaKey := c.pickKey(m.fingerprints).value;
    ReqDhParams(nonce, m.serverNonce, p, q, rsaKey, c.seal(rsaKey, c.storeSecret(PqSecret(g, m, p, q, newNonce)), sealing))
  }

  /** The decrypted second response: a hash, the inner data it is the hash of, and less than 16 bytes more. */
  predicate GoodAnswer(c: Crypto, answer: seq<byte>, nonce: Nonce, serverNonce: Nonce)
    requires CryptoOk(c)
  {
    && |answer| >= 20 && c.fetchInner(answer[20..]).Some?
    && var (inner, pad) := c.fetchInner(answer[20..]).value;
    && pad < 16 && answer[..20] == c.sha1(answer[20..|answer| - pad])
    && inner.nonce == nonce && inner.serverNonce == serverNonce
  }

  /** A second response with both nonces, outside and inside, and an intact answer. */
  predicate GoodDhParams(c: Crypto, message: seq<byte>, nonce: Nonce, serverNonce: Nonce, newNonce: NewNonce)
    requires CryptoOk(c)
  {
    && c.fetchDhParams(message).Some?
    && var m := c.fetchDhParams(message).value;
    && m.nonce == nonce && m.serverNonce == serverNonce && |m.encryptedAnswer| % 16 == 0
    && GoodAnswer(c, c.decrypt(serverNonce, newNonce, m.encryptedAnswer), nonce, serverNonce)
  }

  /** The server's parameters in it. */
  function InnerOf(c: Crypto, message: seq<byte>, nonce: Nonce, serverNonce: Nonce, newNonce: NewNonce): Inner
    requires CryptoOk(c) && GoodDhParams(c, message, nonce, serverNonce, newNonce)
  {
    c.fetchInner(c.decrypt(serverNonce, newNonce, c.fetchDhParams(message).value.encryptedAnswer)[20..]).value.0
  }

  /** The parameters pass all checks, and so does the client's own power. */
  predicate GoodGroup(c: Crypto, inner: Inner, exponent: nat) {
    var p := Dh.FromBinary(inner.prime);
    && p > 0 && Dh.CheckFresh(c.isPrime, inner.g, p) == Dh.Ok
    && Dh.InRange(p, Dh.FromBinary(inner.gA)) && Dh.InRange(p, Dh.PowerMod(inner.g, exponent, p))
  }

  function ClientPower(inner: Inner, exponent: nat): seq<byte>
    requires Dh.FromBinary(inner.prime) > 0
  {
    Dh.ToBinary(Dh.PowerMod(inner.g, exponent, Dh.FromBinary(inner.prime)))
  }

  /** The client's power behind its hash, filled up to whole blocks. */
  function ClientAnswer(c: Crypto, nonce: Nonce, serverNonce: Nonce, gB: seq<byte>, filler: Filler): (r: seq<byte>)
    ensures |r| % 16 == 0
  {
    var data := c.storeSecret(ClientDhInnerData(nonce, serverNonce, gB));
    c.sha1(data) + data + filler[..(16 - (20 + |data|) % 16) % 16]
  }

  function ThirdRequest(c: Crypto, nonce: Nonce, serverNonce: Nonce, newNonce: NewNonce, gB: seq<byte>, filler: Filler): Request {
    SetClientDhParams(nonce, serverNonce, c.encrypt(serverNonce, newNonce, ClientAnswer(c, nonce, serverNonce, gB, filler)))
  }

  /** A third response that confirms the key. */
  predicate GoodGen(c: Crypto, message: seq<byte>, nonce: Nonce, serverNonce: Nonce, newNonce: NewNonce, key: seq<byte>) {
    c.fetchGenAnswer(message) == Some(GenOk(nonce, serverNonce, Confirmation(c.sha1, newNonce, key)))
  }

  // ---------- the state and its history ----------

  datatype State = Start | WaitResPq | WaitDhParams | WaitGenResponse | Finish

  predicate Waiting(s: State) {
    s in {WaitResPq, WaitDhParams, WaitGenResponse}
  }

  /** The start and the accepted messages since, with what the client chose when it accepted them. */
  datatype Event =
    | Started(nonce: Nonce)
    | SawResPq(message: seq<byte>, newNonce: NewNonce, at: real)
    | SawDhParams(message: seq<byte>, exponent: nat)
    | SawGenOk(message: seq<byte>)

  /** What the client holds. */
  datatype Facts = Facts(nonce: Nonce, serverNonce: Nonce, newNonce: NewNonce, expiresAt: real, key: AuthKey, serverSalt: nat)

  /** The key agreed from the server's parameters. */
  ghost predicate KeyFrom(c: Crypto, key: seq<byte>, inner: Inner, exponent: nat) {
    && GoodGroup(c, inner, exponent) && |key| == 256
    && var p := Dh.FromBinary(inner.prime);
    Dh.FromBinary(key) == Dh.PowerMod(Dh.FromBinary(inner.gA), exponent, p)
  }

  /** The first response fixed the server nonce; the new nonce and the expiry were chosen then. */
  ghost predicate ResPqSeen(c: Crypto, g: Config, log: seq<Event>, f: Facts) {
    && |log| >= 2 && log[0] == Started(f.nonce) && log[1].SawResPq?
    && GoodResPq(c, g, log[1].message, f.nonce, f.newNonce) && f.newNonce == log[1].newNonce
    && f.serverNonce == c.fetchResPq(log[1].message).value.serverNonce
    && (g.mode == Temp ==> f.expiresAt == log[1].at + g.expiresIn as real)
  }

  /** The second response determined the key and everything kept with it. */
  ghost predicate DhParamsSeen(c: Crypto, g: Config, log: seq<Event>, f: Facts)
    requires CryptoOk(c)
  {
    && |log| >= 3 && log[2].SawDhParams? && GoodDhParams(c, log[2].message, f.nonce, f.serverNonce, f.newNonce)
    && var inner := InnerOf(c, log[2].message, f.nonce, f.serverNonce, f.newNonce);
    && KeyFrom(c, f.key.bytes, inner, log[2].exponent)
    && f.key == NewKey(c, g, f.key.bytes, f.expiresAt, inner)
    && f.serverSalt == Salt(f.serverNonce, f.newNonce)
  }

  /** The history each state stands for. */
  ghost predicate Consistent(c: Crypto, g: Config, s: State, log: seq<Event>, f: Facts)
    requires CryptoOk(c)
  {
    match s
    case Start => log == []
    case WaitResPq => log == [Started(f.nonce)]
    case WaitDhParams => |log| == 2 && ResPqSeen(c, g, log, f)
    case WaitGenResponse => |log| == 3 && ResPqSeen(c, g, log, f) && DhParamsSeen(c, g, log, f)
    case Finish =>
      && |log| == 4 && ResPqSeen(c, g, log, f) && DhParamsSeen(c, g, log, f)
      && log[3].SawGenOk? && GoodGen(c, log[3].message, f.nonce, f.serverNonce, f.newNonce, f.key.bytes)
  }

  /** The key with everything that is kept beside it. */
  function NewKey(c: Crypto, g: Config, bytes: seq<byte>, expiresAt: real, inner: Inner): AuthKey {
    AuthKey(KeyId(c.sha1, bytes), bytes, if g.mode == Temp then expiresAt else 0.0, inner.serverTime as real)
  }

  lemma ResPqStep(c: Crypto, g: Config, log: seq<Event>, f: Facts, h: Facts, message: seq<byte>, at: real)
    requires CryptoOk(c) && Consistent(c, g, WaitResPq, log, f) && GoodResPq(c, g, message, f.nonce, h.newNonce)
    requires h.nonce == f.nonce && h.serverNonce == c.fetchResPq(message).value.serverNonce
    requires g.mode == Temp ==> h.expiresAt == at + g.expiresIn as real
    ensures Consistent(c, g, WaitDhParams, log + [SawResPq(message, h.newNonce, at)], h)
  {
  }

  lemma DhParamsStep(c: Crypto, g: Config, log: seq<Event>, f: Facts, bytes: seq<byte>, message: seq<byte>, exponent: nat)
    requires CryptoOk(c) && Consistent(c, g, WaitDhParams, log, f)
    requires GoodDhParams(c, message, f.nonce, f.serverNonce, f.newNonce)
    requires KeyFrom(c, bytes, InnerOf(c, message, f.nonce, f.serverNonce, f.newNonce), exponent)
    ensures var inner := InnerOf(c, message, f.nonce, f.serverNonce, f.newNonce);
            Consistent(c, g, WaitGenResponse, log + [SawDhParams(message, exponent)],
                       f.(key := NewKey(c, g, bytes, f.expiresAt, inner), serverSalt := Salt(f.serverNonce, f.newNonce)))
  {
    hide CryptoOk, GoodResPq, GoodDhParams, InnerOf, KeyFrom, KeyId, Salt;
    var more := log + [SawDhParams(message, exponent)];
    assert more[0] == log[0] && more[1] == log[1];
  }

  lemma GenOkStep(c: Crypto, g: Config, log: seq<Event>, f: Facts, message: seq<byte>)
    requires CryptoOk(c) && Consistent(c, g, WaitGenResponse, log, f)
    requires GoodGen(c, message, f.nonce, f.serverNonce, f.newNonce, f.key.bytes)
    ensures Consistent(c, g, Finish, log + [SawGenOk(message)], f)
  {
    hide CryptoOk, GoodResPq, GoodDhParams, InnerOf, KeyFrom, KeyId, Salt, GoodGen;
    var more := log + [SawGenOk(message)];
    assert more[0] == log[0] && more[1] == log[1] && more[2] == log[2];
  }

  // ---------- acceptance ----------

  /** Responses are answered within six and eight tenths of the timeout; a confirmation may come at any time. */
  predicate InTime(s: State, now: real, startTime: real, timeoutIn: real) {
    match s
    case WaitResPq => now < startTime + timeoutIn * 0.6
    case WaitDhParams => now < startTime + timeoutIn * 0.8
    case _ => true
  }

  /** The message a waiting client accepts. */
  predicate Good(c: Crypto, g: Config, s: State, f: Facts, message: seq<byte>, d: Draws)
    requires CryptoOk(c)
  {
    match s
    case WaitResPq => GoodResPq(c, g, message, f.nonce, d.newNonce)
    case WaitDhParams =>
      && GoodDhParams(c, message, f.nonce, f.serverNonce, f.newNonce)
      && GoodGroup(c, InnerOf(c, message, f.nonce, f.serverNonce, f.newNonce), d.exponent)
    case WaitGenResponse => GoodGen(c, message, f.nonce, f.serverNonce, f.newNonce, f.key.bytes)
    case _ => false
  }

  function NextState(s: State): State {
    match s
    case WaitResPq => WaitDhParams
    case WaitDhParams => WaitGenResponse
    case _ => Finish
  }

  function EventOf(s: State, message: seq<byte>, d: Draws, now: real): Event {
    match s
    case WaitResPq => SawResPq(message, d.newNonce, now)
    case WaitDhParams => SawDhParams(message, d.exponent)
    case _ => SawGenOk(message)
  }

  /** What is sent in answer to an accepted message. */
  function Reply(c: Crypto, g: Config, s: State, f: Facts, message: seq<byte>, d: Draws): Option<Request>
    requires CryptoOk(c) && Good(c, g, s, f, message, d)
  {
    match s
    case WaitResPq => Some(SecondRequest(c, g, message, f.nonce, d.newNonce, d.sealing))
    case WaitDhParams =>
      var inner := InnerOf(c, message, f.nonce, f.serverNonce, f.newNonce);
      Some(ThirdRequest(c, f.nonce, f.serverNonce, f.newNonce, ClientPower(inner, d.exponent), d.filler))
    case _ => None
  }

  /** The last request is the one the state waits for, and its bytes are kept. */
  predicate Pending(c: Crypto, s: State, requests: seq<Request>, nonce: Nonce, serverNonce: Nonce, lastQuery: seq<byte>) {
    && requests != [] && lastQuery == c.store(requests[|requests| - 1])
    && var r := requests[|requests| - 1];
    match s
    case WaitResPq => r == ReqPq(nonce)
    case WaitDhParams => r.ReqDhParams? && r.nonce == nonce && r.serverNonce == serverNonce
    case WaitGenResponse => r.SetClientDhParams? && r.nonce == nonce && r.serverNonce == serverNonce
    case _ => true
  }

  datatype Status =
    | Ok | Timeout | BadMessage | NonceMismatch | ServerNonceMismatch | NoRsaKey | NotFactored | TooBig
    | BadPadding | BadAnswer | TooMuchPad | AnswerHashMismatch | BadDh | NewNonceHashMismatch | GenFailed | GenRetried
    | CalledAfterStart

  /** The connection of the moment. */
  class Connection {
    var sent: seq<seq<byte>>
  }

  class AuthKeyHandshake {
    const crypto: Crypto
    const config: Config

    var state: State
    var expiresAt: real
    var startTime: real
    var timeoutIn: real
    var key: AuthKey
    var serverTimeDiff: real
    var serverSalt: nat
    var nonce: Nonce
    var serverNonce: Nonce
    var newNonce: NewNonce
    var lastQuery: seq<byte>

    /** The start and the messages accepted since. */
    ghost var log: seq<Event>
    /** The requests handed to connections. */
    ghost var requests: seq<Request>

    ghost function Held(): Facts
      reads this
    {
      Facts(nonce, serverNonce, newNonce, expiresAt, key, serverSalt)
    }

    ghost predicate Valid()
      reads this
    {
      && CryptoOk(crypto)
      && Consistent(crypto, config, state, log, Held())
      && (Waiting(state) ==> Pending(crypto, state, requests, nonce, serverNonce, lastQuery))
    }

    constructor (c: Crypto, dc: int32, expires: int32, now: real)
      requires CryptoOk(c)
      ensures Valid() && state == Start && crypto == c && startTime == now && timeoutIn == 1000000000.0
      ensures config == Config(if expires == 0 then Main else Temp, dc, expires)
    {
      crypto, config := c, Config(if expires == 0 then Main else Temp, dc, expires);
      state, startTime, timeoutIn, lastQuery, key := Start, now, 1000000000.0, [], AuthKey(0, [], 0.0, 0.0);
      expiresAt, serverTimeDiff, serverSalt := 0.0, 0.0, 0;
      nonce, serverNonce, newNonce := seq(16, _ => 0), seq(16, _ => 0), seq(32, _ => 0);
      log, requests := [], [];
    }

    method SetTimeoutIn(timeout: real, now: real)
      requires Valid()
      modifies this`startTime, this`timeoutIn
      ensures Valid() && startTime == now && timeoutIn == timeout
    {
      hide Consistent;
      startTime, timeoutIn := now, timeout;
    }

    method Clear(now: real)
      requires CryptoOk(crypto)
      modifies this`lastQuery, this`state, this`startTime, this`timeoutIn, this`log
      ensures Valid() && state == Start && log == [] && lastQuery == [] && startTime == now && timeoutIn == 1000000000.0
    {
      lastQuery, state, startTime, timeoutIn := [], Start, now, 1000000000.0;
      log := [];
    }

    /** send and do_send. */
    method Send(connection: Connection, request: Request)
      modifies this`lastQuery, this`requests, connection
      ensures lastQuery == crypto.store(request) && requests == old(requests) + [request]
      ensures connection.sent == old(connection.sent) + [crypto.store(request)]
    {
      lastQuery := crypto.store(request);
      connection.sent := connection.sent + [lastQuery];
      requests := requests + [request];
    }

    method OnStart(connection: Connection, randomNonce: Nonce, now: real) returns (status: Status)
      requires Valid()
      modifies this`state, this`nonce, this`lastQuery, this`requests, this`log, this`startTime, this`timeoutIn, connection
      ensures Valid()
      ensures old(state) == Start ==>
                && status == Ok && state == WaitResPq && nonce == randomNonce && log == [Started(randomNonce)]
                && startTime == old(startTime) && timeoutIn == old(timeoutIn)
                && connection.sent == old(connection.sent) + [crypto.store(ReqPq(randomNonce))]
      ensures old(state) != Start ==> status == CalledAfterStart && state == Start && unchanged(connection)
    {
      hide ResPqSeen, DhParamsSeen;
      if state != Start {
        Clear(now);
        return CalledAfterStart;
      }
      nonce := randomNonce;
      log := [Started(randomNonce)];
      Send(connection, ReqPq(nonce));
      state := WaitResPq;
      return Ok;
    }

    /** resume. In a waiting state exactly the last query is sent again and nothing else changes. */
    method Resume(connection: Connection, randomNonce: Nonce, now: real)
      requires Valid()
      modifies this`state, this`nonce, this`lastQuery, this`requests, this`log, this`startTime, this`timeoutIn, connection
      ensures Valid()
      ensures Waiting(old(state)) ==>
                && old(requests) != [] && crypto.store(old(requests)[|old(requests)| - 1]) != []
                && connection.sent == old(connection.sent) + [crypto.store(old(requests)[|old(requests)| - 1])]
                && requests == old(requests) + [old(requests)[|old(requests)| - 1]]
                && state == old(state) && nonce == old(nonce) && log == old(log) && lastQuery == old(lastQuery)
                && startTime == old(startTime) && timeoutIn == old(timeoutIn)
      ensures old(state) == Start ==> state == WaitResPq && connection.sent == old(connection.sent) + [crypto.store(ReqPq(randomNonce))]
      ensures old(state) == Finish ==> state == Start && unchanged(connection)
    {
      hide Consistent;
      if state == Start {
        var _ := OnStart(connection, randomNonce, now);
        return;
      }
      if state == Finish {
        Clear(now);
        return;
      }
      if lastQuery == [] {
        assert false;
        return;
      }
      connection.sent := connection.sent + [lastQuery];
      requests := requests + [requests[|requests| - 1]];
    }

    /** Checks the first response, adopts its server nonce and prepares the second request. */
    method AnswerResPq(message: seq<byte>, d: Draws, now: real) returns (status: Status, request: Option<Request>)
      modifies this`serverNonce, this`newNonce, this`expiresAt
      ensures status == Ok <==> InTime(WaitResPq, now, startTime, timeoutIn) && GoodResPq(crypto, config, message, nonce, d.newNonce)
      ensures status == Ok ==>
                && request == Some(SecondRequest(crypto, config, message, nonce, d.newNonce, d.sealing))
                && serverNonce == crypto.fetchResPq(message).value.serverNonce && newNonce == d.newNonce
                && expiresAt == if config.mode == Temp then now + config.expiresIn as real else old(expiresAt)
    {
      if now >= startTime + timeoutIn * 0.6 {
        return Timeout, None;
      }
      var fetched := crypto.fetchResPq(message);
      if fetched.None? {
        return BadMessage, None;
      }
      var m := fetched.value;
      if m.nonce != nonce {
        return NonceMismatch, None;
      }
      serverNonce := m.serverNonce;
      var rsaKey := crypto.pickKey(m.fingerprints);
      if rsaKey.None? {
        return NoRsaKey, None;
      }
      var factors := crypto.factorize(m.pq);
      if factors.None? {
        return NotFactored, None;
      }
      var (p, q) := factors.value;
      newNonce := d.newNonce;
      var secret;
      match config.mode {
        case Main => secret := PqInnerData(m.pq, p, q, nonce, serverNonce, newNonce, config.dc);
        case Temp =>
          secret := PqInnerDataTemp(m.pq, p, q, nonce, serverNonce, newNonce, config.dc, config.expiresIn);
          expiresAt := now + config.expiresIn as real;
      }
      var data := crypto.storeSecret(secret);
      if |data| > 144 {
        return TooBig, None;
      }
      var encrypted := crypto.seal(rsaKey.value, data, d.sealing);
      return Ok, Some(ReqDhParams(nonce, serverNonce, p, q, rsaKey.value, encrypted));
    }

    /** The first response: it must echo the nonce; it fixes the server nonce. */
    method OnResPq(message: seq<byte>, connection: Connection, d: Draws, now: real) returns (status: Status)
      requires Valid() && state == WaitResPq
      modifies this`state, this`serverNonce, this`newNonce, this`expiresAt, this`lastQuery, this`requests, this`log,
               connection
      ensures status == Ok <==> InTime(WaitResPq, now, startTime, timeoutIn) && GoodResPq(crypto, config, message, nonce, d.newNonce)
      ensures status == Ok ==>
                && Valid() && state == WaitDhParams && log == old(log) + [SawResPq(message, d.newNonce, now)]
                && connection.sent == old(connection.sent) +
                     [crypto.store(SecondRequest(crypto, config, message, nonce, d.newNonce, d.sealing))]
      ensures status != Ok ==> unchanged(connection) && state == WaitResPq
    {
      hide CryptoOk, Consistent, GoodResPq;
      var request;
      status, request := AnswerResPq(message, d, now);
      if status == Ok {
        ResPqStep(crypto, config, log, old(Held()), Held(), message, now);
        Send(connection, request.value);
        log := log + [SawResPq(message, d.newNonce, now)];
        state := WaitDhParams;
      }
    }

    /** Decrypts the second response and compares its hash and its nonces. */
    method OpenAnswer(message: seq<byte>) returns (status: Status, inner: Option<Inner>)
      requires CryptoOk(crypto)
      ensures status == Ok <==> GoodDhParams(crypto, message, nonce, serverNonce, newNonce)
      ensures status == Ok ==> inner == Some(InnerOf(crypto, message, nonce, serverNonce, newNonce))
    {
      var fetched := crypto.fetchDhParams(message);
      if fetched.None? {
        return BadMessage, None;
      }
      var m := fetched.value;
      if m.nonce != nonce {
        return NonceMismatch, None;
      }
      if m.serverNonce != serverNonce {
        return ServerNonceMismatch, None;
      }
      if |m.encryptedAnswer| % 16 != 0 {
        return BadPadding, None;
      }
      var answer := crypto.decrypt(serverNonce, newNonce, m.encryptedAnswer);
      if |answer| < 20 {
        return BadAnswer, None;
      }
      var parsed := crypto.fetchInner(answer[20..]);
      if parsed.None? {
        return BadAnswer, None;
      }
      var (data, pad) := parsed.value;
      if pad >= 16 {
        return TooMuchPad, None;
      }
      if answer[..20] != crypto.sha1(answer[20..|answer| - pad]) {
        return AnswerHashMismatch, None;
      }
      if data.nonce != nonce {
        return NonceMismatch, None;
      }
      if data.serverNonce != serverNonce {
        return ServerNonceMismatch, None;
      }
      return Ok, Some(data);
    }

    /** Runs the key agreement on the server's parameters. A zero modulus stops the program inside BN_mod_exp. */
    method Agree(inner: Inner, exponent: nat, callback: Dh.Callback?)
      returns (gB: seq<byte>, id: nat, agreed: Option<seq<byte>>)
      requires callback != null ==> Dh.CacheTrue(crypto.isPrime, callback.cache)
      modifies callback
      ensures callback != null ==> Dh.CacheTrue(crypto.isPrime, callback.cache)
      ensures agreed.Some? <==> GoodGroup(crypto, inner, exponent)
      ensures agreed.Some? ==>
                && KeyFrom(crypto, agreed.value, inner, exponent) && id == KeyId(crypto.sha1, agreed.value)
                && gB == ClientPower(inner, exponent)
    {
      gB := [];
      if Dh.FromBinary(inner.prime) == 0 {
        return gB, 0, None;
      }
      var side := new Dh.Side();
      side.SetConfig(inner.g, inner.prime, exponent);
      side.SetGA(crypto.sha256, inner.gA);
      var checked := side.RunChecks(crypto.isPrime, false, callback);
      if checked != Dh.Ok {
        return gB, 0, None;
      }
      gB := side.GetGB();
      var sha1 := crypto.sha1;
      Dh.KeyFits(Dh.PowerMod(side.gA, side.b, side.prime), side.prime);
      var keyId, shared := side.GenKey(k => KeyId(sha1, k));
      return gB, keyId, Some(shared);
    }

    /** Checks the second response, agrees on a key and prepares the third request. */
    method AnswerDhParams(message: seq<byte>, callback: Dh.Callback?, d: Draws, now: real)
      returns (status: Status, request: Option<Request>, agreed: AuthKey)
      requires CryptoOk(crypto)
      requires callback != null ==> Dh.CacheTrue(crypto.isPrime, callback.cache)
      modifies this`serverTimeDiff, callback
      ensures callback != null ==> Dh.CacheTrue(crypto.isPrime, callback.cache)
      ensures status == Ok <==>
              && InTime(WaitDhParams, now, startTime, timeoutIn) && GoodDhParams(crypto, message, nonce, serverNonce, newNonce)
              && GoodGroup(crypto, InnerOf(crypto, message, nonce, serverNonce, newNonce), d.exponent)
      ensures status == Ok ==>
                var inner := InnerOf(crypto, message, nonce, serverNonce, newNonce);
                && request == Some(ThirdRequest(crypto, nonce, serverNonce, newNonce, ClientPower(inner, d.exponent), d.filler))
                && KeyFrom(crypto, agreed.bytes, inner, d.exponent)
                && agreed == NewKey(crypto, config, agreed.bytes, expiresAt, inner)
                && serverTimeDiff == inner.serverTime as real - now
    {
      hide CryptoOk, GoodDhParams, InnerOf, GoodGroup, KeyFrom, KeyId, ClientPower, ClientAnswer;
      request, agreed := None, AuthKey(0, [], 0.0, 0.0);
      if now >= startTime + timeoutIn * 0.8 {
        status := Timeout;
        return;
      }
      var answer;
      status, answer := OpenAnswer(message);
      if status != Ok {
        return;
      }
      var inner := answer.value;
      serverTimeDiff := inner.serverTime as real - now;
      var gB, id, shared := Agree(inner, d.exponent, callback);
      if shared.None? {
        status := BadDh;
        return;
      }
      var encrypted := crypto.encrypt(serverNonce, newNonce, ClientAnswer(crypto, nonce, serverNonce, gB, d.filler));
      request := Some(SetClientDhParams(nonce, serverNonce, encrypted));
      agreed := AuthKey(id, shared.value, if config.mode == Temp then expiresAt else 0.0, inner.serverTime as real);
    }

    /** The second response: both nonces, the answer's hash and the agreement must hold. */
    method OnServerDhParams(message: seq<byte>, connection: Connection, callback: Dh.Callback?, d: Draws, now: real)
      returns (status: Status)
      requires Valid() && state == WaitDhParams
      requires callback != null ==> Dh.CacheTrue(crypto.isPrime, callback.cache)
      modifies this`state, this`serverTimeDiff, this`serverSalt, this`key, this`lastQuery, this`requests,
               this`log, connection, callback
      ensures callback != null ==> Dh.CacheTrue(crypto.isPrime, callback.cache)
      ensures status == Ok <==>
              && InTime(WaitDhParams, now, startTime, timeoutIn) && GoodDhParams(crypto, message, nonce, serverNonce, newNonce)
              && GoodGroup(crypto, InnerOf(crypto, message, nonce, serverNonce, newNonce), d.exponent)
      ensures status == Ok ==>
                && Valid() && state == WaitGenResponse && log == old(log) + [SawDhParams(message, d.exponent)]
                && var inner := InnerOf(crypto, message, nonce, serverNonce, newNonce);
                && connection.sent == old(connection.sent) +
                     [crypto.store(ThirdRequest(crypto, nonce, serverNonce, newNonce, ClientPower(inner, d.exponent), d.filler))]
                && serverTimeDiff == inner.serverTime as real - now
      ensures status != Ok ==> unchanged(connection) && state == WaitDhParams
    {
      hide CryptoOk, Consistent, GoodDhParams, InnerOf, GoodGroup, KeyFrom, NewKey, Salt, ClientPower;
      var request, agreed;
      status, request, agreed := AnswerDhParams(message, callback, d, now);
      if status == Ok {
        DhParamsStep(crypto, config, log, Held(), agreed.bytes, message, d.exponent);
        AdoptKey(connection, request.value, agreed, SawDhParams(message, d.exponent));
      }
    }

    /** Sends the third request and keeps the key until the server confirms it. */
    method AdoptKey(connection: Connection, request: Request, agreed: AuthKey, ghost event: Event)
      requires CryptoOk(crypto) && request.SetClientDhParams?
      requires request.nonce == nonce && request.serverNonce == serverNonce
      requires Consistent(crypto, config, WaitGenResponse, log + [event],
                          Held().(key := agreed, serverSalt := Salt(serverNonce, newNonce)))
      modifies this`state, this`key, this`serverSalt, this`lastQuery, this`requests, this`log, connection
      ensures Valid() && state == WaitGenResponse && log == old(log) + [event]
      ensures connection.sent == old(connection.sent) + [crypto.store(request)]
    {
      hide CryptoOk, Consistent, Salt;
      Send(connection, request);
      key, serverSalt, state := agreed, Salt(serverNonce, newNonce), WaitGenResponse;
      log := log + [event];
    }

    /** The third response confirms the key by its hash. */
    method OnDhGenResponse(message: seq<byte>) returns (status: Status)
      requires Valid() && state == WaitGenResponse
      modifies this`state, this`log
      ensures status == Ok <==> GoodGen(crypto, message, nonce, serverNonce, newNonce, key.bytes)
      ensures status == Ok ==> Valid() && state == Finish && log == old(log) + [SawGenOk(message)]
      ensures status != Ok ==> state == WaitGenResponse
    {
      hide CryptoOk, Consistent, Confirmation;
      var fetched := crypto.fetchGenAnswer(message);
      if fetched.None? {
        return BadMessage;
      }
      match fetched.value
      case GenFail => return GenFailed;
      case GenRetry => return GenRetried;
      case GenOk(n, s, hash) =>
        if n != nonce {
          return NonceMismatch;
        }
        if s != serverNonce {
          return ServerNonceMismatch;
        }
        if hash != Confirmation(crypto.sha1, newNonce, key.bytes) {
          return NewNonceHashMismatch;
        }
        GenOkStep(crypto, config, log, Held(), message);
        log := log + [SawGenOk(message)];
        state := Finish;
        return Ok;
    }

    /** on_message: a good response in time is accepted, answered and reaches the next state; any other starts over. */
    method OnMessage(message: seq<byte>, connection: Connection, callback: Dh.Callback?, d: Draws, now: real)
      returns (status: Status)
      requires Valid() && Waiting(state)
      requires callback != null ==> Dh.CacheTrue(crypto.isPrime, callback.cache)
      modifies this, connection, callback
      ensures Valid()
      ensures callback != null ==> Dh.CacheTrue(crypto.isPrime, callback.cache)
      ensures nonce == old(nonce)
      ensures old(state) != WaitResPq ==> serverNonce == old(serverNonce) && newNonce == old(newNonce) && expiresAt == old(expiresAt)
      ensures old(state) == WaitGenResponse ==> Held() == old(Held())
      ensures status == Ok <==> InTime(old(state), now, old(startTime), old(timeoutIn)) &&
                                Good(crypto, config, old(state), old(Held()), message, d)
      ensures status == Ok ==>
                && state == NextState(old(state)) && log == old(log) + [EventOf(old(state), message, d, now)]
                && startTime == old(startTime) && timeoutIn == old(timeoutIn)
                && var reply := Reply(crypto, config, old(state), old(Held()), message, d);
                connection.sent == old(connection.sent) + if reply.Some? then [crypto.store(reply.value)] else []
      ensures status != Ok ==> state == Start && log == [] && unchanged(connection)
    {
      hide CryptoOk, Consistent, Pending, GoodResPq, SecondRequest, GoodDhParams, InnerOf, GoodGroup, ThirdRequest, ClientPower, GoodGen;
      match state {
        case WaitResPq => status := OnResPq(message, connection, d, now);
        case WaitDhParams => status := OnServerDhParams(message, connection, callback, d, now);
        case WaitGenResponse => status := OnDhGenResponse(message);
      }
      if status != Ok {
        Clear(now);
      }
    }

    /** is_ready_for_finish, with what being ready means. */
    method IsReadyForFinish() returns (ready: bool)
      requires Valid()
      ensures ready <==> state == Finish
      ensures ready ==>
                && |log| == 4 && ResPqSeen(crypto, config, log, Held()) && DhParamsSeen(crypto, config, log, Held())
                && log[3].SawGenOk? && GoodGen(crypto, log[3].message, nonce, serverNonce, newNonce, key.bytes)
    {
      return state == Finish;
    }
  }

  // ---------- a server that follows the protocol ----------

  datatype Server = Server(serverNonce: Nonce, g: nat, prime: seq<byte>, a: nat, time: int32)

  /** Its parameters, with its own power g^a. */
  function Offer(sv: Server, nonce: Nonce): Inner
    requires Dh.FromBinary(sv.prime) > 0
  {
    Inner(nonce, sv.serverNonce, sv.g, sv.prime, Dh.ToBinary(Dh.PowerMod(sv.g, sv.a, Dh.FromBinary(sv.prime))), sv.time)
  }

  /** It echoes the client's nonce. */
  ghost predicate SendsResPq(c: Crypto, message: seq<byte>, nonce: Nonce, sv: Server) {
    && c.fetchResPq(message).Some?
    && c.fetchResPq(message).value.nonce == nonce && c.fetchResPq(message).value.serverNonce == sv.serverNonce
  }

  /** It sends the hash of its stored parameters, the parameters and the filling, in whole blocks that the client can decrypt. */
  ghost predicate SendsDhParams(c: Crypto, message: seq<byte>, nonce: Nonce, newNonce: NewNonce, sv: Server,
                                data: seq<byte>, filling: seq<byte>)
  {
    && Dh.FromBinary(sv.prime) > 0 && c.fetchDhParams(message).Some?
    && var m := c.fetchDhParams(message).value;
    && m.nonce == nonce && m.serverNonce == sv.serverNonce && |m.encryptedAnswer| % 16 == 0
    && c.decrypt(sv.serverNonce, newNonce, m.encryptedAnswer) == c.sha1(data) + data + filling
    && |filling| < 16 && c.fetchInner(data + filling) == Some((Offer(sv, nonce), |filling|))
  }

  /** The key it derives from the client's power. */
  function ServerKey(sv: Server, gB: seq<byte>): seq<byte>
    requires Dh.FromBinary(sv.prime) > 0 && Dh.NumBits(Dh.FromBinary(sv.prime)) <= 2048
  {
    var p := Dh.FromBinary(sv.prime);
    var shared := Dh.PowerMod(Dh.FromBinary(gB), sv.a, p);
    Dh.KeyFits(shared, p);
    Dh.ToBinaryExact(shared, 256)
  }

  lemma HonestAnswerIsGood(c: Crypto, message: seq<byte>, nonce: Nonce, newNonce: NewNonce, sv: Server,
                           data: seq<byte>, filling: seq<byte>)
    requires CryptoOk(c) && SendsDhParams(c, message, nonce, newNonce, sv, data, filling)
    ensures Dh.FromBinary(sv.prime) > 0 && GoodDhParams(c, message, nonce, sv.serverNonce, newNonce)
    ensures InnerOf(c, message, nonce, sv.serverNonce, newNonce) == Offer(sv, nonce)
  {
    var answer := c.sha1(data) + data + filling;
    assert answer[20..] == data + filling;
    assert answer[..20] == c.sha1(data);
    assert answer[20..|answer| - |filling|] == data;
  }

  /** The key the server derives from the client's power. */
  function AgreedKey(sv: Server, nonce: Nonce, exponent: nat): seq<byte>
    requires Dh.FromBinary(sv.prime) > 0 && Dh.NumBits(Dh.FromBinary(sv.prime)) <= 2048
  {
    ServerKey(sv, ClientPower(Offer(sv, nonce), exponent))
  }

  /** It is the key the client holds, and g^(ab) mod p. */
  ghost predicate SharedBy(key: seq<byte>, sv: Server, nonce: Nonce, exponent: nat) {
    && Dh.FromBinary(sv.prime) > 0 && Dh.NumBits(Dh.FromBinary(sv.prime)) <= 2048
    && key == AgreedKey(sv, nonce, exponent)
    && Dh.FromBinary(key) == Dh.PowerMod(sv.g, sv.a * exponent, Dh.FromBinary(sv.prime))
  }

  /** Client and server hold the same 256 bytes. */
  lemma SameKey(c: Crypto, sv: Server, nonce: Nonce, key: seq<byte>, exponent: nat)
    requires Dh.FromBinary(sv.prime) > 0 && KeyFrom(c, key, Offer(sv, nonce), exponent)
    ensures SharedBy(key, sv, nonce, exponent)
  {
    hide Dh.InRange, Dh.GoodModulus;
    var p := Dh.FromBinary(sv.prime);
    var gA, gB := Dh.PowerMod(sv.g, sv.a, p), Dh.PowerMod(sv.g, exponent, p);
    Dh.BinaryRoundTrip(gA);
    Dh.BinaryRoundTrip(gB);
    Dh.PowersAgree(sv.g, sv.a, exponent, p);
    Dh.SharedPower(sv.g, sv.a, exponent, p);
    var shared := Dh.PowerMod(gB, sv.a, p);
    Dh.KeyFits(shared, p);
    Dh.ExactRoundTrip(shared, 256);
    Dh.BinaryInjective(key, Dh.ToBinaryExact(shared, 256));
  }

  lemma AfterFirst(c: Crypto, g: Config, log: seq<Event>, f: Facts, nonce: Nonce, message: seq<byte>, newNonce: NewNonce, at: real)
    requires CryptoOk(c) && Consistent(c, g, WaitDhParams, log, f)
    requires log == [Started(nonce)] + [SawResPq(message, newNonce, at)]
    ensures f.nonce == nonce && f.newNonce == newNonce && c.fetchResPq(message).Some?
    ensures f.serverNonce == c.fetchResPq(message).value.serverNonce
  {
    assert log[1] == SawResPq(message, newNonce, at);
  }

  lemma AfterSecond(c: Crypto, g: Config, log: seq<Event>, f: Facts, nonce: Nonce, first: seq<byte>, newNonce: NewNonce,
                    at: real, second: seq<byte>, exponent: nat)
    requires CryptoOk(c) && Consistent(c, g, WaitGenResponse, log, f)
    requires log == [Started(nonce)] + [SawResPq(first, newNonce, at)] + [SawDhParams(second, exponent)]
    ensures f.nonce == nonce && f.newNonce == newNonce && c.fetchResPq(first).Some?
    ensures f.serverNonce == c.fetchResPq(first).value.serverNonce
    ensures GoodDhParams(c, second, nonce, f.serverNonce, newNonce)
    ensures KeyFrom(c, f.key.bytes, InnerOf(c, second, nonce, f.serverNonce, newNonce), exponent)
  {
    assert log[1] == SawResPq(first, newNonce, at) && log[2] == SawDhParams(second, exponent);
  }

  /**
   The three messages of a server that follows the protocol, for the client's random numbers d: it knows
   one of the client's keys, both powers are in range, and it confirms the key it derived itself.
   */
  ghost predicate Honest(c: Crypto, g: Config, sv: Server, nonce: Nonce, d: Draws,
                         messages: (seq<byte>, seq<byte>, seq<byte>), data: seq<byte>, filling: seq<byte>)
  {
    && SendsResPq(c, messages.0, nonce, sv) && GoodResPq(c, g, messages.0, nonce, d.newNonce)
    && SendsDhParams(c, messages.1, nonce, d.newNonce, sv, data, filling)
    && GoodGroup(c, Offer(sv, nonce), d.exponent)
    && GoodGen(c, messages.2, nonce, sv.serverNonce, d.newNonce, AgreedKey(sv, nonce, d.exponent))
  }

  /** What the server is sent meanwhile; the third request carries the client's power. */
  ghost function HonestRequests(c: Crypto, g: Config, sv: Server, nonce: Nonce, d: Draws,
                                messages: (seq<byte>, seq<byte>, seq<byte>), data: seq<byte>, filling: seq<byte>): seq<seq<byte>>
    requires Honest(c, g, sv, nonce, d, messages, data, filling)
  {
    var gB := ClientPower(Offer(sv, nonce), d.exponent);
    [c.store(ReqPq(nonce)),
     c.store(SecondRequest(c, g, messages.0, nonce, d.newNonce, d.sealing)),
     c.store(ThirdRequest(c, nonce, sv.serverNonce, d.newNonce, gB, d.filler))]
  }

  lemma HonestFirst(c: Crypto, g: Config, sv: Server, nonce: Nonce, d: Draws,
                    messages: (seq<byte>, seq<byte>, seq<byte>), data: seq<byte>, filling: seq<byte>)
    requires CryptoOk(c) && Honest(c, g, sv, nonce, d, messages, data, filling)
    ensures GoodResPq(c, g, messages.0, nonce, d.newNonce)
    ensures c.fetchResPq(messages.0).Some? && c.fetchResPq(messages.0).value.serverNonce == sv.serverNonce
  {
  }

  lemma HonestSecond(c: Crypto, g: Config, sv: Server, nonce: Nonce, d: Draws,
                     messages: (seq<byte>, seq<byte>, seq<byte>), data: seq<byte>, filling: seq<byte>)
    requires CryptoOk(c) && Honest(c, g, sv, nonce, d, messages, data, filling)
    ensures GoodDhParams(c, messages.1, nonce, sv.serverNonce, d.newNonce) && Dh.FromBinary(sv.prime) > 0
    ensures InnerOf(c, messages.1, nonce, sv.serverNonce, d.newNonce) == Offer(sv, nonce)
    ensures GoodGroup(c, Offer(sv, nonce), d.exponent)
  {
    HonestAnswerIsGood(c, messages.1, nonce, d.newNonce, sv, data, filling);
  }

  lemma HonestThird(c: Crypto, g: Config, sv: Server, nonce: Nonce, d: Draws,
                    messages: (seq<byte>, seq<byte>, seq<byte>), data: seq<byte>, filling: seq<byte>, key: seq<byte>)
    requires CryptoOk(c) && Honest(c, g, sv, nonce, d, messages, data, filling)
    requires KeyFrom(c, key, Offer(sv, nonce), d.exponent)
    ensures SharedBy(key, sv, nonce, d.exponent)
    ensures GoodGen(c, messages.2, nonce, sv.serverNonce, d.newNonce, key)
  {
    hide GoodGroup, GoodGen, SendsResPq, GoodResPq, KeyFrom, ServerKey, Dh.PowerMod;
    SameKey(c, sv, nonce, key, d.exponent);
  }

  /** The timely answers of such a server lead to Finish, and both sides hold the same key. */
  method HonestRun(h: AuthKeyHandshake, connection: Connection, callback: Dh.Callback?, sv: Server, nonce: Nonce, d: Draws,
                   messages: (seq<byte>, seq<byte>, seq<byte>), times: (real, real, real),
                   ghost data: seq<byte>, ghost filling: seq<byte>)
    requires h.Valid() && h.state == Start
    requires callback != null ==> Dh.CacheTrue(h.crypto.isPrime, callback.cache)
    requires Honest(h.crypto, h.config, sv, nonce, d, messages, data, filling)
    requires InTime(WaitResPq, times.0, h.startTime, h.timeoutIn) && InTime(WaitDhParams, times.1, h.startTime, h.timeoutIn)
    modifies h, connection, callback
    ensures h.Valid() && h.state == Finish
    ensures SharedBy(h.key.bytes, sv, nonce, d.exponent)
    ensures connection.sent ==
            old(connection.sent) + HonestRequests(h.crypto, h.config, sv, nonce, d, messages, data, filling)
  {
    hide CryptoOk, Consistent, Pending, Honest, SharedBy, Offer, GoodResPq, SecondRequest, GoodDhParams, InnerOf, GoodGroup, KeyFrom, ThirdRequest, ClientPower, GoodGen;
    var c, g := h.crypto, h.config;
    HonestFirst(c, g, sv, nonce, d, messages, data, filling);
    HonestSecond(c, g, sv, nonce, d, messages, data, filling);
    var status := h.OnStart(connection, nonce, times.0);
    status := h.OnMessage(messages.0, connection, callback, d, times.0);
    AfterFirst(c, g, h.log, h.Held(), nonce, messages.0, d.newNonce, times.0);
    status := h.OnMessage(messages.1, connection, callback, d, times.1);
    AfterSecond(c, g, h.log, h.Held(), nonce, messages.0, d.newNonce, times.0, messages.1, d.exponent);
    HonestThird(c, g, sv, nonce, d, messages, data, filling, h.key.bytes);
    status := h.OnMessage(messages.2, connection, callback, d, times.2);
  }
}

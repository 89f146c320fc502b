/**
 QueueBenchmark of benchmark/bench_queue.cpp: the client sends one numbered query
 per connection, the server echoes it, the client sends the next number, until every
 connection has been answered `queries` times. The two queues are the FIFOs of
 module BufferQueue; the two threads interleave freely between queue operations.
 */
module EchoProtocol {
  const NUMBERS: nat := 0x100_0000

  /** Connection number in the top byte, query number in the low three. */
  function Co(value: int): int { value / NUMBERS }
  function No(value: int): nat { value % NUMBERS }

  /** Parameters: 1 to 128 connections, so that values fit an int, and fewer than 2^24 queries. */
  datatype Config = Config(connections: nat, queries: int)

  predicate WfConfig(g: Config) {
    1 <= g.connections <= 128 && g.queries < NUMBERS
  }

  /** Answers per connection: the first query is sent whatever `queries` is. */
  function Rounds(g: Config): nat {
    if g.queries < 1 then 1 else g.queries
  }

  /**
   Each side's counters (conn, active_connections), the value it has taken from its queue
   but not processed yet (zero or one element), and the client's initial loop index.
   */
  datatype Side = Side(conn: seq<nat>, active: int, hold: seq<int>)
  datatype State = State(toServer: seq<int>, toClient: seq<int>, server: Side, client: Side, sent: nat)

  datatype Step = ClientSend | ClientGet | ClientProcess | ServerGet | ServerProcess

  function Start(g: Config): State {
    var side := Side(seq(g.connections, _ => 0), g.connections, []);
    State([], [], side, side, 0)
  }

  /** Blocking gets are enabled only when a value is there; a loop stops when nothing is active. */
  predicate CanDo(g: Config, s: State, step: Step) {
    match step
    case ClientSend => s.sent < g.connections
    case ClientGet => s.sent == g.connections && s.client.active > 0 && s.client.hold == [] && s.toClient != []
    case ClientProcess => s.client.hold != []
    case ServerGet => s.server.active > 0 && s.server.hold == [] && s.toServer != []
    case ServerProcess => s.server.hold != []
  }

  /** The two CHECKs on a value a side is about to process. */
  predicate ChecksHold(g: Config, side: Side, value: int) {
    0 <= Co(value) < g.connections && Co(value) < |side.conn| && No(value) == side.conn[Co(value)]
  }

  /** `no == conn[co]++`, and the connection retires after its last number. */
  function Count(g: Config, side: Side, value: int): Side
    requires ChecksHold(g, side, value)
  {
    Side(side.conn[Co(value) := No(value) + 1],
         if No(value) + 1 >= g.queries then side.active - 1 else side.active,
         [])
  }

  function Do(g: Config, s: State, step: Step): State
    requires CanDo(g, s, step)
    requires step.ClientProcess? ==> ChecksHold(g, s.client, s.client.hold[0])
    requires step.ServerProcess? ==> ChecksHold(g, s.server, s.server.hold[0])
  {
    match step
    case ClientSend => s.(toServer := s.toServer + [s.sent * NUMBERS], sent := s.sent + 1)
    case ClientGet => s.(toClient := s.toClient[1..], client := s.client.(hold := [s.toClient[0]]))
    case ServerGet => s.(toServer := s.toServer[1..], server := s.server.(hold := [s.toServer[0]]))
    case ClientProcess =>
      var value := s.client.hold[0];
      s.(client := Count(g, s.client, value),
         toServer := if No(value) + 1 < g.queries then s.toServer + [value + 1] else s.toServer)
    case ServerProcess =>
      var value := s.server.hold[0];
      s.(server := Count(g, s.server, value), toClient := s.toClient + [value])
  }

  // ---------- counting ----------

  function One(b: bool): nat { if b then 1 else 0 }

  /** Values of connection c in a queue. */
  function Occ(q: seq<int>, c: int): nat {
    if q == [] then 0 else One(Co(q[0]) == c) + Occ(q[1..], c)
  }

  function Sum(conn: seq<nat>): nat {
    if conn == [] then 0 else conn[0] + Sum(conn[1..])
  }

  function Below(conn: seq<nat>, k: nat): nat {
    if conn == [] then 0 else One(conn[0] < k) + Below(conn[1..], k)
  }

  lemma {:induction false} OccAppend(q: seq<int>, v: int, c: int)
    ensures Occ(q + [v], c) == Occ(q, c) + One(Co(v) == c)
  {
    if q != [] {
      assert (q + [v])[1..] == q[1..] + [v];
      OccAppend(q[1..], v, c);
    }
  }

  lemma OccHold(hold: seq<int>, c: int)
    requires |hold| <= 1
    ensures Occ(hold, c) == if hold == [] then 0 else One(Co(hold[0]) == c)
  {
    assert hold != [] ==> hold[1..] == [];
  }

  lemma {:induction false} OccIn(q: seq<int>, v: int)
    requires v in q
    ensures Occ(q, Co(v)) > 0
  {
    if v != q[0] {
      OccIn(q[1..], v);
    }
  }

  lemma {:induction false} SumUpdate(conn: seq<nat>, i: nat, x: nat)
    requires i < |conn|
    ensures Sum(conn[i := x]) == Sum(conn) - conn[i] + x
  {
    if i > 0 {
      assert conn[i := x][1..] == conn[1..][i - 1 := x];
      SumUpdate(conn[1..], i - 1, x);
    }
  }

  lemma {:induction false} SumBound(conn: seq<nat>, k: nat)
    requires forall c: nat | c < |conn| :: conn[c] <= k
    ensures Sum(conn) <= |conn| * k
  {
    if conn != [] {
      SumBound(conn[1..], k);
      assert |conn| * k == (|conn| - 1) * k + k;
    }
  }

  lemma {:induction false} SumFull(conn: seq<nat>, k: nat)
    requires forall c: nat | c < |conn| :: conn[c] == k
    ensures Sum(conn) == |conn| * k
  {
    if conn != [] {
      SumFull(conn[1..], k);
      assert |conn| * k == (|conn| - 1) * k + k;
    }
  }

  lemma {:induction false} BelowUpdate(conn: seq<nat>, i: nat, x: nat, k: nat)
    requires i < |conn|
    ensures Below(conn[i := x], k) == Below(conn, k) - One(conn[i] < k) + One(x < k)
  {
    if i > 0 {
      assert conn[i := x][1..] == conn[1..][i - 1 := x];
      BelowUpdate(conn[1..], i - 1, x, k);
    }
  }

  lemma {:induction false} BelowZero(conn: seq<nat>, k: nat)
    ensures Below(conn, k) == 0 <==> forall c: nat | c < |conn| :: conn[c] >= k
  {
    if conn != [] {
      BelowZero(conn[1..], k);
      if Below(conn, k) == 0 {
        assert forall c: nat | c < |conn| :: c == 0 || conn[c] == conn[1..][c - 1];
      } else if conn[0] >= k {
        var c: nat :| c < |conn| - 1 && conn[1..][c] < k;
        assert conn[c + 1] < k;
      }
    }
  }

  // ---------- the invariant ----------

  /** Where the token of connection c is, counted over all places it can be. */
  function Tokens(s: State, c: nat): nat {
    Occ(s.toServer, c) + Occ(s.server.hold, c) + Occ(s.toClient, c) + Occ(s.client.hold, c)
  }

  predicate Shape(g: Config, s: State) {
    && |s.server.conn| == |s.client.conn| == g.connections && s.sent <= g.connections
    && |s.server.hold| <= 1 && |s.client.hold| <= 1
    && s.server.active == Below(s.server.conn, Rounds(g))
    && s.client.active == Below(s.client.conn, Rounds(g))
  }

  /** A query on its way to the server carries the number both sides expect. */
  predicate IsQuery(g: Config, s: State, v: int) {
    && 0 <= Co(v) < g.connections && Co(v) < |s.server.conn| && Co(v) < |s.client.conn|
    && s.server.conn[Co(v)] == s.client.conn[Co(v)] == No(v) && No(v) < Rounds(g)
  }

  /** An answer on its way back carries the number the client expects and the server has passed. */
  predicate IsAnswer(g: Config, s: State, v: int) {
    && 0 <= Co(v) < g.connections && Co(v) < |s.server.conn| && Co(v) < |s.client.conn|
    && s.client.conn[Co(v)] == No(v) && s.server.conn[Co(v)] == No(v) + 1 && No(v) < Rounds(g)
  }

  predicate ValuesOk(g: Config, s: State) {
    && (forall v | v in s.toServer :: IsQuery(g, s, v))
    && (forall v | v in s.server.hold :: IsQuery(g, s, v))
    && (forall v | v in s.toClient :: IsAnswer(g, s, v))
    && (forall v | v in s.client.hold :: IsAnswer(g, s, v))
  }

  /** Connection c has exactly one token from its first query until its last answer. */
  predicate TokenOk(g: Config, s: State, c: nat)
    requires c < |s.server.conn| && c < |s.client.conn|
  {
    && Tokens(s, c) == One(c < s.sent && s.client.conn[c] < Rounds(g))
    && (c >= s.sent ==> s.client.conn[c] == s.server.conn[c] == 0)
    && s.client.conn[c] <= s.server.conn[c] <= Rounds(g)
    && (Tokens(s, c) == 0 && c < s.sent ==> s.client.conn[c] == s.server.conn[c] == Rounds(g))
  }

  predicate Inv(g: Config, s: State) {
    && Shape(g, s)
    && ValuesOk(g, s)
    && forall c: nat | c < g.connections :: TokenOk(g, s, c)
  }

  /** Steps still to come: every step takes exactly one off. */
  function Remaining(g: Config, s: State): int {
    (g.connections - s.sent) + 4 * (g.connections * Rounds(g))
    - 2 * Sum(s.server.conn) - 2 * Sum(s.client.conn) - |s.server.hold| - |s.client.hold|
  }

  // ---------- every step keeps it ----------

  lemma ValueParts(co: nat, no: nat)
    requires no < NUMBERS
    ensures Co(co * NUMBERS + no) == co && No(co * NUMBERS + no) == no
  {
  }

  lemma NextValue(v: int)
    requires No(v) + 1 < NUMBERS
    ensures Co(v + 1) == Co(v) && No(v + 1) == No(v) + 1
  {
  }

  lemma StartInv(g: Config)
    requires WfConfig(g)
    ensures Inv(g, Start(g)) && Remaining(g, Start(g)) == g.connections + 4 * (g.connections * Rounds(g))
  {
    ZeroCounts(g.connections, Rounds(g));
  }

  lemma {:induction false} ZeroCounts(n: nat, k: nat)
    requires k > 0
    ensures Sum(seq(n, _ => 0)) == 0 && Below(seq(n, _ => 0), k) == n
  {
    if n > 0 {
      assert seq<nat>(n, _ => 0)[1..] == seq<nat>(n - 1, _ => 0);
      ZeroCounts(n - 1, k);
    }
  }

  lemma SendKeeps(g: Config, s: State)
    requires WfConfig(g) && Inv(g, s) && CanDo(g, s, ClientSend)
    ensures Inv(g, Do(g, s, ClientSend)) && Remaining(g, Do(g, s, ClientSend)) == Remaining(g, s) - 1
  {
    var s' := Do(g, s, ClientSend);
    var value := s.sent * NUMBERS;
    ValueParts(s.sent, 0);
    assert TokenOk(g, s, s.sent);
    forall c: nat | c < g.connections
      ensures TokenOk(g, s', c)
    {
      assert TokenOk(g, s, c);
      OccAppend(s.toServer, value, c);
    }
    assert IsQuery(g, s', value);
    forall v | v in s'.toServer
      ensures IsQuery(g, s', v)
    {
      assert v == value || v in s.toServer;
    }
  }

  lemma ServerGetKeeps(g: Config, s: State)
    requires WfConfig(g) && Inv(g, s) && CanDo(g, s, ServerGet)
    ensures Inv(g, Do(g, s, ServerGet)) && Remaining(g, Do(g, s, ServerGet)) == Remaining(g, s) - 1
  {
    var s' := Do(g, s, ServerGet);
    forall c: nat | c < g.connections
      ensures TokenOk(g, s', c)
    {
      assert TokenOk(g, s, c);
      OccHold(s'.server.hold, c);
    }
    assert s.toServer[0] in s.toServer;
    assert IsQuery(g, s', s.toServer[0]);
    assert forall v | v in s'.toServer :: v in s.toServer;
  }

  lemma ClientGetKeeps(g: Config, s: State)
    requires WfConfig(g) && Inv(g, s) && CanDo(g, s, ClientGet)
    ensures Inv(g, Do(g, s, ClientGet)) && Remaining(g, Do(g, s, ClientGet)) == Remaining(g, s) - 1
  {
    var s' := Do(g, s, ClientGet);
    forall c: nat | c < g.connections
      ensures TokenOk(g, s', c)
    {
      assert TokenOk(g, s, c);
      OccHold(s'.client.hold, c);
    }
    assert s.toClient[0] in s.toClient;
    assert IsAnswer(g, s', s.toClient[0]);
    assert forall v | v in s'.toClient :: v in s.toClient;
  }

  /** The held value is the only token of its connection. */
  lemma OnlyToken(g: Config, s: State, co: nat)
    requires Inv(g, s) && co < g.connections
    requires (s.server.hold != [] && Co(s.server.hold[0]) == co) || (s.client.hold != [] && Co(s.client.hold[0]) == co)
    ensures Tokens(s, co) == 1
    ensures forall v | v in s.toServer || v in s.toClient :: Co(v) != co
    ensures s.server.hold != [] && s.client.hold != [] ==> Co(s.server.hold[0]) != Co(s.client.hold[0])
  {
    assert TokenOk(g, s, co);
    forall v | v in s.toServer || v in s.toClient
      ensures Co(v) != co
    {
      if Co(v) == co {
        if v in s.toServer { OccIn(s.toServer, v); } else { OccIn(s.toClient, v); }
      }
    }
  }

  lemma ServerChecks(g: Config, s: State)
    requires Inv(g, s) && s.server.hold != []
    ensures ChecksHold(g, s.server, s.server.hold[0])
  {
    assert s.server.hold[0] in s.server.hold;
  }

  lemma ClientChecks(g: Config, s: State)
    requires Inv(g, s) && s.client.hold != []
    ensures ChecksHold(g, s.client, s.client.hold[0])
  {
    assert s.client.hold[0] in s.client.hold;
  }

  /** Counting one value on a side: the counters stay right. */
  lemma CountKeeps(g: Config, side: Side, value: int)
    requires WfConfig(g) && ChecksHold(g, side, value) && |side.conn| == g.connections && No(value) < Rounds(g)
    requires side.active == Below(side.conn, Rounds(g))
    ensures Count(g, side, value).active == Below(Count(g, side, value).conn, Rounds(g))
    ensures Sum(Count(g, side, value).conn) == Sum(side.conn) + 1
  {
    SumUpdate(side.conn, Co(value), No(value) + 1);
    BelowUpdate(side.conn, Co(value), No(value) + 1, Rounds(g));
  }

  lemma ServerProcessTokens(g: Config, s: State)
    requires WfConfig(g) && Inv(g, s) && s.server.hold != [] && ChecksHold(g, s.server, s.server.hold[0])
    ensures forall c: nat | c < g.connections :: TokenOk(g, Do(g, s, ServerProcess), c)
  {
    var s' := Do(g, s, ServerProcess);
    var value := s.server.hold[0];
    assert IsQuery(g, s, value);
    forall c: nat | c < g.connections
      ensures TokenOk(g, s', c)
    {
      assert TokenOk(g, s, c);
      OccHold(s.server.hold, c);
      OccAppend(s.toClient, value, c);
    }
  }

  lemma ServerProcessKeeps(g: Config, s: State)
    requires WfConfig(g) && Inv(g, s) && s.server.hold != [] && ChecksHold(g, s.server, s.server.hold[0])
    ensures Inv(g, Do(g, s, ServerProcess))
    ensures Remaining(g, Do(g, s, ServerProcess)) == Remaining(g, s) - 1
  {
    var s' := Do(g, s, ServerProcess);
    var value := s.server.hold[0];
    assert IsQuery(g, s, value);
    OnlyToken(g, s, Co(value));
    CountKeeps(g, s.server, value);
    ServerProcessTokens(g, s);
    forall v | v in s'.toClient
      ensures IsAnswer(g, s', v)
    {
      assert v == value || v in s.toClient;
    }
  }

  lemma ClientProcessTokens(g: Config, s: State)
    requires WfConfig(g) && Inv(g, s) && s.client.hold != [] && ChecksHold(g, s.client, s.client.hold[0])
    ensures forall c: nat | c < g.connections :: TokenOk(g, Do(g, s, ClientProcess), c)
  {
    var s' := Do(g, s, ClientProcess);
    var value := s.client.hold[0];
    assert IsAnswer(g, s, value);
    forall c: nat | c < g.connections
      ensures TokenOk(g, s', c)
    {
      assert TokenOk(g, s, c);
      OccHold(s.client.hold, c);
      if No(value) + 1 < g.queries {
        NextValue(value);
        OccAppend(s.toServer, value + 1, c);
      }
    }
  }

  lemma ClientProcessKeeps(g: Config, s: State)
    requires WfConfig(g) && Inv(g, s) && s.client.hold != [] && ChecksHold(g, s.client, s.client.hold[0])
    ensures Inv(g, Do(g, s, ClientProcess))
    ensures Remaining(g, Do(g, s, ClientProcess)) == Remaining(g, s) - 1
  {
    var s' := Do(g, s, ClientProcess);
    var value := s.client.hold[0];
    assert IsAnswer(g, s, value);
    OnlyToken(g, s, Co(value));
    CountKeeps(g, s.client, value);
    ClientProcessTokens(g, s);
    forall v | v in s'.toServer
      ensures IsQuery(g, s', v)
    {
      if v !in s.toServer {
        NextValue(value);
      }
    }
  }

  // ---------- runs ----------

  /** The step is possible and no CHECK in it fails. */
  predicate Passes(g: Config, s: State, step: Step) {
    && CanDo(g, s, step)
    && (step.ClientProcess? ==> ChecksHold(g, s.client, s.client.hold[0]))
    && (step.ServerProcess? ==> ChecksHold(g, s.server, s.server.hold[0]))
  }

  /** No CHECK can fail, every connection keeps its one token, and each step uses up one of a fixed number. */
  lemma StepKeeps(g: Config, s: State, step: Step)
    requires WfConfig(g) && Inv(g, s) && CanDo(g, s, step)
    ensures Passes(g, s, step)
    ensures Inv(g, Do(g, s, step)) && Remaining(g, Do(g, s, step)) == Remaining(g, s) - 1
  {
    match step
    case ClientSend => SendKeeps(g, s);
    case ClientGet => ClientGetKeeps(g, s);
    case ServerGet => ServerGetKeeps(g, s);
    case ClientProcess =>
      ClientChecks(g, s);
      ClientProcessKeeps(g, s);
    case ServerProcess =>
      ServerChecks(g, s);
      ServerProcessKeeps(g, s);
  }

  /** The state after a sequence of steps; a failed CHECK would stop everything where it is. */
  function StateAfter(g: Config, steps: seq<Step>): State {
    if steps == [] then Start(g)
    else
      var s, step := StateAfter(g, steps[..|steps| - 1]), steps[|steps| - 1];
      if Passes(g, s, step) then Do(g, s, step) else s
  }

  /** An interleaving of client_run and server_run: each step was possible when it was taken. */
  predicate IsRun(g: Config, steps: seq<Step>) {
    steps == [] ||
    (IsRun(g, steps[..|steps| - 1]) && CanDo(g, StateAfter(g, steps[..|steps| - 1]), steps[|steps| - 1]))
  }

  lemma {:induction false} RunKeeps(g: Config, steps: seq<Step>)
    requires WfConfig(g) && IsRun(g, steps)
    ensures Inv(g, StateAfter(g, steps))
    ensures Remaining(g, StateAfter(g, steps)) == g.connections + 4 * (g.connections * Rounds(g)) - |steps|
    ensures forall step | CanDo(g, StateAfter(g, steps), step) :: Passes(g, StateAfter(g, steps), step)
  {
    if steps == [] {
      StartInv(g);
    } else {
      var before := steps[..|steps| - 1];
      RunKeeps(g, before);
      StepKeeps(g, StateAfter(g, before), steps[|steps| - 1]);
    }
    forall step | CanDo(g, StateAfter(g, steps), step)
      ensures Passes(g, StateAfter(g, steps), step)
    {
      StepKeeps(g, StateAfter(g, steps), step);
    }
  }

  predicate Finished(s: State) {
    s.client.active == 0 && s.server.active == 0 && s.client.hold == [] && s.server.hold == []
  }

  lemma ActiveIf(g: Config, side: Side, c: nat)
    requires side.active == Below(side.conn, Rounds(g)) && c < |side.conn| && side.conn[c] < Rounds(g)
    ensures side.active > 0
  {
    BelowZero(side.conn, Rounds(g));
  }

  /** No deadlock: when nothing can move, both sides have stopped and every connection is done. */
  lemma NoDeadlock(g: Config, s: State)
    requires WfConfig(g) && Inv(g, s) && forall step :: !CanDo(g, s, step)
    ensures Finished(s) && s.sent == g.connections && s.toServer == [] && s.toClient == []
    ensures forall c: nat | c < g.connections :: s.client.conn[c] == s.server.conn[c] == Rounds(g)
  {
    assert !CanDo(g, s, ClientSend) && !CanDo(g, s, ClientProcess) && !CanDo(g, s, ServerProcess);
    assert !CanDo(g, s, ClientGet) && !CanDo(g, s, ServerGet);
    if s.toClient != [] {
      assert s.toClient[0] in s.toClient;
      ActiveIf(g, s.client, Co(s.toClient[0]));
    }
    if s.toServer != [] {
      assert s.toServer[0] in s.toServer;
      ActiveIf(g, s.server, Co(s.toServer[0]));
    }
    forall c: nat | c < g.connections
      ensures s.client.conn[c] == s.server.conn[c] == Rounds(g)
    {
      assert TokenOk(g, s, c);
    }
    BelowZero(s.client.conn, Rounds(g));
    BelowZero(s.server.conn, Rounds(g));
  }

  lemma RemainingFinished(g: Config, s: State)
    requires Inv(g, s) && Finished(s) && s.sent == g.connections
    requires forall c: nat | c < g.connections :: s.client.conn[c] == s.server.conn[c] == Rounds(g)
    ensures Remaining(g, s) == 0
  {
    SumFull(s.client.conn, Rounds(g));
    SumFull(s.server.conn, Rounds(g));
  }

  /**
   Termination: no run is longer than connections + 4 * connections * rounds steps, and a
   run that cannot be continued has exactly that length and has answered everything.
   */
  lemma RunTerminates(g: Config, steps: seq<Step>)
    requires WfConfig(g) && IsRun(g, steps)
    ensures |steps| <= g.connections + 4 * (g.connections * Rounds(g))
    ensures (forall step :: !CanDo(g, StateAfter(g, steps), step)) ==>
              && |steps| == g.connections + 4 * (g.connections * Rounds(g))
              && Finished(StateAfter(g, steps))
              && StateAfter(g, steps).client.conn == seq(g.connections, _ => Rounds(g))
  {
    RunKeeps(g, steps);
    var s := StateAfter(g, steps);
    RemainingNonNegative(g, s);
    if forall step :: !CanDo(g, s, step) {
      NoDeadlock(g, s);
      RemainingFinished(g, s);
    }
  }

  lemma RemainingNonNegative(g: Config, s: State)
    requires WfConfig(g) && Inv(g, s)
    ensures Remaining(g, s) >= 0
  {
    forall c: nat | c < g.connections
      ensures s.client.conn[c] <= Rounds(g) && s.server.conn[c] <= Rounds(g)
    {
      assert TokenOk(g, s, c);
    }
    assert s.server.hold != [] ==> s.server.hold[0] in s.server.hold;
    assert s.client.hold != [] ==> s.client.hold[0] in s.client.hold;
    SideRoom(g, s.server);
    SideRoom(g, s.client);
  }

  /** A side that holds a value has at least one answer to go. */
  lemma SideRoom(g: Config, side: Side)
    requires |side.conn| == g.connections && |side.hold| <= 1
    requires forall c: nat | c < g.connections :: side.conn[c] <= Rounds(g)
    requires side.hold != [] ==> 0 <= Co(side.hold[0]) < g.connections && side.conn[Co(side.hold[0])] < Rounds(g)
    ensures Sum(side.conn) + |side.hold| <= g.connections * Rounds(g)
  {
    SumBound(side.conn, Rounds(g));
    if side.hold != [] {
      var c := Co(side.hold[0]);
      SumUpdate(side.conn, c, side.conn[c] + 1);
      SumBound(side.conn[c := side.conn[c] + 1], Rounds(g));
    }
  }

  // ---------- queue occupancy ----------

  function OccBelow(q: seq<int>, n: nat): nat {
    if n == 0 then 0 else Occ(q, n - 1) + OccBelow(q, n - 1)
  }

  lemma {:induction false} OccBelowCons(q: seq<int>, n: nat)
    requires q != []
    ensures OccBelow(q, n) == OccBelow(q[1..], n) + One(0 <= Co(q[0]) < n)
  {
    if n > 0 {
      OccBelowCons(q, n - 1);
    }
  }

  lemma {:induction false} OccBelowIsLength(q: seq<int>, n: nat)
    requires forall v | v in q :: 0 <= Co(v) < n
    ensures OccBelow(q, n) == |q|
  {
    if q == [] {
      OccBelowEmpty(n);
    } else {
      assert q[0] in q;
      OccBelowCons(q, n);
      OccBelowIsLength(q[1..], n);
    }
  }

  lemma {:induction false} OccBelowEmpty(n: nat)
    ensures OccBelow([], n) == 0
  {
    if n > 0 {
      OccBelowEmpty(n - 1);
    }
  }

  lemma {:induction false} OccBelowBound(q: seq<int>, n: nat)
    requires forall c: nat | c < n :: Occ(q, c) <= 1
    ensures OccBelow(q, n) <= n
  {
    if n > 0 {
      OccBelowBound(q, n - 1);
    }
  }

  lemma {:induction false} OccConcat(p: seq<int>, q: seq<int>, c: int)
    ensures Occ(p + q, c) == Occ(p, c) + Occ(q, c)
  {
    if p == [] {
      assert p + q == q;
    } else {
      OccConcat(p[1..], q, c);
      assert (p + q)[1..] == p[1..] + q;
    }
  }

  /** All values under way, queued or held: at most one per connection. */
  lemma TokensBounded(g: Config, s: State)
    requires Inv(g, s)
    ensures |s.toServer| + |s.server.hold| + |s.toClient| + |s.client.hold| <= g.connections
  {
    var up, down := s.toServer + s.server.hold, s.toClient + s.client.hold;
    forall c: nat | c < g.connections
      ensures Occ(up + down, c) <= 1
    {
      assert TokenOk(g, s, c);
      OccConcat(s.toServer, s.server.hold, c);
      OccConcat(s.toClient, s.client.hold, c);
      OccConcat(up, down, c);
    }
    OccBelowBound(up + down, g.connections);
    OccBelowIsLength(up + down, g.connections);
  }

  /** In every run the values queued and the values taken but not yet processed are at most one per connection. */
  lemma QueuesNeverOverflow(g: Config, steps: seq<Step>)
    requires WfConfig(g) && IsRun(g, steps)
    ensures var s := StateAfter(g, steps);
            |s.toServer| + |s.server.hold| + |s.toClient| + |s.client.hold| <= g.connections
  {
    RunKeeps(g, steps);
    TokensBounded(g, StateAfter(g, steps));
  }
}

/**
 The echo protocol over the rings themselves: client and server of benchmark/bench_queue.cpp
 with every put and get taken apart into the ring operations it consists of. Client and
 server each hold the writing end of one ring and the reading end of the other.
 */
module EchoOverRings {
  import opened Bytes
  import opened EchoProtocol
  import Ring = BufferQueue

  /** Between operations, between put_unsafe and flush_writer, or between get_unsafe and flush_reader. */
  datatype Pc = Ready | Flushing | Releasing

  /** The protocol state, the operations done so far on the ring to the server and on the one to the client. */
  datatype Joint = Joint(echo: State, a: seq<Ring.Step>, b: seq<Ring.Step>, client: Pc, server: Pc)

  datatype Act =
    | ClientPuts | ClientRefreshes | ClientFlushes | ClientPolls | ClientGets | ClientReleases | ClientDrops
    | ServerPuts | ServerRefreshes | ServerFlushes | ServerPolls | ServerGets | ServerReleases

  /** The initial contents of both rings. */
  datatype Memory = Memory(a: seq<int>, b: seq<int>)

  predicate WfMemory(q: Memory) {
    |q.a| == Ring.SIZE && |q.b| == Ring.SIZE
  }

  function RingA(q: Memory, j: Joint): (r: Ring.Ring)
    requires WfMemory(q)
    ensures Ring.WfRing(r)
  {
    Ring.After(q.a, j.a)
  }

  function RingB(q: Memory, j: Joint): (r: Ring.Ring)
    requires WfMemory(q)
    ensures Ring.WfRing(r)
  {
    Ring.After(q.b, j.b)
  }

  // ---------- what each thread does next ----------

  predicate ClientWantsPut(g: Config, e: State) {
    e.sent < g.connections || (e.client.hold != [] && No(e.client.hold[0]) + 1 < g.queries)
  }

  predicate ClientWantsGet(g: Config, e: State) {
    e.sent == g.connections && e.client.active > 0 && e.client.hold == []
  }

  predicate ServerWantsGet(e: State) {
    e.server.active > 0 && e.server.hold == []
  }

  /** The value a thread puts next. */
  function ClientValue(g: Config, e: State): int
    requires ClientWantsPut(g, e)
  {
    if e.sent < g.connections then e.sent * NUMBERS else e.client.hold[0] + 1
  }

  predicate CanAct(g: Config, q: Memory, j: Joint, act: Act)
    requires WfMemory(q)
  {
    match act
    case ClientPuts => j.client == Ready && ClientWantsPut(g, j.echo) && !Ring.WriterEmpty(RingA(q, j))
    case ClientRefreshes => j.client == Ready && ClientWantsPut(g, j.echo) && Ring.WriterEmpty(RingA(q, j))
    case ClientFlushes => j.client == Flushing
    case ClientPolls => j.client == Ready && ClientWantsGet(g, j.echo) && Ring.ReaderEmpty(RingB(q, j))
    case ClientGets => j.client == Ready && ClientWantsGet(g, j.echo) && !Ring.ReaderEmpty(RingB(q, j))
    case ClientReleases => j.client == Releasing
    case ClientDrops => j.client == Ready && j.echo.client.hold != [] && No(j.echo.client.hold[0]) + 1 >= g.queries
    case ServerPuts => j.server == Ready && j.echo.server.hold != [] && !Ring.WriterEmpty(RingB(q, j))
    case ServerRefreshes => j.server == Ready && j.echo.server.hold != [] && Ring.WriterEmpty(RingB(q, j))
    case ServerFlushes => j.server == Flushing
    case ServerPolls => j.server == Ready && ServerWantsGet(j.echo) && Ring.ReaderEmpty(RingA(q, j))
    case ServerGets => j.server == Ready && ServerWantsGet(j.echo) && !Ring.ReaderEmpty(RingA(q, j))
    case ServerReleases => j.server == Releasing
  }

  /** The protocol step an act stands for, if any: values enter a queue with put_unsafe and leave it with get_unsafe. */
  function EchoStep(g: Config, e: State, act: Act): Option<Step> {
    match act
    case ClientPuts => Some(if e.sent < g.connections then ClientSend else ClientProcess)
    case ClientDrops => Some(ClientProcess)
    case ClientGets => Some(ClientGet)
    case ServerPuts => Some(ServerProcess)
    case ServerGets => Some(ServerGet)
    case _ => None
  }

  /** The operation on the ring to the server. */
  function OnA(g: Config, e: State, act: Act): Option<Ring.Step> {
    match act
    case ClientPuts => if ClientWantsPut(g, e) then Some(Ring.Put(ClientValue(g, e))) else None
    case ClientRefreshes => Some(Ring.UpdateWriter)
    case ClientFlushes => Some(Ring.FlushWriter)
    case ServerPolls => Some(Ring.UpdateReader)
    case ServerGets => Some(Ring.Get)
    case ServerReleases => Some(Ring.FlushReader)
    case _ => None
  }

  /** The operation on the ring to the client. */
  function OnB(e: State, act: Act): Option<Ring.Step> {
    match act
    case ServerPuts => if e.server.hold != [] then Some(Ring.Put(e.server.hold[0])) else None
    case ServerRefreshes => Some(Ring.UpdateWriter)
    case ServerFlushes => Some(Ring.FlushWriter)
    case ClientPolls => Some(Ring.UpdateReader)
    case ClientGets => Some(Ring.Get)
    case ClientReleases => Some(Ring.FlushReader)
    case _ => None
  }

  function NextPc(act: Act, client: bool, pc: Pc): Pc {
    match act
    case ClientPuts => if client then Flushing else pc
    case ClientFlushes => if client then Ready else pc
    case ClientGets => if client then Releasing else pc
    case ClientReleases => if client then Ready else pc
    case ServerPuts => if client then pc else Flushing
    case ServerFlushes => if client then pc else Ready
    case ServerGets => if client then pc else Releasing
    case ServerReleases => if client then pc else Ready
    case _ => pc
  }

  function More(steps: seq<Ring.Step>, step: Option<Ring.Step>): seq<Ring.Step> {
    if step.Some? then steps + [step.value] else steps
  }

  /** A failed CHECK would leave the protocol state as it is; it never fails. */
  function Perform(g: Config, j: Joint, act: Act): Joint {
    var step := EchoStep(g, j.echo, act);
    Joint(if step.Some? && Passes(g, j.echo, step.value) then Do(g, j.echo, step.value) else j.echo,
          More(j.a, OnA(g, j.echo, act)), More(j.b, OnB(j.echo, act)),
          NextPc(act, true, j.client), NextPc(act, false, j.server))
  }

  // ---------- how a ring carries a queue ----------

  /**
   The values put and not taken are the queue. All are published unless the writer is about to
   flush, and all taken ones are released except the one the reader has just taken and holds.
   */
  predicate Carries(f: Ring.Fifo, queue: seq<int>, hold: seq<int>, writer: Pc, reader: Pc) {
    && f.got <= |f.put| && f.put[f.got..] == queue
    && (writer != Flushing ==> f.published == |f.put|)
    && (f.released == f.got || (reader == Releasing && f.got == f.released + 1 && hold != []))
  }

  predicate JointInv(g: Config, q: Memory, j: Joint)
    requires WfMemory(q)
  {
    && WfConfig(g) && Inv(g, j.echo)
    && Ring.IsRun(q.a, j.a) && Ring.IsRun(q.b, j.b)
    && Carries(Ring.FifoAfter(j.a), j.echo.toServer, j.echo.server.hold, j.client, j.server)
    && Carries(Ring.FifoAfter(j.b), j.echo.toClient, j.echo.client.hold, j.server, j.client)
  }

  /** One more enabled operation is one more step of the run and of its FIFO. */
  lemma RunMore(q: seq<int>, steps: seq<Ring.Step>, step: Ring.Step)
    requires |q| == Ring.SIZE && Ring.IsRun(q, steps) && Ring.Enabled(Ring.After(q, steps), step)
    ensures Ring.IsRun(q, steps + [step])
    ensures Ring.FifoAfter(steps + [step]) == Ring.FifoExec(Ring.FifoAfter(steps), step)
  {
    assert (steps + [step])[..|steps|] == steps;
  }

  lemma CarriesStep(f: Ring.Fifo, queue: seq<int>, hold: seq<int>, writer: Pc, reader: Pc, step: Ring.Step)
    requires Carries(f, queue, hold, writer, reader)
    ensures step.Put? ==> Carries(Ring.FifoExec(f, step), queue + [step.val], hold, Flushing, reader)
    ensures step.FlushWriter? ==> Carries(Ring.FifoExec(f, step), queue, hold, Ready, reader)
    ensures step.UpdateWriter? || step.UpdateReader? ==> Carries(Ring.FifoExec(f, step), queue, hold, writer, reader)
    ensures step.FlushReader? ==> Carries(Ring.FifoExec(f, step), queue, hold, writer, Ready)
    ensures step.Get? && queue != [] && reader == Ready ==>
              Carries(Ring.FifoExec(f, step), queue[1..], [queue[0]], writer, Releasing)
  {
    var f' := Ring.FifoExec(f, step);
    if step.Put? {
      assert f'.put[f'.got..] == queue + [step.val];
    } else if step.Get? && queue != [] {
      assert f'.put[f'.got..] == queue[1..];
    }
  }

  /** A reader that sees something takes the head of the queue. */
  lemma GetTakesHead(q: seq<int>, steps: seq<Ring.Step>, queue: seq<int>, hold: seq<int>, writer: Pc, reader: Pc)
    requires |q| == Ring.SIZE && Ring.IsRun(q, steps) && !Ring.ReaderEmpty(Ring.After(q, steps))
    requires Carries(Ring.FifoAfter(steps), queue, hold, writer, reader)
    ensures queue != [] && Ring.Taken(Ring.After(q, steps)) == queue[0]
  {
    var f := Ring.FifoAfter(steps);
    Ring.RunRepresents(q, steps);
    Ring.StepRefines(Ring.After(q, steps), f, Ring.Get);
    assert f.put[f.got..][0] == f.put[f.got];
  }

  /** A refresh always finds room: fewer values are unreleased than the ring has slots. */
  lemma RefreshFindsRoom(q: seq<int>, steps: seq<Ring.Step>, queue: seq<int>, hold: seq<int>, writer: Pc, reader: Pc)
    requires |q| == Ring.SIZE && Ring.IsRun(q, steps) && |queue| + |hold| < Ring.SIZE
    requires Carries(Ring.FifoAfter(steps), queue, hold, writer, reader)
    ensures Ring.WriterReady(Ring.Exec(Ring.After(q, steps), Ring.UpdateWriter)) != 0
  {
    Ring.PutFailsOnlyWhenFull(q, steps);
    Ring.RunCounts(q, steps);
  }

  // ---------- every act ----------

  /** The protocol step of an act is possible and passes its CHECKs. */
  lemma EchoFollows(g: Config, q: Memory, j: Joint, act: Act)
    requires WfMemory(q) && JointInv(g, q, j) && CanAct(g, q, j, act)
    ensures EchoStep(g, j.echo, act).Some? ==> Passes(g, j.echo, EchoStep(g, j.echo, act).value)
    ensures Inv(g, Perform(g, j, act).echo)
    ensures act.ClientGets? ==> j.echo.toClient != [] && Ring.Taken(RingB(q, j)) == j.echo.toClient[0]
    ensures act.ServerGets? ==> j.echo.toServer != [] && Ring.Taken(RingA(q, j)) == j.echo.toServer[0]
  {
    if act.ClientGets? {
      GetTakesHead(q.b, j.b, j.echo.toClient, j.echo.client.hold, j.server, j.client);
    } else if act.ServerGets? {
      GetTakesHead(q.a, j.a, j.echo.toServer, j.echo.server.hold, j.client, j.server);
    }
    var step := EchoStep(g, j.echo, act);
    if step.Some? {
      EchoProtocol.StepKeeps(g, j.echo, step.value);
    }
  }

  lemma ServerRingFollows(g: Config, q: Memory, j: Joint, act: Act)
    requires WfMemory(q) && JointInv(g, q, j) && CanAct(g, q, j, act)
    requires EchoStep(g, j.echo, act).Some? ==> Passes(g, j.echo, EchoStep(g, j.echo, act).value)
    ensures var k := Perform(g, j, act);
            Ring.IsRun(q.a, k.a) && Carries(Ring.FifoAfter(k.a), k.echo.toServer, k.echo.server.hold, k.client, k.server)
  {
    var step := OnA(g, j.echo, act);
    if step.Some? {
      RunMore(q.a, j.a, step.value);
      CarriesStep(Ring.FifoAfter(j.a), j.echo.toServer, j.echo.server.hold, j.client, j.server, step.value);
    }
  }

  lemma ClientRingFollows(g: Config, q: Memory, j: Joint, act: Act)
    requires WfMemory(q) && JointInv(g, q, j) && CanAct(g, q, j, act)
    requires EchoStep(g, j.echo, act).Some? ==> Passes(g, j.echo, EchoStep(g, j.echo, act).value)
    ensures var k := Perform(g, j, act);
            Ring.IsRun(q.b, k.b) && Carries(Ring.FifoAfter(k.b), k.echo.toClient, k.echo.client.hold, k.server, k.client)
  {
    var step := OnB(j.echo, act);
    if step.Some? {
      RunMore(q.b, j.b, step.value);
      CarriesStep(Ring.FifoAfter(j.b), j.echo.toClient, j.echo.client.hold, j.server, j.client, step.value);
    }
  }

  /** Every act keeps the protocol, both rings and the way they carry the queues. */
  lemma ActKeeps(g: Config, q: Memory, j: Joint, act: Act)
    requires WfMemory(q) && JointInv(g, q, j) && CanAct(g, q, j, act)
    ensures JointInv(g, q, Perform(g, j, act))
  {
    EchoFollows(g, q, j, act);
    ServerRingFollows(g, q, j, act);
    ClientRingFollows(g, q, j, act);
  }

  // ---------- whole runs ----------

  function JointStart(g: Config): Joint {
    Joint(Start(g), [], [], Ready, Ready)
  }

  function JointAfter(g: Config, acts: seq<Act>): Joint {
    if acts == [] then JointStart(g) else Perform(g, JointAfter(g, acts[..|acts| - 1]), acts[|acts| - 1])
  }

  predicate IsJointRun(g: Config, q: Memory, acts: seq<Act>)
    requires WfMemory(q)
  {
    acts == [] ||
    (var before := acts[..|acts| - 1];
     IsJointRun(g, q, before) && CanAct(g, q, JointAfter(g, before), acts[|acts| - 1]))
  }

  /** The protocol steps of a run. */
  function EchoTrace(g: Config, acts: seq<Act>): seq<Step> {
    if acts == [] then []
    else
      var before := acts[..|acts| - 1];
      var step := EchoStep(g, JointAfter(g, before).echo, acts[|acts| - 1]);
      EchoTrace(g, before) + if step.Some? then [step.value] else []
  }

  lemma EchoMore(g: Config, trace: seq<Step>, e: State, step: Step)
    requires EchoProtocol.IsRun(g, trace) && StateAfter(g, trace) == e && Passes(g, e, step)
    ensures EchoProtocol.IsRun(g, trace + [step]) && StateAfter(g, trace + [step]) == Do(g, e, step)
  {
    assert (trace + [step])[..|trace|] == trace;
  }

  lemma RoomOnBoth(g: Config, q: Memory, j: Joint)
    requires WfMemory(q) && JointInv(g, q, j)
    ensures Ring.WriterReady(Ring.Exec(RingA(q, j), Ring.UpdateWriter)) != 0
    ensures Ring.WriterReady(Ring.Exec(RingB(q, j), Ring.UpdateWriter)) != 0
  {
    TokensBounded(g, j.echo);
    RefreshFindsRoom(q.a, j.a, j.echo.toServer, j.echo.server.hold, j.client, j.server);
    RefreshFindsRoom(q.b, j.b, j.echo.toClient, j.echo.client.hold, j.server, j.client);
  }

  lemma StartJoint(g: Config, q: Memory)
    requires WfConfig(g) && WfMemory(q)
    ensures JointInv(g, q, JointStart(g))
  {
    StartInv(g);
  }

  lemma {:induction false} JointKeeps(g: Config, q: Memory, acts: seq<Act>)
    requires WfConfig(g) && WfMemory(q) && IsJointRun(g, q, acts)
    ensures JointInv(g, q, JointAfter(g, acts))
  {
    if acts == [] {
      StartJoint(g, q);
    } else {
      var before := acts[..|acts| - 1];
      JointKeeps(g, q, before);
      ActKeeps(g, q, JointAfter(g, before), acts[|acts| - 1]);
    }
  }

  /** One act adds its protocol step, if any, to the trace. */
  lemma TraceStep(g: Config, q: Memory, trace: seq<Step>, j: Joint, act: Act)
    requires WfMemory(q) && JointInv(g, q, j) && CanAct(g, q, j, act)
    requires EchoProtocol.IsRun(g, trace) && StateAfter(g, trace) == j.echo
    ensures var step := EchoStep(g, j.echo, act);
            var more := trace + if step.Some? then [step.value] else [];
            EchoProtocol.IsRun(g, more) && StateAfter(g, more) == Perform(g, j, act).echo
  {
    EchoFollows(g, q, j, act);
    var step := EchoStep(g, j.echo, act);
    if step.Some? {
      EchoMore(g, trace, j.echo, step.value);
    } else {
      assert trace + [] == trace;
    }
  }

  /**
   Every interleaving of ring operations is a run of the protocol over FIFOs, so all that is
   proved of those runs holds of it.
   */
  lemma {:induction false} JointRun(g: Config, q: Memory, acts: seq<Act>)
    requires WfConfig(g) && WfMemory(q) && IsJointRun(g, q, acts)
    ensures EchoProtocol.IsRun(g, EchoTrace(g, acts)) && StateAfter(g, EchoTrace(g, acts)) == JointAfter(g, acts).echo
  {
    if acts != [] {
      var before := acts[..|acts| - 1];
      JointRun(g, q, before);
      JointKeeps(g, q, before);
      TraceStep(g, q, EchoTrace(g, before), JointAfter(g, before), acts[|acts| - 1]);
    }
  }

  /** The fatal error of put_noflush is never reached, on either ring, in any interleaving. */
  lemma PutNeverFatal(g: Config, q: Memory, acts: seq<Act>)
    requires WfConfig(g) && WfMemory(q) && IsJointRun(g, q, acts)
    ensures var j := JointAfter(g, acts);
            && Ring.WriterReady(Ring.Exec(RingA(q, j), Ring.UpdateWriter)) != 0
            && Ring.WriterReady(Ring.Exec(RingB(q, j), Ring.UpdateWriter)) != 0
  {
    JointKeeps(g, q, acts);
    RoomOnBoth(g, q, JointAfter(g, acts));
  }

  // ---------- no deadlock ----------

  /** Nobody can do anything but poll, and polling shows nothing. */
  predicate Stuck(g: Config, q: Memory, j: Joint)
    requires WfMemory(q)
  {
    forall act | CanAct(g, q, j, act) ::
      || (act.ClientPolls? && Ring.ReaderEmpty(Ring.Exec(RingB(q, j), Ring.UpdateReader)))
      || (act.ServerPolls? && Ring.ReaderEmpty(Ring.Exec(RingA(q, j), Ring.UpdateReader)))
  }

  /** With everything published, a poll of a queue that is not empty shows something. */
  lemma PollShows(q: seq<int>, steps: seq<Ring.Step>, queue: seq<int>, hold: seq<int>, writer: Pc, reader: Pc)
    requires |q| == Ring.SIZE && Ring.IsRun(q, steps) && queue != [] && writer != Flushing
    requires Carries(Ring.FifoAfter(steps), queue, hold, writer, reader)
    ensures !Ring.ReaderEmpty(Ring.Exec(Ring.After(q, steps), Ring.UpdateReader))
  {
    var f := Ring.FifoAfter(steps);
    Ring.RunRepresents(q, steps);
    Ring.StepRefines(Ring.After(q, steps), f, Ring.UpdateReader);
    Ring.TestsAgree(Ring.Exec(Ring.After(q, steps), Ring.UpdateReader), Ring.FifoExec(f, Ring.UpdateReader));
  }

  lemma StuckMeansReady(g: Config, q: Memory, j: Joint)
    requires WfMemory(q) && Stuck(g, q, j)
    ensures j.client == Ready && j.server == Ready
  {
    assert !CanAct(g, q, j, ClientFlushes) && !CanAct(g, q, j, ClientReleases);
    assert !CanAct(g, q, j, ServerFlushes) && !CanAct(g, q, j, ServerReleases);
  }

  lemma StuckMeansIdle(g: Config, q: Memory, j: Joint, step: Step)
    requires WfMemory(q) && JointInv(g, q, j) && Stuck(g, q, j)
    ensures !CanDo(g, j.echo, step)
  {
    StuckMeansReady(g, q, j);
    assert !CanAct(g, q, j, ClientPuts) && !CanAct(g, q, j, ClientRefreshes) && !CanAct(g, q, j, ClientDrops);
    assert !CanAct(g, q, j, ServerPuts) && !CanAct(g, q, j, ServerRefreshes);
    assert !CanAct(g, q, j, ClientGets) && !CanAct(g, q, j, ServerGets);
    if CanDo(g, j.echo, step) && step.ClientGet? {
      PollShows(q.b, j.b, j.echo.toClient, j.echo.client.hold, j.server, j.client);
      assert CanAct(g, q, j, ClientPolls);
    } else if CanDo(g, j.echo, step) && step.ServerGet? {
      PollShows(q.a, j.a, j.echo.toServer, j.echo.server.hold, j.client, j.server);
      assert CanAct(g, q, j, ServerPolls);
    }
  }

  /** Threads that only poll in vain have finished: every connection was answered to the end. */
  lemma JointNoDeadlock(g: Config, q: Memory, acts: seq<Act>)
    requires WfConfig(g) && WfMemory(q) && IsJointRun(g, q, acts) && Stuck(g, q, JointAfter(g, acts))
    ensures var e := JointAfter(g, acts).echo;
            && Finished(e) && e.sent == g.connections && e.toServer == [] && e.toClient == []
            && e.client.conn == seq(g.connections, _ => Rounds(g))
    ensures |EchoTrace(g, acts)| == g.connections + 4 * (g.connections * Rounds(g))
  {
    JointRun(g, q, acts);
    JointKeeps(g, q, acts);
    var j := JointAfter(g, acts);
    forall step
      ensures !CanDo(g, j.echo, step)
    {
      StuckMeansIdle(g, q, j, step);
    }
    EchoProtocol.NoDeadlock(g, j.echo);
    RunTerminates(g, EchoTrace(g, acts));
  }
}

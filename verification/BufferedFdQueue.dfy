/**
 The sleeping layer over the ring (BufferedFdQueue in benchmark/bench_queue.cpp):
 a reader that finds nothing sets wait_flag, looks once more and then blocks on an
 eventfd; a writer that has published reads wait_flag and writes to the eventfd if
 it is set. Both sides are state machines over their atomic steps.
 */
module BufferedFdQueue {
  import opened Bytes
  import opened BufferQueue

  /** Where the writer is; `flush` tells put from put_noflush. */
  datatype WriterPc =
    | WIdle
    | WPut(val: int, flush: bool)     // about to test writer_empty
    | WPutSlow(val: int, flush: bool) // has refreshed its cached index
    | WFlush                          // about to publish
    | WCheck                          // has published, about to load wait_flag
    | WSignal                         // saw wait_flag set, about to write the eventfd
    | WAborted                        // fatal error: the ring is full

  /** Where the reader is; `taking` tells get from wait_reader. */
  datatype ReaderPc =
    | RIdle
    | RSpin(taking: bool)   // in the backoff loop
    | RArm(taking: bool)    // about to set wait_flag
    | RCheck(taking: bool)  // about to look again
    | RBlock(taking: bool)  // about to read the eventfd: blocks while it is 0
    | RDisarm(taking: bool) // about to clear wait_flag
    | RTake                 // about to take the value
    | RRelease              // about to publish its read index

  datatype State = State(ring: Ring, waitFlag: bool, fd: nat, w: WriterPc, r: ReaderPc)

  /** Calls made by the two threads, their internal steps, and the reader's choice to stop spinning. */
  datatype Action =
    | CallPut(val: int, flush: bool) | CallFlush | WriterStep
    | CallGet | CallWait | CallGetUnsafe | CallRelease | ReaderStep | ReaderGivesUp

  predicate CanDo(s: State, a: Action) {
    match a
    case CallPut(_, _) => s.w.WIdle?
    case CallFlush => s.w.WIdle?
    case WriterStep => !s.w.WIdle? && !s.w.WAborted?
    case CallGet => s.r.RIdle?
    case CallWait => s.r.RIdle?
    case CallGetUnsafe => s.r.RIdle? && !ReaderEmpty(s.ring)
    case CallRelease => s.r.RIdle?
    case ReaderStep => !s.r.RIdle? && (s.r.RBlock? ==> s.fd > 0)
    case ReaderGivesUp => s.r.RSpin?
  }

  /** The one operation on the ring that an action performs, if any. */
  function RingStep(s: State, a: Action): Option<Step> {
    match a
    case CallGetUnsafe => Some(Get)
    case CallRelease => Some(FlushReader)
    case WriterStep =>
      (match s.w
       case WPut(val, _) => Some(if WriterEmpty(s.ring) then UpdateWriter else Put(val))
       case WPutSlow(val, _) => if WriterReady(s.ring) == 0 then None else Some(Put(val))
       case WFlush => Some(FlushWriter)
       case _ => None)
    case ReaderStep =>
      (match s.r
       case RSpin(_) => Some(UpdateReader)
       case RCheck(_) => Some(UpdateReader)
       case RTake => Some(Get)
       case RRelease => Some(FlushReader)
       case _ => None)
    case _ => None
  }

  function AfterPut(flush: bool): WriterPc {
    if flush then WFlush else WIdle
  }

  function AfterWait(taking: bool): ReaderPc {
    if taking then RTake else RIdle
  }

  function Do(s: State, a: Action): (s': State)
    requires WfRing(s.ring)
    ensures WfRing(s'.ring)
  {
    var st := RingStep(s, a);
    var s1 := s.(ring := if st.Some? then Exec(s.ring, st.value) else s.ring);
    match a
    case CallPut(val, flush) => s1.(w := WPut(val, flush))
    case CallFlush => s1.(w := WFlush)
    case WriterStep =>
      (match s.w
       case WPut(val, flush) => s1.(w := if WriterEmpty(s.ring) then WPutSlow(val, flush) else AfterPut(flush))
       case WPutSlow(_, flush) => s1.(w := if WriterReady(s.ring) == 0 then WAborted else AfterPut(flush))
       case WFlush => s1.(w := WCheck)
       case WCheck => s1.(w := if s.waitFlag then WSignal else WIdle)
       case WSignal => s1.(w := WIdle, fd := s.fd + 1)
       case _ => s1)
    case CallGet => s1.(r := if ReaderEmpty(s.ring) then RSpin(true) else RTake)
    case CallWait => s1.(r := RSpin(false))
    case ReaderStep =>
      (match s.r
       case RSpin(t) => if ReaderReady(s1.ring) == 0 then s1 else s1.(r := AfterWait(t))
       case RArm(t) => s1.(waitFlag := true, r := RCheck(t))
       case RCheck(t) => s1.(r := if ReaderReady(s1.ring) == 0 then RBlock(t) else RDisarm(t))
       case RBlock(t) => s1.(fd := 0, r := RCheck(t))
       case RDisarm(t) => s1.(waitFlag := false, r := AfterWait(t))
       case RTake => s1.(r := RRelease)
       case RRelease => s1.(r := RIdle)
       case RIdle => s1)
    case ReaderGivesUp => s1.(r := if s.r.RSpin? then RArm(s.r.taking) else s.r)
    case _ => s1
  }

  function FifoStep(s: State, f: Fifo, a: Action): Fifo {
    var st := RingStep(s, a);
    if st.Some? then FifoExec(f, st.value) else f
  }

  /** Somebody is about to wake the reader. */
  predicate WakeUpComing(s: State) {
    s.fd > 0 || s.w.WCheck? || s.w.WSignal?
  }

  predicate RingOk(r: Ring, f: Fifo) {
    Represents(r, f) && Inv(f)
  }

  predicate Control(s: State, f: Fifo) {
    && (s.waitFlag <==> s.r.RCheck? || s.r.RBlock? || s.r.RDisarm?)
    && (s.r.RTake? || s.r.RDisarm? ==> f.got < f.cachedWrite)
    && (s.r.RBlock? && f.got < f.published ==> WakeUpComing(s))
  }

  /** What the wrapped tests of the ring mean, see TestsAgree. */
  predicate Agree(r: Ring, f: Fifo) {
    && ReaderReady(r) == f.cachedWrite - f.got && (ReaderEmpty(r) <==> f.cachedWrite == f.got)
    && WriterReady(r) == f.cachedRead + SIZE - |f.put| && (WriterEmpty(r) <==> |f.put| == f.cachedRead + SIZE)
  }

  /** Every action only uses the ring when the ring allows it. */
  lemma StepUsesRing(s: State, f: Fifo, a: Action)
    requires RingOk(s.ring, f) && Control(s, f) && CanDo(s, a)
    ensures RingStep(s, a).Some? ==> Enabled(s.ring, RingStep(s, a).value)
  {
    TestsAgree(s.ring, f);
  }

  lemma RingAfter(s: State, a: Action)
    requires WfRing(s.ring)
    ensures Do(s, a).ring == if RingStep(s, a).Some? then Exec(s.ring, RingStep(s, a).value) else s.ring
  {
  }

  lemma WriterKeeps(s: State, f: Fifo, a: Action)
    requires Control(s, f) && Agree(s.ring, f) && WfRing(s.ring) && Inv(f) && CanDo(s, a)
    requires a.CallPut? || a.CallFlush? || a.WriterStep?
    ensures Control(Do(s, a), FifoStep(s, f, a))
  {
  }

  lemma ReaderKeeps(s: State, f: Fifo, a: Action)
    requires Control(s, f) && Agree(s.ring, f) && WfRing(s.ring) && Inv(f) && CanDo(s, a)
    requires !(a.CallPut? || a.CallFlush? || a.WriterStep?)
    requires Agree(Do(s, a).ring, FifoStep(s, f, a))
    ensures Control(Do(s, a), FifoStep(s, f, a))
  {
  }

  lemma StepKeeps(s: State, f: Fifo, a: Action)
    requires RingOk(s.ring, f) && Control(s, f) && CanDo(s, a)
    ensures RingOk(Do(s, a).ring, FifoStep(s, f, a)) && Control(Do(s, a), FifoStep(s, f, a))
  {
    StepUsesRing(s, f, a);
    RingAfter(s, a);
    if RingStep(s, a).Some? {
      StepRefines(s.ring, f, RingStep(s, a).value);
    }
    TestsAgree(s.ring, f);
    TestsAgree(Do(s, a).ring, FifoStep(s, f, a));
    if a.CallPut? || a.CallFlush? || a.WriterStep? {
      WriterKeeps(s, f, a);
    } else {
      ReaderKeeps(s, f, a);
    }
  }

  // ---------- runs ----------

  function Start(q: seq<int>): State {
    State(Init(q), false, 0, WIdle, RIdle)
  }

  function StateAfter(q: seq<int>, run: seq<Action>): (s: State)
    requires |q| == SIZE
    ensures WfRing(s.ring)
  {
    if run == [] then Start(q) else Do(StateAfter(q, run[..|run| - 1]), run[|run| - 1])
  }

  predicate IsFdRun(q: seq<int>, run: seq<Action>)
    requires |q| == SIZE
  {
    run == [] ||
    (IsFdRun(q, run[..|run| - 1]) && CanDo(StateAfter(q, run[..|run| - 1]), run[|run| - 1]))
  }

  /** The ring operations of a run, in order. */
  function RingTrace(q: seq<int>, run: seq<Action>): seq<Step>
    requires |q| == SIZE
  {
    if run == [] then []
    else
      var st := RingStep(StateAfter(q, run[..|run| - 1]), run[|run| - 1]);
      RingTrace(q, run[..|run| - 1]) + if st.Some? then [st.value] else []
  }

  lemma TraceExtends(q: seq<int>, trace: seq<Step>, st: Option<Step>)
    requires |q| == SIZE && IsRun(q, trace)
    requires st.Some? ==> Enabled(After(q, trace), st.value)
    ensures var longer := trace + if st.Some? then [st.value] else [];
            && IsRun(q, longer)
            && After(q, longer) == (if st.Some? then Exec(After(q, trace), st.value) else After(q, trace))
            && FifoAfter(longer) == (if st.Some? then FifoExec(FifoAfter(trace), st.value) else FifoAfter(trace))
  {
    if st.Some? {
      assert (trace + [st.value])[..|trace|] == trace;
    } else {
      assert trace + [] == trace;
    }
  }

  /** Every run of the two threads is a run of the ring, so it delivers in order and never overwrites. */
  lemma {:induction false} RunIsRingRun(q: seq<int>, run: seq<Action>)
    requires |q| == SIZE && IsFdRun(q, run)
    ensures IsRun(q, RingTrace(q, run)) && After(q, RingTrace(q, run)) == StateAfter(q, run).ring
    ensures RingOk(StateAfter(q, run).ring, FifoAfter(RingTrace(q, run)))
    ensures Control(StateAfter(q, run), FifoAfter(RingTrace(q, run)))
  {
    if run != [] {
      var before, a := run[..|run| - 1], run[|run| - 1];
      RunIsRingRun(q, before);
      var s, trace := StateAfter(q, before), RingTrace(q, before);
      StepUsesRing(s, FifoAfter(trace), a);
      StepKeeps(s, FifoAfter(trace), a);
      RingAfter(s, a);
      TraceExtends(q, trace, RingStep(s, a));
    }
  }

  /** The writer is inside put or flush_writer. */
  predicate WriterBusy(s: State) {
    || s.w.WFlush? || s.w.WCheck? || s.w.WSignal?
    || ((s.w.WPut? || s.w.WPutSlow?) && s.w.flush)
  }

  lemma UnreadMeansBehind(s: State, f: Fifo)
    requires RingOk(s.ring, f) && s.ring.writer.i != s.ring.reader.localRead
    ensures f.got < f.published
  {
  }

  /**
   No lost wake-up: whenever the reader is blocked on a zero eventfd while a published
   value is unread, the writer is still inside put or flush_writer.
   */
  lemma NoLostWakeUp(q: seq<int>, run: seq<Action>)
    requires |q| == SIZE && IsFdRun(q, run)
    ensures var s := StateAfter(q, run);
            s.r.RBlock? && s.fd == 0 && s.ring.writer.i != s.ring.reader.localRead ==> WriterBusy(s)
  {
    RunIsRingRun(q, run);
    var s := StateAfter(q, run);
    if s.ring.writer.i != s.ring.reader.localRead {
      UnreadMeansBehind(s, FifoAfter(RingTrace(q, run)));
    }
  }

  /** The wake-up needs only the writer's own next steps: two of them make the eventfd readable. */
  lemma WriterWakesReader(q: seq<int>, run: seq<Action>)
    requires |q| == SIZE && IsFdRun(q, run)
    ensures var s := StateAfter(q, run);
            s.r.RBlock? && s.fd == 0 && s.ring.writer.i != s.ring.reader.localRead ==>
              && CanDo(s, WriterStep)
              && var s1 := Do(s, WriterStep);
                 s1.fd > 0 || (CanDo(s1, WriterStep) && Do(s1, WriterStep).fd > 0)
  {
    RunIsRingRun(q, run);
    var s := StateAfter(q, run);
    if s.ring.writer.i != s.ring.reader.localRead {
      UnreadMeansBehind(s, FifoAfter(RingTrace(q, run)));
    }
  }
}

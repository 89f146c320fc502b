/**
 The single-producer single-consumer ring of benchmark/bench_queue.cpp: a
 1024-slot buffer, published 32-bit indices that wrap, and a cached copy of the
 other side's index on each side. Every operation touches shared memory once, so
 a run is a sequence of these operations under sequential consistency.
 */
module BufferQueue {
  const SIZE: nat := 1024
  const WRAP: nat := 0x1_0000_0000

  /** `i` is a published index, `localRead`/`localWrite` the side's private copies. */
  datatype Position = Position(i: nat, localRead: nat, localWrite: nat)
  datatype Ring = Ring(q: seq<int>, writer: Position, reader: Position)

  datatype Step = Put(val: int) | FlushWriter | UpdateWriter | Get | FlushReader | UpdateReader

  predicate ReaderEmpty(r: Ring) {
    r.reader.localWrite == r.reader.localRead
  }

  predicate WriterEmpty(r: Ring) {
    r.writer.localWrite == (r.writer.localRead + SIZE) % WRAP
  }

  /** uint32 subtraction cast to int. */
  function Distance(a: int, b: int): int {
    var d := (a - b) % WRAP;
    if d < WRAP / 2 then d else d - WRAP
  }

  function ReaderReady(r: Ring): int {
    Distance(r.reader.localWrite, r.reader.localRead)
  }

  function WriterReady(r: Ring): int {
    Distance(r.writer.localRead + SIZE, r.writer.localWrite)
  }

  /** What callers of the unsafe operations check first. */
  predicate Enabled(r: Ring, s: Step) {
    match s
    case Put(_) => !WriterEmpty(r)
    case Get => !ReaderEmpty(r)
    case _ => true
  }

  predicate WfRing(r: Ring) {
    |r.q| == SIZE
  }

  function Exec(r: Ring, s: Step): (r': Ring)
    requires WfRing(r)
    ensures WfRing(r')
  {
    match s
    case Put(val) =>
      r.(q := r.q[r.writer.localWrite % SIZE := val],
         writer := r.writer.(localWrite := (r.writer.localWrite + 1) % WRAP))
    case FlushWriter => r.(writer := r.writer.(i := r.writer.localWrite))
    case UpdateWriter => r.(writer := r.writer.(localRead := r.reader.i))
    case Get => r.(reader := r.reader.(localRead := (r.reader.localRead + 1) % WRAP))
    case FlushReader => r.(reader := r.reader.(i := r.reader.localRead))
    case UpdateReader => r.(reader := r.reader.(localWrite := r.writer.i))
  }

  /** The value get_unsafe returns. */
  function Taken(r: Ring): int
    requires WfRing(r)
  {
    r.q[r.reader.localRead % SIZE]
  }

  // ---------- the queue it should be ----------

  /** An unbounded FIFO with counters that never wrap; `put` is everything ever put. */
  datatype Fifo = Fifo(put: seq<int>, published: nat, cachedRead: nat, got: nat, released: nat, cachedWrite: nat)

  predicate Inv(f: Fifo) {
    && f.cachedRead <= f.released <= f.got <= f.cachedWrite <= f.published <= |f.put|
    && |f.put| <= f.cachedRead + SIZE
  }

  predicate FifoEnabled(f: Fifo, s: Step) {
    match s
    case Put(_) => |f.put| < f.cachedRead + SIZE
    case Get => f.got < f.cachedWrite
    case _ => true
  }

  function FifoExec(f: Fifo, s: Step): Fifo {
    match s
    case Put(val) => f.(put := f.put + [val])
    case FlushWriter => f.(published := |f.put|)
    case UpdateWriter => f.(cachedRead := f.released)
    case Get => f.(got := f.got + 1)
    case FlushReader => f.(released := f.got)
    case UpdateReader => f.(cachedWrite := f.published)
  }

  /** The ring holds the wrapped counters and every value that has not been released. */
  predicate Represents(r: Ring, f: Fifo) {
    && WfRing(r)
    && r.writer == Position(f.published % WRAP, f.cachedRead % WRAP, |f.put| % WRAP)
    && r.reader == Position(f.released % WRAP, f.got % WRAP, f.cachedWrite % WRAP)
    && forall k: nat | f.released <= k < |f.put| :: r.q[k % SIZE] == f.put[k]
  }

  lemma ModUnique(x: int, d: nat, k: int)
    requires x == d + WRAP * k && d < WRAP
    ensures x % WRAP == d
  {
  }

  /** Wrapped indices n apart at most SIZE: their wrapped difference is the true one. */
  lemma WrapDistance(a: nat, n: nat, b: nat)
    requires b <= a + n <= b + SIZE
    ensures Distance(a % WRAP + n, b % WRAP) == a + n - b
    ensures b % WRAP == (a % WRAP + n) % WRAP <==> b == a + n
  {
    var k := b / WRAP - a / WRAP;
    ModUnique(a % WRAP + n - b % WRAP, a + n - b, k);
    if b % WRAP == (a % WRAP + n) % WRAP {
      ModUnique(a % WRAP + n - b % WRAP, 0, (a % WRAP + n) / WRAP);
    }
  }

  lemma WrapAdd(a: nat, n: nat)
    requires n <= SIZE
    ensures (a % WRAP + n) % WRAP == (a + n) % WRAP
  {
  }

  lemma WrapSlot(k: nat)
    ensures k % WRAP % SIZE == k % SIZE
  {
  }

  /** Distinct positions less than SIZE apart use distinct slots. */
  lemma SlotsDistinct(a: nat, b: nat)
    requires a < b < a + SIZE
    ensures a % SIZE != b % SIZE
  {
  }

  /** The wrapped 32-bit tests see exactly the unbounded counters. */
  lemma TestsAgree(r: Ring, f: Fifo)
    requires Represents(r, f) && Inv(f)
    ensures ReaderReady(r) == f.cachedWrite - f.got && (ReaderEmpty(r) <==> f.cachedWrite == f.got)
    ensures WriterReady(r) == f.cachedRead + SIZE - |f.put| && (WriterEmpty(r) <==> |f.put| == f.cachedRead + SIZE)
  {
    WrapDistance(f.cachedWrite, 0, f.got);
    WrapDistance(f.cachedRead, SIZE, |f.put|);
  }

  /** A put goes to a slot whose previous value, if any, the reader has released. */
  lemma PutOverwritesReleased(f: Fifo, k: nat)
    requires Inv(f) && |f.put| < f.cachedRead + SIZE
    requires k < |f.put| && k % SIZE == |f.put| % SIZE
    ensures k < f.released
  {
    if k >= f.released {
      SlotsDistinct(k, |f.put|);
    }
  }

  /**
   One atomic operation of the ring is the same operation of the FIFO: enabled at the
   same time, delivering the next value in put order, and keeping the representation.
   */
  lemma StepRefines(r: Ring, f: Fifo, s: Step)
    requires Represents(r, f) && Inv(f)
    ensures Enabled(r, s) <==> FifoEnabled(f, s)
    ensures Enabled(r, s) ==> Represents(Exec(r, s), FifoExec(f, s)) && Inv(FifoExec(f, s))
    ensures Enabled(r, Get) ==> f.got < |f.put| && Taken(r) == f.put[f.got]
  {
    TestsAgree(r, f);
    WrapSlot(f.got);
    if Enabled(r, s) {
      match s
      case Put(val) =>
        var f' := FifoExec(f, s);
        WrapAdd(|f.put|, 1);
        WrapSlot(|f.put|);
        forall k: nat | f'.released <= k < |f'.put|
          ensures Exec(r, s).q[k % SIZE] == f'.put[k]
        {
          if k < |f.put| {
            SlotsDistinct(k, |f.put|);
          }
        }
      case Get => WrapAdd(f.got, 1);
      case _ =>
    }
  }

  // ---------- runs ----------

  const EMPTY_POSITION := Position(0, 0, 0)

  function Init(q: seq<int>): Ring {
    Ring(q, EMPTY_POSITION, EMPTY_POSITION)
  }

  const EMPTY_FIFO := Fifo([], 0, 0, 0, 0, 0)

  /** An interleaving of the two sides in which every operation was enabled. */
  predicate IsRun(q: seq<int>, steps: seq<Step>)
    requires |q| == SIZE
  {
    steps == [] ||
    (var before := steps[..|steps| - 1];
     IsRun(q, before) && Enabled(After(q, before), steps[|steps| - 1]))
  }

  function After(q: seq<int>, steps: seq<Step>): (r: Ring)
    requires |q| == SIZE
    ensures WfRing(r)
  {
    if steps == [] then Init(q) else Exec(After(q, steps[..|steps| - 1]), steps[|steps| - 1])
  }

  function FifoAfter(steps: seq<Step>): Fifo {
    if steps == [] then EMPTY_FIFO else FifoExec(FifoAfter(steps[..|steps| - 1]), steps[|steps| - 1])
  }

  /** The values put, and the values the reader took, in order. */
  function PutIn(steps: seq<Step>): seq<int> {
    if steps == [] then []
    else
      var s := steps[|steps| - 1];
      PutIn(steps[..|steps| - 1]) + if s.Put? then [s.val] else []
  }

  function GotIn(q: seq<int>, steps: seq<Step>): seq<int>
    requires |q| == SIZE
  {
    if steps == [] then []
    else
      var before := steps[..|steps| - 1];
      GotIn(q, before) + if steps[|steps| - 1].Get? then [Taken(After(q, before))] else []
  }

  /** The ring stays a representation of the FIFO with unbounded counters, forever. */
  lemma {:induction false} RunRepresents(q: seq<int>, steps: seq<Step>)
    requires |q| == SIZE && IsRun(q, steps)
    ensures Represents(After(q, steps), FifoAfter(steps)) && Inv(FifoAfter(steps))
  {
    if steps != [] {
      var before := steps[..|steps| - 1];
      RunRepresents(q, before);
      StepRefines(After(q, before), FifoAfter(before), steps[|steps| - 1]);
    }
  }

  lemma {:induction false} RunCounts(q: seq<int>, steps: seq<Step>)
    requires |q| == SIZE
    ensures FifoAfter(steps).put == PutIn(steps) && FifoAfter(steps).got == |GotIn(q, steps)|
  {
    if steps != [] {
      RunCounts(q, steps[..|steps| - 1]);
    }
  }

  lemma NextTaken(q: seq<int>, steps: seq<Step>)
    requires |q| == SIZE && IsRun(q, steps) && Enabled(After(q, steps), Get)
    ensures |GotIn(q, steps)| < |PutIn(steps)|
    ensures Taken(After(q, steps)) == PutIn(steps)[|GotIn(q, steps)|]
  {
    RunRepresents(q, steps);
    RunCounts(q, steps);
    StepRefines(After(q, steps), FifoAfter(steps), Get);
  }

  lemma PrefixGrows(a: seq<int>, b: seq<int>, more: seq<int>)
    requires a <= b
    ensures a <= b + more
    ensures |a| < |b| ==> a + [b[|a|]] <= b
  {
  }

  /** In every interleaving the reader receives exactly a prefix of what was put, in order. */
  lemma {:induction false} RunDelivers(q: seq<int>, steps: seq<Step>)
    requires |q| == SIZE && IsRun(q, steps)
    ensures GotIn(q, steps) <= PutIn(steps)
  {
    if steps != [] {
      var before, s := steps[..|steps| - 1], steps[|steps| - 1];
      RunDelivers(q, before);
      PrefixGrows(GotIn(q, before), PutIn(before), if s.Put? then [s.val] else []);
      if s.Get? {
        NextTaken(q, before);
        assert PutIn(steps) == PutIn(before);
      } else {
        assert GotIn(q, steps) == GotIn(q, before);
      }
    }
  }

  /** put_noflush gives up exactly when all 1024 slots hold values the reader has not released. */
  lemma {:induction false} PutFailsOnlyWhenFull(q: seq<int>, steps: seq<Step>)
    requires |q| == SIZE && IsRun(q, steps)
    ensures WriterReady(Exec(After(q, steps), UpdateWriter)) == 0
       <==> |PutIn(steps)| == FifoAfter(steps).released + SIZE
  {
    RunRepresents(q, steps);
    RunCounts(q, steps);
    StepRefines(After(q, steps), FifoAfter(steps), UpdateWriter);
    TestsAgree(Exec(After(q, steps), UpdateWriter), FifoExec(FifoAfter(steps), UpdateWriter));
  }

  // ---------- the class ----------

  /** The operations on the fields themselves, each one step of the machine above. */
  class Queue {
    var q: array<int>
    var writerI: nat
    var writerLocalRead: nat
    var writerLocalWrite: nat
    var readerI: nat
    var readerLocalRead: nat
    var readerLocalWrite: nat

    ghost predicate Valid()
      reads this
    {
      q.Length == SIZE
    }

    ghost function View(): (r: Ring)
      requires Valid()
      reads this, q
      ensures WfRing(r)
    {
      Ring(q[..], Position(writerI, writerLocalRead, writerLocalWrite),
           Position(readerI, readerLocalRead, readerLocalWrite))
    }

    constructor ()
      ensures Valid() && fresh(q) && View() == Init(q[..])
    {
      q := new int[SIZE];
      writerI, writerLocalRead, writerLocalWrite := 0, 0, 0;
      readerI, readerLocalRead, readerLocalWrite := 0, 0, 0;
    }

    method PutUnsafe(val: int)
      requires Valid()
      modifies this`writerLocalWrite, q
      ensures Valid() && View() == Exec(old(View()), Put(val))
    {
      q[writerLocalWrite % SIZE] := val;
      writerLocalWrite := (writerLocalWrite + 1) % WRAP;
    }

    method GetUnsafe() returns (val: int)
      requires Valid()
      modifies this`readerLocalRead
      ensures Valid() && View() == Exec(old(View()), Get) && val == Taken(old(View()))
    {
      val := q[readerLocalRead % SIZE];
      readerLocalRead := (readerLocalRead + 1) % WRAP;
    }

    method Flush()
      requires Valid()
      modifies this`writerI
      ensures Valid() && View() == Exec(old(View()), FlushWriter)
    {
      writerI := writerLocalWrite;
    }

    method Release()
      requires Valid()
      modifies this`readerI
      ensures Valid() && View() == Exec(old(View()), FlushReader)
    {
      readerI := readerLocalRead;
    }

    method RefreshReader() returns (ready: int)
      requires Valid()
      modifies this`readerLocalWrite
      ensures Valid() && View() == Exec(old(View()), UpdateReader) && ready == ReaderReady(View())
    {
      readerLocalWrite := writerI;
      ready := Distance(readerLocalWrite, readerLocalRead);
    }

    method RefreshWriter() returns (ready: int)
      requires Valid()
      modifies this`writerLocalRead
      ensures Valid() && View() == Exec(old(View()), UpdateWriter) && ready == WriterReady(View())
    {
      writerLocalRead := readerI;
      ready := Distance(writerLocalRead + SIZE, writerLocalWrite);
    }

    /** put_noflush; `ok` is false where the source logs a fatal error. */
    method PutNoFlush(val: int) returns (ok: bool)
      requires Valid()
      modifies this`writerLocalRead, this`writerLocalWrite, q
      ensures Valid() && q == old(q)
      ensures var before := old(View());
              if !WriterEmpty(before) then ok && View() == Exec(before, Put(val))
              else
                var refreshed := Exec(before, UpdateWriter);
                && ok == (WriterReady(refreshed) != 0)
                && View() == if ok then Exec(refreshed, Put(val)) else refreshed
    {
      if writerLocalWrite != (writerLocalRead + SIZE) % WRAP {
        PutUnsafe(val);
        return true;
      }
      var ready := RefreshWriter();
      if ready == 0 {
        return false;
      }
      PutUnsafe(val);
      return true;
    }
  }
}

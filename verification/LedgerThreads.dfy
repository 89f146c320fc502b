/**
 The ledger of memprof/memprof.cpp under threads. A call of malloc, free or realloc touches a
 slot by one fetch_add or fetch_sub; everything else it does concerns blocks of its own. Calls
 interleave at these operations, and the reader of the total takes one slot at a time.
 */
module LedgerThreads {
  import opened Bytes
  import opened ProfilerLedger

  // ---------- threads and steps ----------

  /**
   Adding: a new block with its header written, before fetch_add; realloc also holds the block
   it will release. Removing: free, before fetch_sub.
   */
  datatype Thread = Idle | Adding(p: nat, info: Info, released: Option<nat>) | Removing(p: nat)

  /**
   get_used_memory_size: the slots before `next` are read and add up to `total`. Beside it what
   was accounted when it began, and the bytes added and removed since.
   */
  datatype Reader = Away | Reading(next: nat, total: int, start: int, added: int, removed: int)

  /** `aborted`: a my_assert has failed. */
  datatype State = State(sizes: seq<int>, live: map<nat, Info>, threads: seq<Thread>, reader: Reader, aborted: bool)

  datatype Step =
    | CallMalloc(t: nat, p: nat, size: nat, htPos: nat)
    | CallFree(t: nat, p: nat)
    | CallRealloc(t: nat, p: nat, q: nat, size: nat, htPos: nat)
    | FetchAdd(t: nat)
    | FetchSub(t: nat)
    | StartReading
    | ReadSlot

  /** Blocks that only this thread may touch: a new one is nobody else's, and C lets a block be released once. */
  function Owned(th: Thread): set<nat> {
    match th
    case Idle => {}
    case Adding(p, _, released) => {p} + if released.Some? then {released.value} else {}
    case Removing(p) => {p}
  }

  predicate Unowned(threads: seq<Thread>, p: nat) {
    forall t: nat | t < |threads| :: p !in Owned(threads[t])
  }

  /** The first step of a call, or the next one of a thread in it. */
  predicate CanDo(s: State, step: Step) {
    && !s.aborted
    && match step
       case CallMalloc(t, p, _, htPos) =>
         t < |s.threads| && s.threads[t].Idle? && p !in s.live && Unowned(s.threads, p) && htPos < |s.sizes|
       case CallFree(t, p) => t < |s.threads| && s.threads[t].Idle? && p in s.live && Unowned(s.threads, p)
       case CallRealloc(t, p, q, _, htPos) =>
         && t < |s.threads| && s.threads[t].Idle? && p in s.live && Unowned(s.threads, p)
         && q !in s.live && Unowned(s.threads, q) && htPos < |s.sizes|
       case FetchAdd(t) => t < |s.threads| && s.threads[t].Adding? && s.threads[t].info.htPos < |s.sizes|
       case FetchSub(t) =>
         && t < |s.threads| && s.threads[t].Removing? && s.threads[t].p in s.live
         && s.live[s.threads[t].p].htPos < |s.sizes|
       case StartReading => true
       case ReadSlot => s.reader.Reading? && s.reader.next < |s.sizes|
  }

  function Added(r: Reader, size: int): Reader {
    if r.Reading? then r.(added := r.added + size) else r
  }

  function Removed(r: Reader, size: int): Reader {
    if r.Reading? then r.(removed := r.removed + size) else r
  }

  function Exec(s: State, step: Step): State
    requires CanDo(s, step)
  {
    match step
    case CallMalloc(t, p, size, htPos) => s.(threads := s.threads[t := Adding(p, Info(Cast32(size), htPos), None)])
    case CallFree(t, p) => s.(threads := s.threads[t := Removing(p)])
    case CallRealloc(t, p, q, size, htPos) => s.(threads := s.threads[t := Adding(q, Info(Cast32(size), htPos), Some(p))])
    case FetchAdd(t) =>
      var Adding(p, info, released) := s.threads[t];
      if info.size < 0 then s.(aborted := true)
      else
        s.(sizes := s.sizes[info.htPos := s.sizes[info.htPos] + info.size], live := s.live[p := info],
           threads := s.threads[t := if released.Some? then Removing(released.value) else Idle],
           reader := Added(s.reader, info.size))
    case FetchSub(t) =>
      var p := s.threads[t].p;
      var info := s.live[p];
      s.(sizes := s.sizes[info.htPos := s.sizes[info.htPos] - info.size], live := s.live - {p},
         threads := s.threads[t := Idle], reader := Removed(s.reader, info.size),
         aborted := s.sizes[info.htPos] < info.size)
    case StartReading => s.(reader := Reading(0, 0, Sum(s.sizes), 0, 0))
    case ReadSlot =>
      var r := s.reader;
      s.(reader := r.(next := r.next + 1, total := r.total + s.sizes[r.next]))
  }

  // ---------- the invariant ----------

  /** Every slot holds the bytes of its live blocks; nothing else is counted. */
  ghost predicate Accounted(sizes: seq<int>, live: map<nat, Info>) {
    && (forall p | p in live :: 0 <= live[p].size < 0x8000_0000 && live[p].htPos < |sizes|)
    && (forall i: nat | i < |sizes| :: sizes[i] == LiveAt(live, i))
    && Sum(sizes) == LiveTotal(live)
  }

  predicate ThreadOk(th: Thread, live: map<nat, Info>, slots: nat) {
    match th
    case Idle => true
    case Adding(p, info, released) =>
      p !in live && info.htPos < slots && info.size < 0x8000_0000 && (released.Some? ==> released.value in live)
    case Removing(p) => p in live
  }

  predicate ThreadsOk(threads: seq<Thread>, live: map<nat, Info>, slots: nat) {
    && (forall t: nat | t < |threads| :: ThreadOk(threads[t], live, slots))
    && (forall t: nat, u: nat | t < |threads| && u < |threads| && t != u :: Owned(threads[t]) !! Owned(threads[u]))
  }

  /** What is read and what is still to be read differ from the start by no more than what changed since. */
  predicate ReaderOk(r: Reader, sizes: seq<int>) {
    r.Reading? ==>
      && r.next <= |sizes| && r.added >= 0 && r.removed >= 0
      && r.start - r.removed <= r.total + Sum(sizes) - Sum(sizes[..r.next]) <= r.start + r.added
  }

  ghost predicate Inv(s: State) {
    Accounted(s.sizes, s.live) && ThreadsOk(s.threads, s.live, |s.sizes|) && ReaderOk(s.reader, s.sizes)
  }

  // ---------- every step ----------

  lemma AccountedAdds(sizes: seq<int>, live: map<nat, Info>, p: nat, info: Info)
    requires Accounted(sizes, live) && p !in live && info.htPos < |sizes| && 0 <= info.size < 0x8000_0000
    ensures Accounted(sizes[info.htPos := sizes[info.htPos] + info.size], live[p := info])
  {
    forall i: nat | i < |sizes|
      ensures LiveAt(live[p := info], i) == LiveAt(live, i) + Contribution(info, i)
    {
      AddOne(live, p, info, i);
    }
    AddOne(live, p, info, info.htPos);
    SumUpdate(sizes, info.htPos, sizes[info.htPos] + info.size);
  }

  /** The block's bytes come off its slot, which has them: the assert holds. */
  lemma AccountedRemoves(sizes: seq<int>, live: map<nat, Info>, p: nat)
    requires Accounted(sizes, live) && p in live
    ensures var info := live[p];
            && sizes[info.htPos] >= info.size >= 0
            && Accounted(sizes[info.htPos := sizes[info.htPos] - info.size], live - {p})
  {
    var info := live[p];
    forall i: nat | i < |sizes|
      ensures LiveAt(live, i) == LiveAt(live - {p}, i) + Contribution(info, i)
    {
      TakeOne(live, p, i);
    }
    TakeOne(live, p, info.htPos);
    LiveNonNegative(live - {p}, info.htPos);
    SumUpdate(sizes, info.htPos, sizes[info.htPos] - info.size);
  }

  /** A thread that comes to own only unowned blocks, or fewer. */
  lemma ThreadMoves(threads: seq<Thread>, live: map<nat, Info>, slots: nat, t: nat, th: Thread)
    requires ThreadsOk(threads, live, slots) && t < |threads| && ThreadOk(th, live, slots)
    requires forall p | p in Owned(th) :: p in Owned(threads[t]) || Unowned(threads, p)
    ensures ThreadsOk(threads[t := th], live, slots)
  {
  }

  /** Counting a block disturbs no thread but its owner's. */
  lemma ThreadsKeepAdding(threads: seq<Thread>, live: map<nat, Info>, slots: nat, t: nat, th: Thread, p: nat, info: Info)
    requires ThreadsOk(threads, live, slots) && t < |threads| && p in Owned(threads[t]) && p !in live
    requires Owned(th) <= Owned(threads[t]) && ThreadOk(th, live[p := info], slots)
    ensures ThreadsOk(threads[t := th], live[p := info], slots)
  {
    forall u: nat | u < |threads| && u != t
      ensures ThreadOk(threads[u], live[p := info], slots)
    {
      assert Owned(threads[u]) !! Owned(threads[t]);
      assert ThreadOk(threads[u], live, slots);
      assert p !in Owned(threads[u]);
    }
  }

  lemma ThreadsKeepRemoving(threads: seq<Thread>, live: map<nat, Info>, slots: nat, t: nat, p: nat)
    requires ThreadsOk(threads, live, slots) && t < |threads| && p in Owned(threads[t])
    ensures ThreadsOk(threads[t := Idle], live - {p}, slots)
  {
    forall u: nat | u < |threads| && u != t
      ensures ThreadOk(threads[u], live - {p}, slots)
    {
      assert Owned(threads[u]) !! Owned(threads[t]);
      assert ThreadOk(threads[u], live, slots);
      assert p !in Owned(threads[u]);
    }
  }

  /** One slot changes by d. */
  lemma RestChanges(sizes: seq<int>, i: nat, next: nat, d: int)
    requires i < |sizes| && next <= |sizes|
    ensures var after := sizes[i := sizes[i] + d];
            Sum(after) - Sum(after[..next]) == Sum(sizes) - Sum(sizes[..next]) + if i < next then 0 else d
  {
    var after := sizes[i := sizes[i] + d];
    SumUpdate(sizes, i, sizes[i] + d);
    if i < next {
      SumUpdate(sizes[..next], i, sizes[i] + d);
      assert after[..next] == sizes[..next][i := sizes[i] + d];
    } else {
      assert after[..next] == sizes[..next];
    }
  }

  lemma ReaderSeesChange(r: Reader, sizes: seq<int>, i: nat, d: int)
    requires ReaderOk(r, sizes) && i < |sizes|
    ensures d >= 0 ==> ReaderOk(Added(r, d), sizes[i := sizes[i] + d])
    ensures d <= 0 ==> ReaderOk(Removed(r, -d), sizes[i := sizes[i] + d])
  {
    if r.Reading? {
      RestChanges(sizes, i, r.next, d);
    }
  }

  lemma AddKeeps(s: State, t: nat)
    requires Inv(s) && CanDo(s, FetchAdd(t)) && s.threads[t].info.size >= 0
    ensures Inv(Exec(s, FetchAdd(t)))
  {
    hide Accounted;
    var Adding(p, info, released) := s.threads[t];
    assert ThreadOk(s.threads[t], s.live, |s.sizes|);
    var th := if released.Some? then Removing(released.value) else Idle;
    AccountedAdds(s.sizes, s.live, p, info);
    ThreadsKeepAdding(s.threads, s.live, |s.sizes|, t, th, p, info);
    ReaderSeesChange(s.reader, s.sizes, info.htPos, info.size);
  }

  lemma SubKeeps(s: State, t: nat)
    requires Inv(s) && CanDo(s, FetchSub(t))
    ensures Inv(Exec(s, FetchSub(t))) && !Exec(s, FetchSub(t)).aborted
  {
    hide Accounted, ThreadsOk, ReaderOk;
    var p := s.threads[t].p;
    var info := s.live[p];
    AccountedRemoves(s.sizes, s.live, p);
    ThreadsKeepRemoving(s.threads, s.live, |s.sizes|, t, p);
    ReaderSeesChange(s.reader, s.sizes, info.htPos, -info.size);
  }

  lemma ReadKeeps(s: State)
    requires Inv(s) && CanDo(s, ReadSlot)
    ensures Inv(Exec(s, ReadSlot))
  {
    var n := s.reader.next;
    assert s.sizes[..n + 1][..n] == s.sizes[..n];
  }

  /** Every step keeps the account, and the only assert that can fail is the one on a negative size. */
  lemma StepKeeps(s: State, step: Step)
    requires Inv(s) && CanDo(s, step)
    ensures Inv(Exec(s, step))
    ensures Exec(s, step).aborted <==> step.FetchAdd? && s.threads[step.t].info.size < 0
  {
    hide Accounted;
    match step
    case CallMalloc(t, p, size, htPos) =>
      ThreadMoves(s.threads, s.live, |s.sizes|, t, Adding(p, Info(Cast32(size), htPos), None));
    case CallFree(t, p) =>
      ThreadMoves(s.threads, s.live, |s.sizes|, t, Removing(p));
    case CallRealloc(t, p, q, size, htPos) =>
      ThreadMoves(s.threads, s.live, |s.sizes|, t, Adding(q, Info(Cast32(size), htPos), Some(p)));
    case FetchAdd(t) =>
      if s.threads[t].info.size >= 0 {
        AddKeeps(s, t);
      }
    case FetchSub(t) => SubKeeps(s, t);
    case StartReading => assert s.sizes[..0] == [];
    case ReadSlot => ReadKeeps(s);
  }

  // ---------- whole runs ----------

  function Start(slots: nat, threads: nat): State {
    State(seq(slots, _ => 0), map[], seq(threads, _ => Idle), Away, false)
  }

  ghost predicate IsRun(states: seq<State>, steps: seq<Step>, slots: nat, threads: nat) {
    && |states| == |steps| + 1 && states[0] == Start(slots, threads)
    && forall k: nat | k < |steps| :: CanDo(states[k], steps[k]) && states[k + 1] == Exec(states[k], steps[k])
  }

  lemma {:induction false} SumZeros(n: nat)
    ensures Sum(seq(n, _ => 0)) == 0
  {
    if n > 0 {
      assert seq(n, _ => 0)[..n - 1] == seq(n - 1, _ => 0);
      SumZeros(n - 1);
    }
  }

  lemma {:induction false} RunInv(states: seq<State>, steps: seq<Step>, slots: nat, threads: nat, k: nat)
    requires IsRun(states, steps, slots, threads) && k < |states|
    ensures Inv(states[k]) && |states[k].sizes| == slots
  {
    if k == 0 {
      SumZeros(slots);
    } else {
      RunInv(states, steps, slots, threads, k - 1);
      StepKeeps(states[k - 1], steps[k - 1]);
    }
  }

  /**
   In every interleaving, at any time: each slot holds exactly the bytes of its live blocks, all
   slots together those of all live blocks, and the program has stopped exactly if the last
   operation was the fetch_add of a size that does not fit 31 bits.
   */
  lemma RunAccounts(states: seq<State>, steps: seq<Step>, slots: nat, threads: nat, k: nat)
    requires IsRun(states, steps, slots, threads) && k < |states|
    ensures forall i: nat | i < slots :: |states[k].sizes| == slots && states[k].sizes[i] == LiveAt(states[k].live, i)
    ensures Sum(states[k].sizes) == LiveTotal(states[k].live)
    ensures states[k].aborted <==>
            k > 0 && steps[k - 1].FetchAdd? && states[k - 1].threads[steps[k - 1].t].info.size < 0
  {
    RunInv(states, steps, slots, threads, k);
    if k > 0 {
      RunInv(states, steps, slots, threads, k - 1);
      StepKeeps(states[k - 1], steps[k - 1]);
    }
  }

  /** Bytes added, or removed, by one step. */
  function Amount(s: State, step: Step, adding: bool): int
    requires CanDo(s, step)
  {
    if adding && step.FetchAdd? && s.threads[step.t].info.size >= 0 then s.threads[step.t].info.size
    else if !adding && step.FetchSub? then s.live[s.threads[step.t].p].size
    else 0
  }

  lemma ReaderStep(s: State, step: Step)
    requires CanDo(s, step) && s.reader.Reading? && !step.StartReading?
    ensures var r := Exec(s, step).reader;
            && r.Reading? && r.start == s.reader.start
            && r.added == s.reader.added + Amount(s, step, true) && r.removed == s.reader.removed + Amount(s, step, false)
  {
  }

  lemma ReaderBegins(s: State)
    requires Inv(s) && CanDo(s, StartReading)
    ensures Exec(s, StartReading).reader == Reading(0, 0, LiveTotal(s.live), 0, 0)
    ensures Amount(s, StartReading, true) == 0 && Amount(s, StartReading, false) == 0
  {
  }

  /** Bytes added, or removed, by the steps from b to k. */
  ghost function Changed(states: seq<State>, steps: seq<Step>, adding: bool, b: nat, k: nat): int
    requires b <= k <= |steps| < |states| && forall j: nat | j < |steps| :: CanDo(states[j], steps[j])
  {
    if k == b then 0 else Changed(states, steps, adding, b, k - 1) + Amount(states[k - 1], steps[k - 1], adding)
  }

  /** A reader that began with step b. */
  ghost predicate ReadsSince(steps: seq<Step>, b: nat, k: nat)
    requires k <= |steps|
  {
    b < k && steps[b].StartReading? && forall j: nat | b < j < k :: !steps[j].StartReading?
  }

  lemma {:induction false} ReaderCounts(states: seq<State>, steps: seq<Step>, slots: nat, threads: nat, b: nat, k: nat)
    requires IsRun(states, steps, slots, threads) && k <= |steps| && ReadsSince(steps, b, k)
    ensures states[k].reader.Reading? && states[k].reader.start == LiveTotal(states[b].live)
    ensures states[k].reader.added == Changed(states, steps, true, b, k)
    ensures states[k].reader.removed == Changed(states, steps, false, b, k)
  {
    hide Exec, Amount, CanDo, Inv;
    if k == b + 1 {
      RunInv(states, steps, slots, threads, b);
      ReaderBegins(states[b]);
      assert Changed(states, steps, true, b, b) == 0 && Changed(states, steps, false, b, b) == 0;
    } else {
      ReaderCounts(states, steps, slots, threads, b, k - 1);
      ReaderStep(states[k - 1], steps[k - 1]);
    }
  }

  /**
   A reader that has passed all slots, while other threads went on: its total lies between the bytes
   live when it began less those removed since and the bytes live when it began plus those added since.
   */
  lemma RunReads(states: seq<State>, steps: seq<Step>, slots: nat, threads: nat, b: nat, k: nat)
    requires IsRun(states, steps, slots, threads) && k <= |steps| && ReadsSince(steps, b, k)
    requires states[k].reader.Reading? && states[k].reader.next == slots
    ensures var total, start := states[k].reader.total, LiveTotal(states[b].live);
            start - Changed(states, steps, false, b, k) <= total <= start + Changed(states, steps, true, b, k)
  {
    RunInv(states, steps, slots, threads, k);
    ReaderCounts(states, steps, slots, threads, b, k);
    assert states[k].sizes[..slots] == states[k].sizes;
  }
}

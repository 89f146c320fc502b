/**
 The lock-free backtrace table of memprof/memprof.cpp: get_ht_pos called by any number
 of threads at once. Every load, compare-exchange and increment of an atomic is one step.
 A hash of 0 marks an empty slot.
 */
module ProfilerTable {
  import opened Bytes

  /** Where a thread is inside get_ht_pos: the atomic operation it is about to do. */
  datatype Op =
    | Load      // ht[pos].hash.load()
    | Room      // saw 0; ht_size > HT_MAX_SIZE / 2
    | RoomForce // forced; ht_size * 10 < HT_MAX_SIZE * 7
    | Swap      // ht[pos].hash.compare_exchange_strong(0, hash)
    | Count     // ++ht_size
    | Done      // return pos

  /** `asked` is the hash of the caller's backtrace; `force` marks the redirected call for "unknown". */
  datatype Call = Call(asked: nat, hash: nat, force: bool, pos: nat, wrapped: bool)

  datatype Pc = Idle | At(op: Op, call: Call) | Aborted

  /** ht's hashes, ht_size, and the threads. `unknown` is the hash of the "unknown" backtrace. */
  datatype State = State(hashes: seq<nat>, size: nat, threads: seq<Pc>, unknown: nat)

  function FirstCall(s: State, asked: nat): Call
    requires |s.hashes| > 0
  {
    Call(asked, asked, false, asked % |s.hashes|, false)
  }

  function Redirect(s: State, c: Call): Call
    requires |s.hashes| > 0
  {
    Call(c.asked, s.unknown, true, s.unknown % |s.hashes|, false)
  }

  /** pos++ with wrap-around; a second wrap aborts. */
  function Advance(s: State, c: Call): Pc {
    if c.pos + 1 < |s.hashes| then At(Load, c.(pos := c.pos + 1))
    else if c.wrapped then Aborted
    else At(Load, c.(pos := 0, wrapped := true))
  }

  /** The pc a thread moves to. */
  function NextPc(s: State, op: Op, c: Call): Pc
    requires c.pos < |s.hashes|
  {
    match op
    case Load =>
      if s.hashes[c.pos] == 0 then At(Room, c)
      else if s.hashes[c.pos] == c.hash then At(Done, c)
      else Advance(s, c)
    case Room =>
      if s.size > |s.hashes| / 2 then (if c.force then At(RoomForce, c) else At(Load, Redirect(s, c)))
      else At(Swap, c)
    case RoomForce => if s.size * 10 < |s.hashes| * 7 then At(Swap, c) else Aborted
    case Swap => if s.hashes[c.pos] == 0 then At(Count, c) else At(Load, c)
    case Count => At(Done, c)
    case Done => Idle
  }

  /** Whether the step inserts: a compare-exchange that finds the slot empty. */
  predicate Inserts(s: State, op: Op, c: Call)
    requires c.pos < |s.hashes|
  {
    op.Swap? && s.hashes[c.pos] == 0
  }

  /** Thread t, which is inside a call, does its next atomic operation. */
  function Step(s: State, t: nat): State
    requires t < |s.threads| && s.threads[t].At? && s.threads[t].call.pos < |s.hashes|
  {
    var op, c := s.threads[t].op, s.threads[t].call;
    State(if Inserts(s, op, c) then s.hashes[c.pos := c.hash] else s.hashes,
          if op.Count? then s.size + 1 else s.size,
          s.threads[t := NextPc(s, op, c)],
          s.unknown)
  }

  /** Thread t, which is idle, calls get_ht_pos. */
  function Begin(s: State, t: nat, asked: nat): State
    requires t < |s.threads| && |s.hashes| > 0
  {
    s.(threads := s.threads[t := At(Load, FirstCall(s, asked))])
  }

  // ---------- what a probe has seen ----------

  /** Slot j is taken by another hash. */
  predicate Passed(hashes: seq<nat>, h: nat, j: nat)
    requires j < |hashes|
  {
    hashes[j] != 0 && hashes[j] != h
  }

  /** Every slot a probe for h looks at before `pos`, having wrapped or not, is taken by another hash. */
  predicate PathTaken(hashes: seq<nat>, h: nat, pos: nat, wrapped: bool)
    requires pos < |hashes|
  {
    var home := h % |hashes|;
    if wrapped then
      && (forall j: nat | home <= j < |hashes| :: Passed(hashes, h, j))
      && (forall j: nat | j < pos :: Passed(hashes, h, j))
    else
      home <= pos && forall j: nat | home <= j < pos :: Passed(hashes, h, j)
  }

  /** A taken slot can be reached from the home of its hash over taken slots only. */
  predicate SlotOk(hashes: seq<nat>, i: nat)
    requires i < |hashes|
  {
    hashes[i] != 0 ==> exists w: bool :: PathTaken(hashes, hashes[i], i, w)
  }

  predicate SlotsOk(hashes: seq<nat>) {
    forall i: nat | i < |hashes| :: SlotOk(hashes, i)
  }

  predicate CallOk(s: State, op: Op, c: Call) {
    && c.hash == (if c.force then s.unknown else c.asked)
    && c.pos < |s.hashes|
    && (op.RoomForce? ==> c.force)
    && if op.Count? || op.Done? then c.hash != 0 ==> s.hashes[c.pos] == c.hash
       else PathTaken(s.hashes, c.hash, c.pos, c.wrapped)
  }

  predicate ThreadOk(s: State, t: nat)
    requires t < |s.threads|
  {
    s.threads[t].Idle? || (s.threads[t].At? && CallOk(s, s.threads[t].op, s.threads[t].call))
  }

  // ---------- counting ----------

  function One(b: bool): nat { if b then 1 else 0 }

  function Occupied(hashes: seq<nat>): nat {
    if hashes == [] then 0 else One(hashes[0] != 0) + Occupied(hashes[1..])
  }

  /** Inserted but not yet counted in ht_size. */
  predicate IsCounting(p: Pc) { p.At? && p.op.Count? }

  /** Has found room without force and may still insert. */
  predicate IsPending(p: Pc) { p.At? && p.op.Swap? && !p.call.force }

  function Counting(threads: seq<Pc>): nat {
    if threads == [] then 0 else One(IsCounting(threads[0])) + Counting(threads[1..])
  }

  function Pending(threads: seq<Pc>): nat {
    if threads == [] then 0 else One(IsPending(threads[0])) + Pending(threads[1..])
  }

  lemma {:induction false} OccupiedUpdate(hashes: seq<nat>, i: nat, h: nat)
    requires i < |hashes|
    ensures Occupied(hashes[i := h]) == Occupied(hashes) - One(hashes[i] != 0) + One(h != 0)
  {
    if i > 0 {
      assert hashes[i := h][1..] == hashes[1..][i - 1 := h];
      OccupiedUpdate(hashes[1..], i - 1, h);
    }
  }

  lemma {:induction false} OccupiedFull(hashes: seq<nat>)
    requires forall i: nat | i < |hashes| :: hashes[i] != 0
    ensures Occupied(hashes) == |hashes|
  {
    if hashes != [] {
      OccupiedFull(hashes[1..]);
    }
  }

  lemma {:induction false} CountUpdate(threads: seq<Pc>, t: nat, p: Pc)
    requires t < |threads|
    ensures Counting(threads[t := p]) == Counting(threads) - One(IsCounting(threads[t])) + One(IsCounting(p))
    ensures Pending(threads[t := p]) == Pending(threads) - One(IsPending(threads[t])) + One(IsPending(p))
  {
    if t > 0 {
      assert threads[t := p][1..] == threads[1..][t - 1 := p];
      CountUpdate(threads[1..], t - 1, p);
    }
  }

  lemma {:induction false} CountBound(threads: seq<Pc>)
    ensures Counting(threads) + Pending(threads) <= |threads|
  {
    if threads != [] {
      CountBound(threads[1..]);
    }
  }

  /**
   ht_size and the threads about to count cover the taken slots; insertions without force stop
   once ht_size passes half.
   */
  predicate LoadOk(s: State) {
    && Occupied(s.hashes) <= s.size + Counting(s.threads)
    && s.size + Counting(s.threads) + Pending(s.threads) <= |s.hashes| / 2 + |s.threads| + One(s.unknown in s.hashes)
  }

  predicate Inv(s: State) {
    && s.unknown != 0 && |s.threads| + 1 < |s.hashes| / 5
    && SlotsOk(s.hashes)
    && (forall t: nat | t < |s.threads| :: ThreadOk(s, t))
    && LoadOk(s)
  }

  // ---------- no hash twice ----------

  /** Slot j lies on the probe path of h up to pos. */
  predicate OnPath(m: nat, h: nat, pos: nat, wrapped: bool, j: nat)
    requires m > 0
  {
    if wrapped then h % m <= j || j < pos else h % m <= j < pos
  }

  lemma PathCovers(hashes: seq<nat>, h: nat, pos: nat, wrapped: bool, j: nat)
    requires pos < |hashes| && j < |hashes| && PathTaken(hashes, h, pos, wrapped)
    ensures OnPath(|hashes|, h, pos, wrapped, j) ==> Passed(hashes, h, j)
    ensures !wrapped ==> h % |hashes| <= pos
  {
  }

  /** A probe that stands at an empty slot has shown that its hash is nowhere in the table. */
  lemma EmptyMeansAbsent(hashes: seq<nat>, h: nat, pos: nat, wrapped: bool, i: nat)
    requires pos < |hashes| && i < |hashes| && h != 0
    requires PathTaken(hashes, h, pos, wrapped) && hashes[pos] == 0 && SlotOk(hashes, i)
    ensures hashes[i] != h
  {
    if hashes[i] == h {
      var w: bool :| PathTaken(hashes, h, i, w);
      PathCovers(hashes, h, pos, wrapped, i);
      PathCovers(hashes, h, i, w, pos);
    }
  }

  /** No hash occupies two slots. */
  lemma HashesUnique(hashes: seq<nat>, i: nat, j: nat)
    requires SlotsOk(hashes) && i < |hashes| && j < |hashes| && hashes[i] == hashes[j] != 0
    ensures i == j
  {
    var h := hashes[i];
    assert SlotOk(hashes, i) && SlotOk(hashes, j);
    var wi: bool :| PathTaken(hashes, h, i, wi);
    var wj: bool :| PathTaken(hashes, h, j, wj);
    PathCovers(hashes, h, i, wi, j);
    PathCovers(hashes, h, j, wj, i);
  }

  // ---------- filling a slot ----------

  /** Paths survive the filling of an empty slot: they only lead over taken ones. */
  lemma PathSurvives(hashes: seq<nat>, p: nat, h': nat, h: nat, pos: nat, wrapped: bool)
    requires p < |hashes| && pos < |hashes| && hashes[p] == 0 && h' != 0
    requires PathTaken(hashes, h, pos, wrapped)
    ensures PathTaken(hashes[p := h'], h, pos, wrapped)
  {
    var home := h % |hashes|;
    var after := hashes[p := h'];
    forall j: nat | j < |hashes| && Passed(hashes, h, j)
      ensures Passed(after, h, j)
    {
      assert j != p;
    }
    if wrapped {
      assert forall j: nat | home <= j < |hashes| :: Passed(hashes, h, j) && Passed(after, h, j);
      assert forall j: nat | j < pos :: Passed(hashes, h, j) && Passed(after, h, j);
    } else {
      assert forall j: nat | home <= j < pos :: Passed(hashes, h, j) && Passed(after, h, j);
    }
  }

  lemma InsertKeepsSlots(hashes: seq<nat>, p: nat, h: nat, wrapped: bool)
    requires p < |hashes| && hashes[p] == 0 && h != 0 && SlotsOk(hashes) && PathTaken(hashes, h, p, wrapped)
    ensures SlotsOk(hashes[p := h])
  {
    var after := hashes[p := h];
    PathSurvives(hashes, p, h, h, p, wrapped);
    assert PathTaken(after, after[p], p, wrapped);
    forall i: nat | i < |after|
      ensures SlotOk(after, i)
    {
      if i != p && hashes[i] != 0 {
        assert SlotOk(hashes, i);
        var w: bool :| PathTaken(hashes, hashes[i], i, w);
        PathSurvives(hashes, p, h, hashes[i], i, w);
        assert PathTaken(after, after[i], i, w);
      }
    }
  }

  // ---------- every step keeps the invariant ----------

  lemma OthersKept(s: State, t: nat)
    requires Inv(s) && t < |s.threads| && s.threads[t].At? && s.threads[t].call.pos < |s.hashes|
    ensures forall u: nat | u < |s.threads| && u != t :: ThreadOk(Step(s, t), u)
  {
    var c := s.threads[t].call;
    assert ThreadOk(s, t);
    forall u: nat | u < |s.threads| && u != t
      ensures ThreadOk(Step(s, t), u)
    {
      assert ThreadOk(s, u);
      var p := s.threads[u];
      if Inserts(s, s.threads[t].op, c) && c.hash == 0 {
        assert s.hashes[c.pos := c.hash] == s.hashes;
      }
      if p.At? && Inserts(s, s.threads[t].op, c) && c.hash != 0 && !p.op.Count? && !p.op.Done? {
        PathSurvives(s.hashes, c.pos, c.hash, p.call.hash, p.call.pos, p.call.wrapped);
      }
    }
  }

  lemma SlotsKept(s: State, t: nat)
    requires Inv(s) && t < |s.threads| && s.threads[t].At?
    ensures s.threads[t].call.pos < |s.hashes| && SlotsOk(Step(s, t).hashes)
  {
    var c := s.threads[t].call;
    assert ThreadOk(s, t);
    if Inserts(s, s.threads[t].op, c) && c.hash == 0 {
      assert s.hashes[c.pos := c.hash] == s.hashes;
    } else if Inserts(s, s.threads[t].op, c) {
      InsertKeepsSlots(s.hashes, c.pos, c.hash, c.wrapped);
    }
  }

  /** At most half the table, one slot per thread and the "unknown" slot are ever taken. */
  lemma OccupiedBound(s: State)
    requires Inv(s)
    ensures Occupied(s.hashes) <= |s.hashes| / 2 + |s.threads| + 1
    ensures Occupied(s.hashes) < |s.hashes| && s.size * 10 < |s.hashes| * 7
  {
  }

  /** Moving past a slot taken by another hash: the second wrap cannot happen. */
  lemma AdvanceOk(s: State, c: Call)
    requires Inv(s) && CallOk(s, Load, c) && Passed(s.hashes, c.hash, c.pos)
    ensures Advance(s, c).At? && CallOk(s, Load, Advance(s, c).call)
  {
    OccupiedBound(s);
    if c.wrapped && c.pos + 1 == |s.hashes| {
      forall i: nat | i < |s.hashes|
        ensures s.hashes[i] != 0
      {
        PathCovers(s.hashes, c.hash, c.pos, true, i);
      }
      OccupiedFull(s.hashes);
    }
  }

  lemma ActorOk(s: State, t: nat)
    requires Inv(s) && t < |s.threads| && s.threads[t].At? && s.threads[t].call.pos < |s.hashes|
    ensures ThreadOk(Step(s, t), t)
  {
    var op, c := s.threads[t].op, s.threads[t].call;
    assert ThreadOk(s, t);
    OccupiedBound(s);
    if op.Load? && s.hashes[c.pos] != 0 && s.hashes[c.pos] != c.hash {
      AdvanceOk(s, c);
    }
  }

  lemma InsertedCount(s: State, t: nat)
    requires Inv(s) && t < |s.threads| && s.threads[t].At? && s.threads[t].call.pos < |s.hashes|
    requires Inserts(s, s.threads[t].op, s.threads[t].call)
    ensures Occupied(Step(s, t).hashes) == Occupied(s.hashes) + One(s.threads[t].call.hash != 0)
    ensures s.threads[t].call.force ==> s.unknown in Step(s, t).hashes && s.unknown !in s.hashes
    ensures s.unknown in s.hashes ==> s.unknown in Step(s, t).hashes
  {
    var c := s.threads[t].call;
    assert ThreadOk(s, t);
    OccupiedUpdate(s.hashes, c.pos, c.hash);
    assert Step(s, t).hashes[c.pos] == c.hash;
    if c.force && s.unknown in s.hashes {
      var i: nat :| i < |s.hashes| && s.hashes[i] == s.unknown;
      assert SlotOk(s.hashes, i);
      EmptyMeansAbsent(s.hashes, c.hash, c.pos, c.wrapped, i);
    }
    if s.unknown in s.hashes {
      var i: nat :| i < |s.hashes| && s.hashes[i] == s.unknown;
      assert Step(s, t).hashes[i] == s.unknown;
    }
  }

  lemma LoadKept(s: State, t: nat)
    requires Inv(s) && t < |s.threads| && s.threads[t].At? && s.threads[t].call.pos < |s.hashes|
    ensures LoadOk(Step(s, t))
  {
    var op, c := s.threads[t].op, s.threads[t].call;
    assert ThreadOk(s, t);
    CountUpdate(s.threads, t, NextPc(s, op, c));
    CountBound(Step(s, t).threads);
    if Inserts(s, op, c) {
      InsertedCount(s, t);
    }
  }

  /**
   Any thread's next atomic operation: filled slots keep their hash, no thread aborts,
   and the invariant is kept.
   */
  lemma StepKeeps(s: State, t: nat)
    requires Inv(s) && t < |s.threads| && s.threads[t].At?
    ensures s.threads[t].call.pos < |s.hashes|
    ensures Inv(Step(s, t)) && !Step(s, t).threads[t].Aborted?
    ensures forall i: nat | i < |s.hashes| && s.hashes[i] != 0 :: Step(s, t).hashes[i] == s.hashes[i]
  {
    SlotsKept(s, t);
    OthersKept(s, t);
    ActorOk(s, t);
    LoadKept(s, t);
    forall u: nat | u < |s.threads|
      ensures ThreadOk(Step(s, t), u)
    {
      if u == t {
        ActorOk(s, t);
      }
    }
  }

  lemma BeginKeeps(s: State, t: nat, asked: nat)
    requires Inv(s) && t < |s.threads| && s.threads[t].Idle?
    ensures Inv(Begin(s, t, asked))
  {
    var s' := Begin(s, t, asked);
    CountUpdate(s.threads, t, At(Load, FirstCall(s, asked)));
    forall u: nat | u < |s.threads|
      ensures ThreadOk(s', u)
    {
      assert ThreadOk(s, u);
    }
  }

  // ---------- runs ----------

  datatype Action = Starts(t: nat, asked: nat) | Continues(t: nat)

  predicate CanDo(s: State, a: Action) {
    a.t < |s.threads| &&
    if a.Starts? then s.threads[a.t].Idle?
    else s.threads[a.t].At? && s.threads[a.t].call.pos < |s.hashes|
  }

  function Do(s: State, a: Action): State
    requires |s.hashes| > 0 && CanDo(s, a)
  {
    if a.Starts? then Begin(s, a.t, a.asked) else Step(s, a.t)
  }

  /** An empty table of m slots and n idle threads. */
  function Start(m: nat, n: nat, unknown: nat): State {
    State(seq(m, _ => 0), 0, seq(n, _ => Idle), unknown)
  }

  lemma {:induction false} StartCounts(m: nat, n: nat)
    ensures Occupied(seq(m, _ => 0)) == 0
    ensures Counting(seq(n, _ => Idle)) == 0 && Pending(seq(n, _ => Idle)) == 0
  {
    if m > 0 {
      assert seq<nat>(m, _ => 0)[1..] == seq<nat>(m - 1, _ => 0);
      StartCounts(m - 1, n);
    } else if n > 0 {
      assert seq<Pc>(n, _ => Idle)[1..] == seq<Pc>(n - 1, _ => Idle);
      StartCounts(m, n - 1);
    }
  }

  /** Every state of a run: `states` starts empty and each one follows by a possible action. */
  predicate IsRun(states: seq<State>, actions: seq<Action>, m: nat, n: nat, unknown: nat) {
    && |states| == |actions| + 1
    && states[0] == Start(m, n, unknown)
    && forall k: nat | k < |actions| ::
         |states[k].hashes| > 0 && CanDo(states[k], actions[k]) && states[k + 1] == Do(states[k], actions[k])
  }

  lemma {:induction false} RunInv(states: seq<State>, actions: seq<Action>, m: nat, n: nat, unknown: nat, k: nat)
    requires IsRun(states, actions, m, n, unknown) && n + 1 < m / 5 && unknown != 0 && k < |states|
    ensures Inv(states[k]) && |states[k].hashes| == m && |states[k].threads| == n && states[k].unknown == unknown
  {
    if k == 0 {
      StartCounts(m, n);
    } else {
      RunInv(states, actions, m, n, unknown, k - 1);
      var a := actions[k - 1];
      if a.Starts? {
        BeginKeeps(states[k - 1], a.t, a.asked);
      } else {
        StepKeeps(states[k - 1], a.t);
      }
    }
  }

  /** In every run, at any time: no hash fills two slots, no thread has aborted, the load stays bounded. */
  lemma RunSafe(states: seq<State>, actions: seq<Action>, m: nat, n: nat, unknown: nat, k: nat)
    requires IsRun(states, actions, m, n, unknown) && n + 1 < m / 5 && unknown != 0 && k < |states|
    ensures |states[k].hashes| == m && |states[k].threads| == n
    ensures forall i: nat, j: nat | i < m && j < m && states[k].hashes[i] == states[k].hashes[j] != 0 :: i == j
    ensures forall t: nat | t < n :: !states[k].threads[t].Aborted?
    ensures Occupied(states[k].hashes) <= m / 2 + n + 1
  {
    RunInv(states, actions, m, n, unknown, k);
    var s := states[k];
    forall i: nat, j: nat | i < m && j < m && s.hashes[i] == s.hashes[j] != 0
      ensures i == j
    {
      HashesUnique(s.hashes, i, j);
    }
    assert forall t: nat | t < n :: ThreadOk(s, t) ==> !s.threads[t].Aborted?;
  }

  /** A filled slot keeps its hash for the rest of the run. */
  lemma {:induction false} RunMonotone(states: seq<State>, actions: seq<Action>, m: nat, n: nat, unknown: nat,
                                       k: nat, l: nat, i: nat)
    requires IsRun(states, actions, m, n, unknown) && n + 1 < m / 5 && unknown != 0 && k <= l < |states| && i < m
    requires |states[k].hashes| == m && states[k].hashes[i] != 0
    ensures |states[l].hashes| == m && states[l].hashes[i] == states[k].hashes[i]
  {
    if k < l {
      RunMonotone(states, actions, m, n, unknown, k, l - 1, i);
      RunInv(states, actions, m, n, unknown, l - 1);
      if actions[l - 1].Continues? {
        StepKeeps(states[l - 1], actions[l - 1].t);
      }
    }
  }

  /** With two slots free, no empty slot is the only one. */
  lemma AnotherEmpty(hashes: seq<nat>, p: nat)
    requires p < |hashes| && Occupied(hashes) + 1 < |hashes|
    ensures exists i: nat :: i < |hashes| && i != p && hashes[i] == 0
  {
    if forall i: nat | i < |hashes| && i != p :: hashes[i] != 0 {
      OccupiedUpdate(hashes, p, 1);
      OccupiedFull(hashes[p := 1]);
    }
  }

  /**
   A call that returns has probed for its own hash or, redirected, for the "unknown" one. It
   yields the one slot of that hash if and only if the hash is not 0.
   */
  lemma RunReturns(states: seq<State>, actions: seq<Action>, m: nat, n: nat, unknown: nat, k: nat, t: nat)
    requires IsRun(states, actions, m, n, unknown) && n + 1 < m / 5 && unknown != 0 && k < |states|
    requires |states[k].threads| == n && t < n && states[k].threads[t].At? && states[k].threads[t].op.Done?
    ensures var s, c := states[k], states[k].threads[t].call;
            && c.pos < |s.hashes| == m && c.hash == (if c.force then unknown else c.asked)
            && (c.hash != 0 <==> s.hashes[c.pos] == c.hash &&
                                 forall i: nat | i < m && s.hashes[i] == s.hashes[c.pos] :: i == c.pos)
  {
    RunInv(states, actions, m, n, unknown, k);
    RunSafe(states, actions, m, n, unknown, k);
    var s, c := states[k], states[k].threads[t].call;
    assert ThreadOk(s, t);
    OccupiedBound(s);
    if s.hashes[c.pos] == 0 {
      AnotherEmpty(s.hashes, c.pos);
    }
  }

  /** Two returned calls with hashes other than 0 share a slot if and only if they share the hash. */
  lemma RunSlots(states: seq<State>, actions: seq<Action>, m: nat, n: nat, unknown: nat, k: nat, t: nat, u: nat)
    requires IsRun(states, actions, m, n, unknown) && n + 1 < m / 5 && unknown != 0 && k < |states|
    requires |states[k].threads| == n && t < n && u < n
    requires forall v: nat | v == t || v == u ::
               states[k].threads[v].At? && states[k].threads[v].op.Done? && states[k].threads[v].call.hash != 0
    ensures var c, d := states[k].threads[t].call, states[k].threads[u].call;
            c.pos == d.pos <==> c.hash == d.hash
  {
    RunReturns(states, actions, m, n, unknown, k, t);
    RunReturns(states, actions, m, n, unknown, k, u);
  }

  // ---------- what ht_size counts ----------

  /** A compare-exchange that succeeds with hash 0: it leaves the slot empty. */
  predicate InsertsZero(s: State, a: Action) {
    && a.Continues? && a.t < |s.threads| && s.threads[a.t].At? && s.threads[a.t].call.pos < |s.hashes|
    && Inserts(s, s.threads[a.t].op, s.threads[a.t].call) && s.threads[a.t].call.hash == 0
  }

  function ZeroInserts(states: seq<State>, actions: seq<Action>, k: nat): nat
    requires k <= |actions| < |states|
  {
    if k == 0 then 0 else ZeroInserts(states, actions, k - 1) + One(InsertsZero(states[k - 1], actions[k - 1]))
  }

  lemma SizeStep(s: State, t: nat)
    requires Inv(s) && t < |s.threads| && s.threads[t].At? && s.threads[t].call.pos < |s.hashes|
    ensures var s' := Step(s, t);
            s'.size + Counting(s'.threads) - Occupied(s'.hashes) ==
            s.size + Counting(s.threads) - Occupied(s.hashes) + One(InsertsZero(s, Continues(t)))
  {
    var op, c := s.threads[t].op, s.threads[t].call;
    assert ThreadOk(s, t);
    CountUpdate(s.threads, t, NextPc(s, op, c));
    if Inserts(s, op, c) {
      InsertedCount(s, t);
    }
  }

  /**
   ht_size counts the taken slots and every insertion of hash 0 so far, up to the threads that
   are about to count; it counts the slots alone if and only if hash 0 was never inserted.
   */
  lemma {:induction false} RunSize(states: seq<State>, actions: seq<Action>, m: nat, n: nat, unknown: nat, k: nat)
    requires IsRun(states, actions, m, n, unknown) && n + 1 < m / 5 && unknown != 0 && k < |states|
    ensures states[k].size + Counting(states[k].threads) == Occupied(states[k].hashes) + ZeroInserts(states, actions, k)
    ensures states[k].size + Counting(states[k].threads) == Occupied(states[k].hashes) <==>
            forall j: nat | j < k :: !InsertsZero(states[j], actions[j])
  {
    if k == 0 {
      StartCounts(m, n);
    } else {
      RunSize(states, actions, m, n, unknown, k - 1);
      RunInv(states, actions, m, n, unknown, k - 1);
      var s, a := states[k - 1], actions[k - 1];
      if a.Starts? {
        CountUpdate(s.threads, a.t, At(Load, FirstCall(s, a.asked)));
      } else {
        SizeStep(s, a.t);
      }
      NeverInserted(states, actions, k);
    }
  }

  lemma {:induction false} NeverInserted(states: seq<State>, actions: seq<Action>, k: nat)
    requires k <= |actions| < |states|
    ensures ZeroInserts(states, actions, k) == 0 <==> forall j: nat | j < k :: !InsertsZero(states[j], actions[j])
  {
    if k > 0 {
      NeverInserted(states, actions, k - 1);
    }
  }

  // ---------- every call ends ----------

  /** The slots a probe can still look at, the current one included. */
  function SlotsLeft(m: nat, c: Call): int {
    if c.wrapped then m - c.pos else 2 * m - c.pos
  }

  /** What is left to do at the current slot. */
  function WorkHere(s: State, op: Op, c: Call): nat
    requires c.pos < |s.hashes|
  {
    if op.Swap? then 3
    else if op.RoomForce? then 4
    else if op.Room? then 5
    else if s.hashes[c.pos] == 0 then 6
    else 2
  }

  /** A bound on the operations a call still does itself, whatever the others do. */
  function Work(s: State, p: Pc): int {
    if !p.At? || p.call.pos >= |s.hashes| then 0
    else if p.op.Done? then 1
    else if p.op.Count? then 2
    else
      6 * SlotsLeft(|s.hashes|, p.call) + WorkHere(s, p.op, p.call) + if p.call.force then 0 else 12 * |s.hashes| + 6
  }

  /** One operation of the caller uses up work. */
  lemma WorkStep(s: State, t: nat)
    requires Inv(s) && t < |s.threads| && s.threads[t].At? && s.threads[t].call.pos < |s.hashes|
    ensures 0 <= Work(Step(s, t), Step(s, t).threads[t]) < Work(s, s.threads[t])
  {
    var op, c := s.threads[t].op, s.threads[t].call;
    assert ThreadOk(s, t);
    if op.Load? && s.hashes[c.pos] != 0 && s.hashes[c.pos] != c.hash {
      AdvanceOk(s, c);
    }
  }

  /** The others never add work: slots only fill. */
  lemma WorkOthers(s: State, t: nat, u: nat)
    requires Inv(s) && t < |s.threads| && s.threads[t].At? && u < |s.threads| && u != t
    ensures s.threads[t].call.pos < |s.hashes| && Work(Step(s, t), Step(s, t).threads[u]) <= Work(s, s.threads[u])
  {
    StepKeeps(s, t);
    assert Step(s, t).threads[u] == s.threads[u];
  }

  /** The operations thread t does in actions b up to k. */
  function OwnSteps(actions: seq<Action>, t: nat, b: nat, k: nat): nat
    requires b <= k <= |actions|
  {
    if b == k then 0 else OwnSteps(actions, t, b, k - 1) + One(actions[k - 1] == Continues(t))
  }

  /**
   Every call ends: from its start until thread t calls again, in every interleaving, the
   thread does at most 24 m + 12 operations of its own.
   */
  lemma {:induction false} RunBounded(states: seq<State>, actions: seq<Action>, m: nat, n: nat, unknown: nat,
                                      t: nat, asked: nat, b: nat, k: nat)
    requires IsRun(states, actions, m, n, unknown) && n + 1 < m / 5 && unknown != 0 && b < k < |states|
    requires actions[b] == Starts(t, asked) && forall j: nat | b < j < k :: !(actions[j].Starts? && actions[j].t == t)
    ensures |states[k].threads| == n && t < n
    ensures OwnSteps(actions, t, b + 1, k) + Work(states[k], states[k].threads[t]) <= 24 * m + 12
    ensures OwnSteps(actions, t, b + 1, k) <= 24 * m + 12
  {
    hide Work, Inv, CanDo;
    var s, a := RunStep(states, actions, m, n, unknown, k);
    if k == b + 1 {
      WorkBegin(s, t, asked);
    } else {
      RunBounded(states, actions, m, n, unknown, t, asked, b, k - 1);
      WorkAction(s, a, t);
    }
    WorkNonNegative(Do(s, a), t);
  }

  /** The last step of a run, by itself. */
  lemma RunStep(states: seq<State>, actions: seq<Action>, m: nat, n: nat, unknown: nat, k: nat)
    returns (s: State, a: Action)
    requires IsRun(states, actions, m, n, unknown) && n + 1 < m / 5 && unknown != 0 && 0 < k < |states|
    ensures s == states[k - 1] && a == actions[k - 1] && Inv(s) && |s.hashes| == m && |s.threads| == n
    ensures CanDo(s, a) && states[k] == Do(s, a) && Inv(Do(s, a)) && |Do(s, a).threads| == n
  {
    RunInv(states, actions, m, n, unknown, k - 1);
    RunInv(states, actions, m, n, unknown, k);
    s, a := states[k - 1], actions[k - 1];
  }

  lemma WorkBegin(s: State, t: nat, asked: nat)
    requires t < |s.threads| && |s.hashes| > 0
    ensures Work(Begin(s, t, asked), Begin(s, t, asked).threads[t]) <= 24 * |s.hashes| + 12
  {
  }

  /** Any action that is not a new call of t: its work goes down by what it did itself. */
  lemma WorkAction(s: State, a: Action, t: nat)
    requires Inv(s) && CanDo(s, a) && t < |s.threads| && !(a.Starts? && a.t == t)
    ensures |Do(s, a).threads| == |s.threads|
    ensures Work(Do(s, a), Do(s, a).threads[t]) + One(a == Continues(t)) <= Work(s, s.threads[t])
  {
    if a == Continues(t) {
      WorkStep(s, t);
    } else if a.Continues? {
      WorkOthers(s, a.t, t);
    }
  }

  lemma WorkNonNegative(s: State, t: nat)
    requires Inv(s) && t < |s.threads|
    ensures Work(s, s.threads[t]) >= 0
  {
    assert ThreadOk(s, t);
  }

  // ---------- hash 0 ----------

  /** Thread t does n operations in a row. */
  function Steps(s: State, t: nat, n: nat): (r: State)
    requires |s.hashes| > 0 && t < |s.threads| && s.threads[t].At? && s.threads[t].call.pos < |s.hashes|
    ensures |r.hashes| == |s.hashes| && |r.threads| == |s.threads|
    decreases n
  {
    if n == 0 then s
    else
      var next := Step(s, t);
      if next.threads[t].At? && next.threads[t].call.pos < |next.hashes| then Steps(next, t, n - 1) else next
  }

  /** Four operations that find an empty slot and room take it. */
  lemma FourSteps(s: State, t: nat, c: Call)
    requires t < |s.threads| && s.threads[t] == At(Load, c) && c.pos < |s.hashes|
    requires s.hashes[c.pos] == 0 && s.size <= |s.hashes| / 2
    ensures Steps(s, t, 4) == State(s.hashes[c.pos := c.hash], s.size + 1, s.threads[t := At(Done, c)], s.unknown)
  {
    var s1 := Step(s, t);
    var s2 := Step(s1, t);
    var s3 := Step(s2, t);
    assert s3 == State(s.hashes[c.pos := c.hash], s.size, s.threads[t := At(Count, c)], s.unknown);
    var s4 := Step(s3, t);
    assert Steps(s, t, 4) == Steps(s1, t, 3) == Steps(s2, t, 2) == Steps(s3, t, 1) == s4;
  }

  lemma FiveSteps(s: State, t: nat)
    requires |s.hashes| > 0 && t < |s.threads| && s.threads[t].At? && s.threads[t].call.pos < |s.hashes|
    requires var r := Steps(s, t, 4); r.threads[t].At? && r.threads[t].op.Done? && r.threads[t].call.pos < |r.hashes|
    ensures Steps(s, t, 5) == Steps(s, t, 4).(threads := Steps(s, t, 4).threads[t := Idle])
  {
    assert Steps(s, t, 5) == Step(Steps(s, t, 4), t);
  }

  /**
   A backtrace that hashes to 0 leaves its slot empty, so a later caller with another hash is
   given the same slot.
   */
  lemma ZeroHashShares(m: nat, unknown: nat)
    requires m >= 2
    ensures var first := Steps(Begin(Start(m, 2, unknown), 0, 0), 0, 4);
            && first.threads[0] == At(Done, Call(0, 0, false, 0, false)) && first.threads[1].Idle?
            && var second := Steps(Begin(first, 1, m), 1, 4);
            second.threads[0] == first.threads[0] && second.threads[1] == At(Done, Call(m, m, false, 0, false))
  {
    var start := Begin(Start(m, 2, unknown), 0, 0);
    FourSteps(start, 0, FirstCall(start, 0));
    var first := Steps(start, 0, 4);
    assert m % m == 0;
    var again := Begin(first, 1, m);
    FourSteps(again, 1, FirstCall(first, m));
  }

  /** An empty table and one idle thread after it has been called j times with hash 0. */
  function CalledWithZero(m: nat, unknown: nat, j: nat): State
    requires m > 0
  {
    if j == 0 then Start(m, 1, unknown)
    else
      var s := CalledWithZero(m, unknown, j - 1);
      if |s.threads| == 1 && |s.hashes| > 0 then Steps(Begin(s, 0, 0), 0, 5) else s
  }

  /** Calls with hash 0 add to ht_size and to nothing else, until it is past half. */
  lemma {:induction false} ZerosOnlyCount(m: nat, unknown: nat, j: nat)
    requires m > 0 && j <= m / 2 + 1
    ensures CalledWithZero(m, unknown, j) == Start(m, 1, unknown).(size := j)
  {
    hide Step, Steps;
    if j > 0 {
      ZerosOnlyCount(m, unknown, j - 1);
      var s := Begin(CalledWithZero(m, unknown, j - 1), 0, 0);
      var c := FirstCall(s, 0);
      FourSteps(s, 0, c);
      FiveSteps(s, 0);
      assert Steps(s, 0, 4).hashes == s.hashes;
    }
  }

  /** With ht_size past half, every call is sent to "unknown", even on an empty table. */
  lemma CrowdedRedirects(s: State, m: nat, asked: nat)
    requires m > 0 && s.hashes == seq(m, _ => 0) && s.size > m / 2 && s.threads == seq(1, _ => Idle)
    ensures Occupied(s.hashes) == 0
    ensures Steps(Begin(s, 0, asked), 0, 2).threads[0] == At(Load, Redirect(s, FirstCall(s, asked)))
  {
    StartCounts(m, 1);
    TwoSteps(Begin(s, 0, asked), 0, FirstCall(s, asked));
  }

  /** Past half, an empty slot sends the call to "unknown". */
  lemma TwoSteps(s: State, t: nat, c: Call)
    requires t < |s.threads| && s.threads[t] == At(Load, c) && c.pos < |s.hashes| && !c.force
    requires s.hashes[c.pos] == 0 && s.size > |s.hashes| / 2
    ensures Steps(s, t, 2).threads[t] == At(Load, Redirect(s, c))
  {
    var s1 := Step(s, t);
    assert Steps(s, t, 2) == Steps(s1, t, 1) == Step(s1, t);
  }

  // ---------- the hash itself ----------

  const MULTIPLIER: nat := 0x4372897893428797
  const TWO_64: nat := 0x1_0000_0000_0000_0000

  /** get_hash over the hashed frames. */
  function HashOf(frames: seq<nat>): nat {
    if frames == [] then 7 else (HashOf(frames[..|frames| - 1]) * MULTIPLIER + frames[|frames| - 1]) % TWO_64
  }

  /** The "unknown" backtrace, one frame 1 and then nothing, never hashes to 0. */
  lemma {:induction false} UnknownIsNotZero(frames: seq<nat>)
    requires frames != [] && frames[0] == 1 && forall i: nat | 0 < i < |frames| :: frames[i] == 0
    ensures HashOf(frames) % 4 == 2 && HashOf(frames) != 0
  {
    var front := frames[..|frames| - 1];
    if |frames| > 1 {
      UnknownIsNotZero(front);
      OddKeepsHalf(HashOf(front));
    } else {
      assert front == [];
    }
    ModAgain(HashOf(front) * MULTIPLIER + frames[|frames| - 1]);
  }

  lemma OddKeepsHalf(h: nat)
    requires h % 4 == 2
    ensures (h * MULTIPLIER) % 4 == 2
  {
    var q := h / 4;
    assert h * MULTIPLIER == 2 * MULTIPLIER + (q * MULTIPLIER) * 4;
    ModDropsMultiple(2 * MULTIPLIER, q * MULTIPLIER, 4);
  }

  lemma ModAgain(x: nat)
    ensures x % TWO_64 % 4 == x % 4
  {
    var q, r := x / TWO_64, x % TWO_64;
    assert x == r + (0x4000_0000_0000_0000 * q) * 4;
    ModDropsMultiple(r, 0x4000_0000_0000_0000 * q, 4);
  }

  /** Some backtraces do: whatever the other frames are, one value of the last makes the hash 0. */
  lemma SomeHashToZero(front: seq<nat>) returns (last: nat)
    ensures last < TWO_64 && HashOf(front + [last]) == 0
  {
    var x := HashOf(front) * MULTIPLIER;
    var r := x % TWO_64;
    last := if r == 0 then 0 else TWO_64 - r;
    assert (front + [last])[..|front|] == front;
    var q := x / TWO_64;
    assert x + last == (if r == 0 then q else q + 1) * TWO_64 + 0;
    RemainderUnique(if r == 0 then q else q + 1, 0, TWO_64);
  }
}

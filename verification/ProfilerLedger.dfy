/**
 The per-slot ledger of memprof/memprof.cpp: malloc_with_frame adds a block's size to the
 slot of its backtrace, free takes it off again. Calls run one after the other.
 */
module ProfilerLedger {
  import opened Bytes

  /** malloc_info: what is written in front of a block. */
  datatype Info = Info(size: int, htPos: nat)

  /** size_t cast to int32. */
  function Cast32(size: nat): int {
    var low := size % 0x1_0000_0000;
    if low < 0x8000_0000 then low else low - 0x1_0000_0000
  }

  function Contribution(info: Info, slot: nat): int {
    if info.htPos == slot then info.size else 0
  }

  /** Bytes of the live blocks that belong to a slot, and of all live blocks. */
  ghost function LiveAt(live: map<nat, Info>, slot: nat): int
    decreases |live|
  {
    if live == map[] then 0
    else
      var p :| p in live;
      Contribution(live[p], slot) + LiveAt(live - {p}, slot)
  }

  ghost function LiveTotal(live: map<nat, Info>): int
    decreases |live|
  {
    if live == map[] then 0
    else
      var p :| p in live;
      live[p].size + LiveTotal(live - {p})
  }

  /** The sum does not depend on the order in which blocks are counted. */
  lemma {:induction false} TakeOne(live: map<nat, Info>, p: nat, slot: nat)
    requires p in live
    ensures LiveAt(live, slot) == Contribution(live[p], slot) + LiveAt(live - {p}, slot)
    ensures LiveTotal(live) == live[p].size + LiveTotal(live - {p})
    decreases |live|
  {
    var q: nat :| q in live && LiveAt(live, slot) == Contribution(live[q], slot) + LiveAt(live - {q}, slot);
    if q != p {
      TakeOne(live - {q}, p, slot);
      TakeOne(live - {p}, q, slot);
      assert live - {q} - {p} == live - {p} - {q};
    }
    var r: nat :| r in live && LiveTotal(live) == live[r].size + LiveTotal(live - {r});
    if r != p {
      TakeOne(live - {r}, p, slot);
      TakeOne(live - {p}, r, slot);
      assert live - {r} - {p} == live - {p} - {r};
    }
  }

  lemma AddOne(live: map<nat, Info>, p: nat, info: Info, slot: nat)
    requires p !in live
    ensures LiveAt(live[p := info], slot) == LiveAt(live, slot) + Contribution(info, slot)
    ensures LiveTotal(live[p := info]) == LiveTotal(live) + info.size
  {
    TakeOne(live[p := info], p, slot);
    assert live[p := info] - {p} == live;
  }

  lemma {:induction false} LiveNonNegative(live: map<nat, Info>, slot: nat)
    requires forall p | p in live :: live[p].size >= 0
    ensures LiveAt(live, slot) >= 0
    decreases |live|
  {
    if live != map[] {
      var p :| p in live;
      TakeOne(live, p, slot);
      LiveNonNegative(live - {p}, slot);
    }
  }

  function Sum(sizes: seq<int>): int {
    if sizes == [] then 0 else sizes[|sizes| - 1] + Sum(sizes[..|sizes| - 1])
  }

  lemma {:induction false} SumUpdate(sizes: seq<int>, i: nat, x: int)
    requires i < |sizes|
    ensures Sum(sizes[i := x]) == Sum(sizes) - sizes[i] + x
  {
    var n := |sizes| - 1;
    if i == n {
      assert sizes[i := x][..n] == sizes[..n];
    } else {
      assert sizes[i := x][..n] == sizes[..n][i := x];
      SumUpdate(sizes[..n], i, x);
    }
  }

  class Ledger {
    /** ht[i].size, and the malloc_info in front of every live block. */
    var sizes: array<int>
    var live: map<nat, Info>

    /** Every slot holds the bytes of its live blocks; nothing else is counted. */
    ghost predicate Valid()
      reads this, sizes
    {
      && (forall p | p in live :: 0 <= live[p].size < 0x8000_0000 && live[p].htPos < sizes.Length)
      && (forall i: nat | i < sizes.Length :: sizes[i] == LiveAt(live, i))
      && Sum(sizes[..]) == LiveTotal(live)
    }

    /** register_xalloc(info, +1): `ok` is false where my_assert(info->size >= 0) aborts. */
    method RegisterAlloc(p: nat, info: Info) returns (ok: bool)
      requires Valid() && p !in live && info.htPos < sizes.Length && info.size < 0x8000_0000
      modifies this`live, sizes
      ensures ok <==> info.size >= 0
      ensures Valid() && live == if ok then old(live)[p := info] else old(live)
    {
      if info.size < 0 {
        return false;
      }
      forall slot: nat | slot < sizes.Length
        ensures LiveAt(live[p := info], slot) == LiveAt(live, slot) + Contribution(info, slot)
      {
        AddOne(live, p, info, slot);
      }
      AddOne(live, p, info, info.htPos);
      SumUpdate(sizes[..], info.htPos, sizes[info.htPos] + info.size);
      ghost var was := sizes[..];
      sizes[info.htPos] := sizes[info.htPos] + info.size;
      assert sizes[..] == was[info.htPos := was[info.htPos] + info.size];
      live := live[p := info];
      return true;
    }

    /** register_xalloc(info, -1): `ok` is false where my_assert(old_value >= size) would abort. It never is. */
    method RegisterFree(p: nat) returns (ok: bool)
      requires Valid() && p in live
      modifies this`live, sizes
      ensures ok && Valid() && live == old(live) - {p}
      ensures var Info(size, slot) := old(live[p]);
              old(sizes[slot]) >= size && sizes[..] == old(sizes[..])[slot := old(sizes[slot]) - size]
    {
      var info := live[p];
      forall slot: nat | slot < sizes.Length
        ensures LiveAt(live, slot) == LiveAt(live - {p}, slot) + Contribution(info, slot)
      {
        TakeOne(live, p, slot);
      }
      TakeOne(live, p, info.htPos);
      LiveNonNegative(live - {p}, info.htPos);
      var oldValue := sizes[info.htPos];
      SumUpdate(sizes[..], info.htPos, oldValue - info.size);
      ghost var was := sizes[..];
      sizes[info.htPos] := oldValue - info.size;
      assert sizes[..] == was[info.htPos := was[info.htPos] - info.size];
      live := live - {p};
      return oldValue >= info.size;
    }

    /** malloc_with_frame; p is where the underlying malloc put the block, htPos what get_ht_pos returned. */
    method Malloc(p: nat, size: nat, htPos: nat) returns (ok: bool)
      requires Valid() && p !in live && htPos < sizes.Length
      modifies this`live, sizes
      ensures ok <==> Cast32(size) >= 0
      ensures Valid() && live == if ok then old(live)[p := Info(Cast32(size), htPos)] else old(live)
    {
      ok := RegisterAlloc(p, Info(Cast32(size), htPos));
    }

    /**
     free; `header` is the malloc_info in front of p if the magic word stands there. The word is never
     cleared, so it may also stand in front of a block released before. The account stays right exactly
     when p is null, is a live block, shows no magic word, or its header names no bytes.
     `ok` is false where an assert aborts.
     */
    method Free(p: nat, header: Option<Info>) returns (ok: bool)
      requires Valid() && (p in live ==> header == Some(live[p]))
      requires header.Some? ==> 0 <= header.value.size < 0x8000_0000 && header.value.htPos < sizes.Length
      modifies this`live, sizes
      ensures p == 0 || p in old(live) ==> ok
      ensures p != 0 && header.None? ==> !ok
      ensures p != 0 && header.Some? ==>
                var Info(size, slot) := header.value;
                (ok <==> old(sizes[slot]) >= size) && sizes[..] == old(sizes[..])[slot := old(sizes[slot]) - size]
      ensures live == if p == 0 then old(live) else old(live) - {p}
      ensures Valid() <==> p == 0 || header.None? || p in old(live) || header.value.size == 0
    {
      if p == 0 {
        return true;
      }
      if header.None? {
        assert live - {p} == live;
        return false;
      }
      if p in live {
        ok := RegisterFree(p);
        return;
      }
      assert live - {p} == live;
      var Info(size, slot) := header.value;
      ok := sizes[slot] >= size;
      assert sizes[slot] == LiveAt(live, slot);
      ghost var was := sizes[..];
      sizes[slot] := sizes[slot] - size;
      assert sizes[..] == was[slot := was[slot] - size];
    }

    /** realloc: the new block is registered before the old one is released. */
    method Realloc(p: nat, header: Option<Info>, q: nat, size: nat, htPos: nat) returns (ok: bool)
      requires Valid() && (p in live ==> header == Some(live[p]))
      requires header.Some? ==> 0 <= header.value.size < 0x8000_0000 && header.value.htPos < sizes.Length
      requires q !in live && q != p && htPos < sizes.Length
      modifies this`live, sizes
      ensures p == 0 || p in old(live) ==> (ok <==> Cast32(size) >= 0)
      ensures p != 0 && header.None? ==> !ok && live == old(live)
      ensures ok ==> live == (if p == 0 then old(live) else old(live) - {p})[q := Info(Cast32(size), htPos)]
      ensures Valid() <==> p == 0 || header.None? || Cast32(size) < 0 || p in old(live) || header.value.size == 0
    {
      if p == 0 {
        ok := Malloc(q, size, htPos);
        return;
      }
      if header.None? {
        return false;
      }
      ok := Malloc(q, size, htPos);
      if ok {
        ghost var before := live;
        ok := Free(p, header);
        assert live == before - {p};
      }
    }

    /** get_used_memory_size: dump_alloc over every slot, skipping empty ones. */
    method GetUsedMemorySize() returns (res: int)
      requires Valid()
      ensures res == LiveTotal(live)
    {
      res := 0;
      for i := 0 to sizes.Length
        invariant res == Sum(sizes[..i])
      {
        assert sizes[..i + 1][..i] == sizes[..i];
        if sizes[i] != 0 {
          res := res + sizes[i];
        }
      }
      assert sizes[..sizes.Length] == sizes[..];
    }
  }

  /** A block released twice: the account is wrong afterwards, and the assert notices it only if the slot holds too little. */
  method ReleasedTwice(ledger: Ledger, p: nat, size: nat, slot: nat) returns (ok: bool)
    requires ledger.Valid() && p != 0 && p !in ledger.live && 0 < size < 0x8000_0000 && slot < ledger.sizes.Length
    modifies ledger`live, ledger.sizes
    ensures !ledger.Valid() && (ok <==> old(ledger.sizes[slot]) >= size)
  {
    var info := Info(size, slot);
    ok := ledger.Malloc(p, size, slot);
    assert ledger.sizes[slot] == LiveAt(ledger.live, slot);
    AddOne(old(ledger.live), p, info, slot);
    ok := ledger.Free(p, Some(info));
    ok := ledger.Free(p, Some(info));
  }
}

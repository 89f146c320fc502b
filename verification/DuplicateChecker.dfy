/**
 The replay window for message identifiers: check_message_id_duplicates of
 td/mtproto/AuthData.cpp keeps the last identifiers sorted in an array of 2*max_size slots
 that is halved when full; the checkers of benchmark/bench_misc.cpp keep max_size of them
 in an ordered set. Identifiers are unsigned.
 */
module DuplicateChecker {
  datatype Verdict = Accepted | Duplicate | TooOld

  predicate Sorted(s: seq<nat>) {
    forall i: nat, j: nat | i < j < |s| :: s[i] < s[j]
  }

  /** The first position whose element is not below id (std::lower_bound). */
  function LowerBound(s: seq<nat>, id: nat): (k: nat)
    ensures k <= |s|
    ensures forall i: nat | i < k :: s[i] < id
    ensures k < |s| ==> s[k] >= id
  {
    if s == [] then 0
    else if s[0] >= id then 0
    else
      var k := LowerBound(s[1..], id);
      assert forall i: nat | 0 < i < k + 1 :: s[i] == s[1..][i - 1];
      k + 1
  }

  function Insert(s: seq<nat>, id: nat): (r: seq<nat>)
    ensures |r| == |s| + 1
  {
    var k := LowerBound(s, id);
    s[..k] + [id] + s[k..]
  }

  // ---------- the array form ----------

  /** A full array keeps its upper half. */
  function Compact(s: seq<nat>, n: nat): seq<nat> {
    if |s| == 2 * n then s[n..] else s
  }

  /** saved_message_ids[..end_pos] before and after one check. */
  function ArrayCheck(s: seq<nat>, n: nat, id: nat): (Verdict, seq<nat>)
    requires n > 0 && |s| <= 2 * n
  {
    var c := Compact(s, n);
    if c == [] || id > c[|c| - 1] then (Accepted, c + [id])
    else if |c| >= n && id < c[0] then (TooOld, c)
    else
      var k := LowerBound(c, id);
      if k < |c| && c[k] == id then (Duplicate, c)
      else (Accepted, c[..k] + [id] + c[k..])
  }

  // ---------- the set forms ----------

  /** IdDuplicateCheckerOld: an ordered set, as the sorted sequence of its elements. */
  function SetCheck(t: seq<nat>, n: nat, id: nat): (Verdict, seq<nat>) {
    if |t| == n && t != [] && id < t[0] then (TooOld, t)
    else if id in t then (Duplicate, t)
    else
      var u := Insert(t, id);
      (Accepted, if |u| > n then u[1..] else u)
  }

  /** IdDuplicateCheckerNew: insert first, then drop the smallest and see whether it was the new one. */
  function SetCheckNew(t: seq<nat>, n: nat, id: nat): (Verdict, seq<nat>) {
    if id in t then (Duplicate, t)
    else
      var u := Insert(t, id);
      if |u| == n + 1 then (if u[0] == id then TooOld else Accepted, u[1..])
      else (Accepted, u)
  }

  // ---------- sorted sequences ----------

  /** The split point of a sorted sequence is unique. */
  lemma SplitUnique(s: seq<nat>, id: nat, k: nat)
    requires Sorted(s) && k <= |s|
    requires forall i: nat | i < k :: s[i] < id
    requires k < |s| ==> s[k] >= id
    ensures LowerBound(s, id) == k
  {
    var l := LowerBound(s, id);
    assert !(l < k) && !(k < l);
  }

  lemma MemberAtLowerBound(s: seq<nat>, id: nat)
    requires Sorted(s)
    ensures id in s <==> LowerBound(s, id) < |s| && s[LowerBound(s, id)] == id
  {
    var k := LowerBound(s, id);
    if id in s {
      var i: nat :| i < |s| && s[i] == id;
      assert k == i;
    }
  }

  lemma InsertBetween(s: seq<nat>, k: nat, id: nat)
    requires Sorted(s) && k <= |s| && (forall i: nat | i < k :: s[i] < id) && (k < |s| ==> id < s[k])
    ensures Sorted(s[..k] + [id] + s[k..])
  {
    var r := s[..k] + [id] + s[k..];
    forall i: nat, j: nat | i < j < |r|
      ensures r[i] < r[j]
    {
      assert r[i] == if i < k then s[i] else if i == k then id else s[i - 1];
      assert r[j] == if j < k then s[j] else if j == k then id else s[j - 1];
      assert j > k ==> id < s[k] <= s[j - 1];
    }
  }

  lemma InsertKeepsSorted(s: seq<nat>, id: nat)
    requires Sorted(s) && id !in s
    ensures Sorted(Insert(s, id))
  {
    hide LowerBound;
    MemberAtLowerBound(s, id);
    InsertBetween(s, LowerBound(s, id), id);
  }

  lemma InsertMembers(s: seq<nat>, id: nat, x: nat)
    ensures x in Insert(s, id) <==> x == id || x in s
  {
    var k := LowerBound(s, id);
    assert s == s[..k] + s[k..];
  }

  /** The fast path and the slow path both insert in order. */
  lemma ArrayCheckShape(s: seq<nat>, n: nat, id: nat)
    requires n > 0 && |s| <= 2 * n && Sorted(s)
    ensures var c := Compact(s, n);
            ArrayCheck(s, n, id) ==
            if id in c then (Duplicate, c)
            else if c != [] && |c| >= n && id < c[0] then (TooOld, c)
            else (Accepted, Insert(c, id))
    ensures Sorted(Compact(s, n)) && |Compact(s, n)| < 2 * n
  {
    var c := Compact(s, n);
    MemberAtLowerBound(c, id);
    if c == [] || id > c[|c| - 1] {
      forall i: nat | i < |c|
        ensures c[i] < id
      {
        assert i < |c| - 1 ==> c[i] < c[|c| - 1];
      }
      SplitUnique(c, id, |c|);
      assert c[..|c|] + [id] + c[|c|..] == c + [id];
    }
  }

  // ---------- the array simulates the set ----------

  /** The newest n identifiers. */
  function Top(s: seq<nat>, n: nat): seq<nat> {
    if |s| <= n then s else s[|s| - n..]
  }

  predicate Simulates(s: seq<nat>, t: seq<nat>, n: nat) {
    Sorted(s) && |s| <= 2 * n && t == Top(s, n)
  }

  lemma LowerBoundInTop(s: seq<nat>, n: nat, id: nat)
    requires Sorted(s) && 0 < n < |s| && LowerBound(s, id) >= |s| - n
    ensures LowerBound(Top(s, n), id) == LowerBound(s, id) - (|s| - n)
  {
    var m, k := |s| - n, LowerBound(s, id);
    var t := Top(s, n);
    forall i: nat | i < k - m
      ensures t[i] < id
    {
      assert t[i] == s[m + i];
    }
    assert k < |s| ==> t[k - m] == s[k];
    SplitUnique(t, id, k - m);
  }

  lemma DropInserted(s: seq<nat>, id: nat, m: nat, k: nat)
    requires m < k <= |s|
    ensures (s[..k] + [id] + s[k..])[m + 1..] == (s[m..][..k - m] + [id] + s[m..][k - m..])[1..]
  {
    var t := s[m..];
    assert t[..k - m] == s[m..k] && t[k - m..] == s[k..];
    assert (s[..k] + [id] + s[k..])[m + 1..] == s[m + 1..k] + [id] + s[k..];
  }

  lemma InsertAbove(s: seq<nat>, n: nat, id: nat)
    requires Sorted(s) && 0 < n < |s| && id !in s && id > s[|s| - n]
    ensures Top(Insert(s, id), n) == Insert(Top(s, n), id)[1..]
  {
    var m, k := |s| - n, LowerBound(s, id);
    var t := Top(s, n);
    assert k > m;
    LowerBoundInTop(s, n, id);
    DropInserted(s, id, m, k);
  }

  lemma InsertBelow(s: seq<nat>, n: nat, id: nat)
    requires Sorted(s) && 0 < n < |s| && id !in s && id < s[|s| - n]
    ensures Top(Insert(s, id), n) == Top(s, n)
  {
    var m, k := |s| - n, LowerBound(s, id);
    assert k <= m;
    assert Insert(s, id)[m + 1..] == s[m..];
  }

  lemma TopSmaller(s: seq<nat>, n: nat)
    requires Sorted(s)
    ensures Sorted(Top(s, n)) && (n > 0 && s != [] ==> Top(s, n) != [] && s[0] <= Top(s, n)[0])
    ensures forall x | x in Top(s, n) :: x in s
  {
  }

  /** A member of s that is not below the newest n is one of them. */
  lemma TopMember(s: seq<nat>, n: nat, id: nat)
    requires Sorted(s) && n > 0 && s != [] && id in s
    ensures id in Top(s, n) <==> id >= Top(s, n)[0]
  {
    TopSmaller(s, n);
    if |s| > n {
      var i: nat :| i < |s| && s[i] == id;
      var m := |s| - n;
      assert s[m] == Top(s, n)[0];
      if i >= m {
        assert Top(s, n)[i - m] == id;
        assert m < i ==> s[m] < s[i];
      } else {
        assert s[i] < s[m];
        assert forall x | x in Top(s, n) :: x >= s[m];
      }
    } else {
      assert forall x | x in s :: x >= s[0];
    }
  }

  /** Without compaction in the way: c has fewer than 2n elements. */
  lemma CompactStep(c: seq<nat>, n: nat, id: nat)
    requires n > 0 && Sorted(c) && |c| < 2 * n
    ensures var t := Top(c, n);
            var a := if id in c then (Duplicate, c)
                     else if c != [] && |c| >= n && id < c[0] then (TooOld, c)
                     else (Accepted, Insert(c, id));
            var b := SetCheck(t, n, id);
            && Simulates(a.1, b.1, n)
            && (b.0 == Accepted ==> a.0 == Accepted)
            && (b.0 == Duplicate ==> a.0 == Duplicate)
            && (a.0 != b.0 <==> b.0 == TooOld && id >= c[0])
  {
    var t := Top(c, n);
    TopSmaller(c, n);
    if id in c {
      TopMember(c, n, id);
    } else {
      InsertKeepsSorted(c, id);
      assert id !in t;
      if |c| > n {
        assert t[0] == c[|c| - n];
        if id < t[0] {
          InsertBelow(c, n, id);
        } else {
          assert t[0] in t;
          InsertAbove(c, n, id);
        }
      } else if |c| == n {
        if id > c[0] {
          assert LowerBound(c, id) > 0;
        }
      }
    }
  }

  /**
   One check of the array against one check of the set: the relation is kept, everything
   the set accepts the array accepts, every duplicate of the set is a duplicate of the array,
   and they differ exactly for identifiers below the set's but not below the array's smallest.
   */
  lemma ArraySimulatesSet(s: seq<nat>, t: seq<nat>, n: nat, id: nat)
    requires n > 0 && Simulates(s, t, n)
    ensures var a, b := ArrayCheck(s, n, id), SetCheck(t, n, id);
            && Simulates(a.1, b.1, n)
            && (b.0 == Accepted ==> a.0 == Accepted)
            && (b.0 == Duplicate ==> a.0 == Duplicate)
            && (a.0 != b.0 <==> b.0 == TooOld && Compact(s, n) != [] && id >= Compact(s, n)[0])
  {
    ArrayCheckShape(s, n, id);
    assert Top(Compact(s, n), n) == Top(s, n);
    CompactStep(Compact(s, n), n, id);
  }

  /** The two set forms agree on every verdict and every state. */
  lemma SetFormsAgree(t: seq<nat>, n: nat, id: nat)
    requires n > 0 && Sorted(t) && |t| <= n
    ensures SetCheckNew(t, n, id) == SetCheck(t, n, id)
  {
    if id !in t && |t| == n {
      var k := LowerBound(t, id);
      MemberAtLowerBound(t, id);
      if id < t[0] {
        assert k == 0;
        assert Insert(t, id)[1..] == t;
      } else {
        assert k > 0;
      }
    } else if id in t && |t| == n {
      var i: nat :| i < |t| && t[i] == id;
      assert i > 0 ==> t[0] < t[i];
    }
  }

  // ---------- whole runs ----------

  lemma CompactOnce(s: seq<nat>, n: nat, id: nat)
    requires n > 0 && |s| <= 2 * n
    ensures Compact(s, n) == (if |s| == 2 * n then s[n..] else s) && |Compact(s, n)| < 2 * n
    ensures ArrayCheck(Compact(s, n), n, id) == ArrayCheck(s, n, id)
  {
  }

  lemma CheckKeeps(s: seq<nat>, n: nat, id: nat)
    requires n > 0 && Sorted(s) && |s| <= 2 * n
    ensures Sorted(ArrayCheck(s, n, id).1) && 0 < |ArrayCheck(s, n, id).1| <= 2 * n
  {
    ArrayCheckShape(s, n, id);
    if id !in Compact(s, n) {
      InsertKeepsSorted(Compact(s, n), id);
    }
  }

  /** The state after checking ids in turn from s. */
  function ArrayRun(s: seq<nat>, n: nat, ids: seq<nat>): (r: seq<nat>)
    requires n > 0 && Sorted(s) && |s| <= 2 * n
    ensures Sorted(r) && |r| <= 2 * n
    decreases |ids|
  {
    if ids == [] then s
    else
      var after := ArrayCheck(s, n, ids[0]).1;
      assert Sorted(after) && |after| <= 2 * n by { CheckKeeps(s, n, ids[0]); }
      ArrayRun(after, n, ids[1..])
  }

  function SetRun(t: seq<nat>, n: nat, ids: seq<nat>): seq<nat>
    decreases |ids|
  {
    if ids == [] then t else SetRun(SetCheck(t, n, ids[0]).1, n, ids[1..])
  }

  /** After any history the array's newest n identifiers are the set's, so every check compares as above. */
  lemma {:induction false} RunsSimulate(s: seq<nat>, t: seq<nat>, n: nat, ids: seq<nat>)
    requires n > 0 && Simulates(s, t, n)
    ensures Simulates(ArrayRun(s, n, ids), SetRun(t, n, ids), n)
    decreases |ids|
  {
    if ids != [] {
      ArraySimulatesSet(s, t, n, ids[0]);
      RunsSimulate(ArrayCheck(s, n, ids[0]).1, SetCheck(t, n, ids[0]).1, n, ids[1..]);
    }
  }

  /** The state still rejects id: it is stored, or a full half lies above it. */
  predicate Remembers(s: seq<nat>, n: nat, id: nat) {
    id in s || (s != [] && |s| >= n && id < s[0])
  }

  lemma CheckRemembers(s: seq<nat>, n: nat, id: nat, other: nat)
    requires n > 0 && Sorted(s) && |s| <= 2 * n
    ensures Remembers(s, n, id) ==> ArrayCheck(s, n, id).0 != Accepted
    ensures Remembers(s, n, id) ==> Remembers(ArrayCheck(s, n, other).1, n, id)
    ensures ArrayCheck(s, n, id).0 == Accepted ==> Remembers(ArrayCheck(s, n, id).1, n, id)
  {
    var c := Compact(s, n);
    ArrayCheckShape(s, n, id);
    ArrayCheckShape(s, n, other);
    if Remembers(s, n, id) {
      CompactRemembers(s, n, id);
      assert Remembers(c, n, id);
    }
    InsertMembers(c, other, id);
    InsertMembers(c, id, id);
  }

  lemma CompactRemembers(s: seq<nat>, n: nat, id: nat)
    requires n > 0 && Sorted(s) && |s| <= 2 * n && Remembers(s, n, id)
    ensures Remembers(Compact(s, n), n, id)
  {
    if |s| == 2 * n && id in s {
      var i: nat :| i < |s| && s[i] == id;
      if i >= n {
        assert s[n..][i - n] == id;
      }
    }
  }

  lemma {:induction false} RunRemembers(s: seq<nat>, n: nat, ids: seq<nat>, id: nat)
    requires n > 0 && Sorted(s) && |s| <= 2 * n && Remembers(s, n, id)
    ensures Remembers(ArrayRun(s, n, ids), n, id)
    decreases |ids|
  {
    if ids != [] {
      ArraySimulatesSet(s, Top(s, n), n, ids[0]);
      CheckRemembers(s, n, id, ids[0]);
      RunRemembers(ArrayCheck(s, n, ids[0]).1, n, ids[1..], id);
    }
  }

  /**
   An identifier that was checked once, whatever the verdict, is never accepted afterwards:
   whatever is received before and in between, and however often the array is halved.
   */
  lemma NeverAcceptedAgain(n: nat, before: seq<nat>, id: nat, between: seq<nat>)
    requires n > 0
    ensures ArrayCheck(ArrayRun([], n, before + [id] + between), n, id).0 != Accepted
  {
    var s := ArrayRun([], n, before);
    var first := ArrayCheck(s, n, id).1;
    CheckKeeps(s, n, id);
    ArrayCheckShape(s, n, id);
    CheckRemembers(s, n, id, id);
    assert Remembers(first, n, id);
    RunRemembers(first, n, between, id);
    ArrayRunConcat([], n, before, [id] + between);
    assert before + [id] + between == before + ([id] + between);
    assert ([id] + between)[1..] == between;
    CheckRemembers(ArrayRun(first, n, between), n, id, id);
  }

  lemma {:induction false} ArrayRunConcat(s: seq<nat>, n: nat, ids: seq<nat>, more: seq<nat>)
    requires n > 0 && Sorted(s) && |s| <= 2 * n
    ensures ArrayRun(s, n, ids + more) == ArrayRun(ArrayRun(s, n, ids), n, more)
    decreases |ids|
  {
    if ids == [] {
      assert ids + more == more;
    } else {
      CheckKeeps(s, n, ids[0]);
      assert (ids + more)[0] == ids[0] && (ids + more)[1..] == ids[1..] + more;
      ArrayRunConcat(ArrayCheck(s, n, ids[0]).1, n, ids[1..], more);
    }
  }

  // ---------- the checker in place ----------

  class Checker {
    const maxSize: nat
    const saved: array<nat>
    var endPos: nat

    ghost predicate Valid()
      reads this, saved
    {
      maxSize > 0 && saved.Length == 2 * maxSize && endPos <= saved.Length && Sorted(saved[..endPos])
    }

    constructor (n: nat)
      requires n > 0
      ensures Valid() && maxSize == n && saved[..endPos] == [] && fresh(saved)
    {
      maxSize := n;
      saved := new nat[2 * n];
      endPos := 0;
    }

    /** std::lower_bound, by bisection. */
    method FindPlace(id: nat) returns (k: nat)
      requires Valid()
      ensures k == LowerBound(saved[..endPos], id)
    {
      ghost var s := saved[..endPos];
      var low: nat, count: nat := 0, endPos;
      while count > 0
        invariant low + count <= endPos == |s|
        invariant forall i: nat | i < low :: s[i] < id
        invariant low + count < endPos ==> s[low + count] >= id
      {
        var step := count / 2;
        var middle := low + step;
        assert saved[middle] == s[middle];
        if saved[middle] < id {
          assert forall i: nat | i < middle :: s[i] < s[middle];
          low, count := middle + 1, count - step - 1;
        } else {
          count := step;
        }
      }
      SplitUnique(s, id, low);
      k := low;
    }

    /** std::copy_n of the upper half onto the lower half. */
    method Halve()
      requires Valid() && endPos == 2 * maxSize
      modifies this`endPos, saved
      ensures Valid() && saved[..endPos] == old(saved[maxSize..]) && endPos == maxSize
    {
      ghost var s := saved[..];
      for i := 0 to maxSize
        invariant forall j: nat | j < i :: saved[j] == s[maxSize + j]
        invariant forall j: nat | i <= j < 2 * maxSize :: saved[j] == s[j]
      {
        saved[i] := saved[maxSize + i];
      }
      endPos := maxSize;
      assert saved[..endPos] == s[maxSize..];
    }

    /** std::copy_backward by one place, then the store. */
    method InsertAt(k: nat, id: nat)
      requires k <= endPos < saved.Length
      modifies this`endPos, saved
      ensures endPos == old(endPos) + 1
      ensures saved[..endPos] == old(saved[..k]) + [id] + old(saved[k..endPos])
    {
      ghost var s := saved[..endPos];
      var i := endPos;
      while i > k
        invariant k <= i <= endPos && endPos == |s|
        invariant forall j: nat | j < i :: saved[j] == s[j]
        invariant forall j: nat | i < j <= endPos :: saved[j] == s[j - 1]
      {
        saved[i] := saved[i - 1];
        i := i - 1;
      }
      saved[k] := id;
      endPos := endPos + 1;
      ghost var r := s[..k] + [id] + s[k..];
      assert forall j: nat | j < endPos :: saved[j] == r[j];
      assert saved[..endPos] == r;
    }

    /** check_message_id_duplicates. */
    method Check(id: nat) returns (verdict: Verdict)
      requires Valid()
      modifies this`endPos, saved
      ensures Valid()
      ensures (verdict, saved[..endPos]) == ArrayCheck(old(saved[..endPos]), maxSize, id)
    {
      hide ArrayCheck, Compact;
      ghost var s := saved[..endPos];
      if endPos == 2 * maxSize {
        assert s == saved[..];
        Halve();
      }
      CompactOnce(s, maxSize, id);
      CheckKeeps(s, maxSize, id);
      assert saved[..endPos] == Compact(s, maxSize);
      verdict := CheckSorted(id);
    }

    method CheckSorted(id: nat) returns (verdict: Verdict)
      requires Valid() && endPos < 2 * maxSize
      modifies this`endPos, saved
      ensures endPos <= saved.Length
      ensures (verdict, saved[..endPos]) == ArrayCheck(old(saved[..endPos]), maxSize, id)
    {
      hide LowerBound, Sorted;
      ghost var s := saved[..endPos];
      if endPos == 0 || id > saved[endPos - 1] {
        saved[endPos] := id;
        endPos := endPos + 1;
        assert saved[..endPos] == s + [id];
        return Accepted;
      }
      if endPos >= maxSize && id < saved[0] {
        return TooOld;
      }
      var k := FindPlace(id);
      if saved[k] == id {
        return Duplicate;
      }
      assert saved[..k] == s[..k] && saved[k..endPos] == s[k..];
      InsertAt(k, id);
      return Accepted;
    }
  }
}

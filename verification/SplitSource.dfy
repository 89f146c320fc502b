/**
 split_file of SplitSource.php from the dependency lists on: functions that share
 dependencies form sets, the sets are sorted by size and packed into the output files.
 Functions are numbered; the text of a file is the concatenation of its functions' texts.
 */
module SplitSource {
  import opened DisjointSets
  import opened Packing

  function One(b: bool): nat { if b then 1 else 0 }

  /** strlen of the concatenated texts. */
  function TextSize(functions: seq<string>, ids: seq<nat>): nat {
    if ids == [] then 0
    else
      var n := |ids| - 1;
      TextSize(functions, ids[..n]) + if ids[n] < |functions| then |functions[ids[n]]| else 0
  }

  /** The functions below i whose set has representative r, in order: $sets[r]. */
  function Members(root: seq<nat>, r: nat, i: nat): seq<nat>
    requires i <= |root|
  {
    if i == 0 then [] else Members(root, r, i - 1) + if root[i - 1] == r then [i - 1] else []
  }

  /** The functions of all sets packed into file f: $files[f]. */
  function FileContent(sets: seq<seq<nat>>, assign: seq<nat>, f: nat): seq<nat>
    requires |sets| == |assign|
  {
    if sets == [] then []
    else
      var n := |sets| - 1;
      FileContent(sets[..n], assign[..n], f) + if assign[n] == f then sets[n] else []
  }

  function SetsOf(root: seq<nat>, order: seq<nat>): (r: seq<seq<nat>>)
    ensures |r| == |order|
  {
    seq(|order|, k requires 0 <= k < |order| => Members(root, order[k], |root|))
  }

  function SizesOf(functions: seq<string>, sets: seq<seq<nat>>): (r: seq<nat>)
    ensures |r| == |sets|
  {
    seq(|sets|, k requires 0 <= k < |sets| => TextSize(functions, sets[k]))
  }

  lemma {:induction false} TextSizeConcat(functions: seq<string>, a: seq<nat>, b: seq<nat>)
    ensures TextSize(functions, a + b) == TextSize(functions, a) + TextSize(functions, b)
    decreases |b|
  {
    if b == [] {
      assert a + b == a;
    } else {
      var n := |b| - 1;
      TextSizeConcat(functions, a, b[..n]);
      assert (a + b)[..|a + b| - 1] == a + b[..n];
    }
  }

  lemma MembersStart(root: seq<nat>, r: nat)
    ensures Members(root, r, 0) == []
  {
  }

  lemma MembersStep(root: seq<nat>, r: nat, i: nat)
    requires 0 < i <= |root|
    ensures Members(root, r, i) == Members(root, r, i - 1) + if root[i - 1] == r then [i - 1] else []
  {
  }

  lemma {:induction false} MembersCount(root: seq<nat>, r: nat, i: nat, x: nat)
    requires i <= |root|
    ensures multiset(Members(root, r, i))[x] == One(x < i && root[x] == r)
  {
    hide Members;
    if i == 0 {
      MembersStart(root, r);
    } else {
      MembersCount(root, r, i - 1, x);
      var before := Members(root, r, i - 1);
      MembersStep(root, r, i);
      if root[i - 1] == r {
        assert multiset(before + [i - 1])[x] == multiset(before)[x] + One(x == i - 1);
      } else {
        assert before + [] == before;
      }
    }
  }

  /** How often key r occurs among the items packed into file f. */
  function Copies(order: seq<nat>, assign: seq<nat>, r: nat, f: nat): nat
    requires |order| == |assign|
  {
    if order == [] then 0
    else
      var n := |order| - 1;
      Copies(order[..n], assign[..n], r, f) + One(order[n] == r && assign[n] == f)
  }

  lemma {:induction false} FileCount(root: seq<nat>, order: seq<nat>, assign: seq<nat>, f: nat, x: nat)
    requires |order| == |assign|
    ensures multiset(FileContent(SetsOf(root, order), assign, f))[x]
         == if x < |root| then Copies(order, assign, root[x], f) else 0
    decreases |order|
  {
    hide Members;
    if order != [] {
      var n := |order| - 1;
      assert SetsOf(root, order)[..n] == SetsOf(root, order[..n]);
      FileCount(root, order[..n], assign[..n], f, x);
      MembersCount(root, order[n], |root|, x);
    }
  }

  lemma {:induction false} CopiesNone(order: seq<nat>, assign: seq<nat>, r: nat, f: nat)
    requires |order| == |assign| && r !in order
    ensures Copies(order, assign, r, f) == 0
    decreases |order|
  {
    if order != [] {
      CopiesNone(order[..|order| - 1], assign[..|order| - 1], r, f);
    }
  }

  /** A key that occurs once is packed into one file, once. */
  lemma {:induction false} CopiesOnce(order: seq<nat>, assign: seq<nat>, r: nat, k: nat, f: nat)
    requires |order| == |assign| && k < |order| && order[k] == r
    requires forall l: nat | l < |order| && l != k :: order[l] != r
    ensures Copies(order, assign, r, f) == One(assign[k] == f)
    decreases |order|
  {
    var n := |order| - 1;
    if k == n {
      CopiesNone(order[..n], assign[..n], r, f);
    } else {
      CopiesOnce(order[..n], assign[..n], r, k, f);
    }
  }

  /** The size of a file is the load the packing accounts for it. */
  lemma {:induction false} FileSize(functions: seq<string>, sets: seq<seq<nat>>, assign: seq<nat>, f: nat)
    requires |sets| == |assign|
    ensures TextSize(functions, FileContent(sets, assign, f)) == Load(SizesOf(functions, sets), assign, f)
    decreases |sets|
  {
    if sets != [] {
      var n := |sets| - 1;
      FileSize(functions, sets[..n], assign[..n], f);
      assert SizesOf(functions, sets)[..n] == SizesOf(functions, sets[..n]);
      TextSizeConcat(functions, FileContent(sets[..n], assign[..n], f), if assign[n] == f then sets[n] else []);
    }
  }

  // ---------- arsort ----------

  predicate Distinct(s: seq<nat>) {
    forall i: nat, j: nat | i < j < |s| :: s[i] != s[j]
  }

  /** Keeps a list sorted by size, largest first; equal sizes stay in order. */
  function Insert(sizeOf: map<nat, nat>, sorted: seq<nat>, key: nat): (r: seq<nat>)
    requires key in sizeOf && forall k | k in sorted :: k in sizeOf
    ensures multiset(r) == multiset(sorted) + multiset{key}
  {
    if sorted == [] then [key]
    else
      var n := |sorted| - 1;
      assert sorted == sorted[..n] + [sorted[n]];
      assert sorted[n] in sorted;
      if sizeOf[sorted[n]] >= sizeOf[key] then sorted + [key]
      else Insert(sizeOf, sorted[..n], key) + [sorted[n]]
  }

  predicate SortedBySize(sizeOf: map<nat, nat>, keys: seq<nat>) {
    && (forall k | k in keys :: k in sizeOf)
    && forall i: nat, j: nat | i < j < |keys| :: sizeOf[keys[i]] >= sizeOf[keys[j]]
  }

  lemma InsertKeys(sizeOf: map<nat, nat>, sorted: seq<nat>, key: nat)
    requires key in sizeOf && forall k | k in sorted :: k in sizeOf
    ensures forall k | k in Insert(sizeOf, sorted, key) :: k == key || k in sorted
  {
    var r := Insert(sizeOf, sorted, key);
    forall k | k in r
      ensures k == key || k in sorted
    {
      assert k in multiset(r);
    }
  }

  lemma SortedAppend(sizeOf: map<nat, nat>, front: seq<nat>, x: nat)
    requires SortedBySize(sizeOf, front) && x in sizeOf
    requires forall k | k in front :: sizeOf[k] >= sizeOf[x]
    ensures SortedBySize(sizeOf, front + [x])
  {
    var r := front + [x];
    forall i: nat, j: nat | i < j < |r|
      ensures sizeOf[r[i]] >= sizeOf[r[j]]
    {
      assert r[i] in front;
    }
  }

  lemma {:induction false} InsertSorted(sizeOf: map<nat, nat>, sorted: seq<nat>, key: nat)
    requires key in sizeOf && SortedBySize(sizeOf, sorted)
    ensures SortedBySize(sizeOf, Insert(sizeOf, sorted, key))
    decreases |sorted|
  {
    if sorted != [] {
      var n := |sorted| - 1;
      var last := sorted[n];
      assert last in sorted;
      if sizeOf[last] >= sizeOf[key] {
        forall k | k in sorted
          ensures sizeOf[k] >= sizeOf[key]
        {
          var i: nat :| i < |sorted| && sorted[i] == k;
          assert i < n ==> sizeOf[sorted[i]] >= sizeOf[last];
        }
        SortedAppend(sizeOf, sorted, key);
      } else {
        var rest := sorted[..n];
        InsertSorted(sizeOf, rest, key);
        InsertKeys(sizeOf, rest, key);
        forall k | k in Insert(sizeOf, rest, key)
          ensures sizeOf[k] >= sizeOf[last]
        {
          if k != key {
            var i: nat :| i < n && sorted[i] == k;
            assert sizeOf[sorted[i]] >= sizeOf[last];
          }
        }
        SortedAppend(sizeOf, Insert(sizeOf, rest, key), last);
      }
    }
  }

  lemma {:induction false} InsertDistinct(sizeOf: map<nat, nat>, sorted: seq<nat>, key: nat)
    requires key in sizeOf && (forall k | k in sorted :: k in sizeOf) && Distinct(sorted) && key !in sorted
    ensures Distinct(Insert(sizeOf, sorted, key))
    decreases |sorted|
  {
    if sorted != [] {
      var n := |sorted| - 1;
      InsertDistinct(sizeOf, sorted[..n], key);
      InsertKeys(sizeOf, sorted[..n], key);
      var front := Insert(sizeOf, sorted[..n], key);
      assert forall i: nat | i < |front| :: front[i] in front;
    }
  }

  /** arsort: the keys in descending order of size. */
  method SortBySize(keys: seq<nat>, sizeOf: map<nat, nat>) returns (sorted: seq<nat>)
    requires (forall k | k in keys :: k in sizeOf) && Distinct(keys)
    ensures multiset(sorted) == multiset(keys) && SortedBySize(sizeOf, sorted) && Distinct(sorted)
  {
    sorted := [];
    for i := 0 to |keys|
      invariant multiset(sorted) == multiset(keys[..i]) && SortedBySize(sizeOf, sorted) && Distinct(sorted)
    {
      assert keys[i] in keys && keys[i] !in multiset(keys[..i]);
      assert keys[i] !in multiset(sorted);
      InsertSorted(sizeOf, sorted, keys[i]);
      InsertDistinct(sizeOf, sorted, keys[i]);
      sorted := Insert(sizeOf, sorted, keys[i]);
      assert keys[..i + 1] == keys[..i] + [keys[i]];
    }
    assert keys[..|keys|] == keys;
  }

  // ---------- the whole split ----------

  /** $sets and $set_sizes. */
  datatype Sets = Sets(members: map<nat, seq<nat>>, sizes: map<nat, nat>)

  /** The entry of representative r after i functions. */
  predicate EntryOk(functions: seq<string>, root: seq<nat>, i: nat, s: Sets, r: nat)
    requires i <= |root|
  {
    && r in s.members && s.members[r] == Members(root, r, i)
    && r in s.sizes && s.sizes[r] == TextSize(functions, s.members[r])
  }

  /** One entry per representative seen so far. */
  predicate SetsBuilt(functions: seq<string>, root: seq<nat>, i: nat, keys: seq<nat>, s: Sets)
    requires i <= |root|
  {
    && Distinct(keys)
    && (forall x: nat | x < i :: root[x] in keys)
    && (forall r: nat | r in keys :: EntryOk(functions, root, i, s, r))
    && (forall r: nat | r in s.members :: r in keys)
  }

  lemma {:induction false} NotSeenYet(root: seq<nat>, r: nat, i: nat)
    requires i <= |root| && forall x: nat | x < i :: root[x] != r
    ensures Members(root, r, i) == []
  {
    if i > 0 {
      NotSeenYet(root, r, i - 1);
    }
  }

  function AddFunction(s: Sets, r: nat, i: nat, size: nat): Sets
    requires r in s.members ==> r in s.sizes
  {
    if r in s.members then
      Sets(s.members[r := s.members[r] + [i]], s.sizes[r := s.sizes[r] + size])
    else
      Sets(s.members[r := [i]], s.sizes[r := size])
  }

  lemma EntryExtends(functions: seq<string>, root: seq<nat>, i: nat, s: Sets, r: nat)
    requires i < |root| == |functions| && (root[i] in s.members ==> EntryOk(functions, root, i, s, root[i]))
    requires r != root[i] ==> EntryOk(functions, root, i, s, r)
    requires root[i] !in s.members ==> forall x: nat | x < i :: root[x] != root[i]
    ensures EntryOk(functions, root, i + 1, AddFunction(s, root[i], i, |functions[i]|), r)
  {
    if r == root[i] {
      var members := if r in s.members then s.members[r] else [];
      if r !in s.members {
        NotSeenYet(root, r, i);
      }
      assert (members + [i])[..|members|] == members;
    }
  }

  /** Adding function i to its set. */
  lemma NothingBuilt(functions: seq<string>, root: seq<nat>)
    ensures SetsBuilt(functions, root, 0, [], Sets(map[], map[]))
  {
  }

  lemma EntryHasSize(functions: seq<string>, root: seq<nat>, i: nat, s: Sets, r: nat)
    requires i <= |root| && EntryOk(functions, root, i, s, r)
    ensures r in s.members && r in s.sizes
  {
  }

  lemma SetsExtend(functions: seq<string>, root: seq<nat>, i: nat, keys: seq<nat>, s: Sets)
    requires i < |root| == |functions| && SetsBuilt(functions, root, i, keys, s)
    ensures root[i] in s.members ==> root[i] in s.sizes
    ensures SetsBuilt(functions, root, i + 1, if root[i] in s.members then keys else keys + [root[i]],
                      AddFunction(s, root[i], i, |functions[i]|))
  {
    hide EntryOk;
    var r := root[i];
    if r in keys {
      EntryHasSize(functions, root, i, s, r);
    }
    var keys' := if r in s.members then keys else keys + [r];
    forall q: nat | q in keys'
      ensures EntryOk(functions, root, i + 1, AddFunction(s, r, i, |functions[i]|), q)
    {
      EntryExtends(functions, root, i, s, q);
    }
  }

  method BuildSets(ds: UnionFind, functions: seq<string>) returns (keys: seq<nat>, s: Sets)
    requires ds.Valid() && ds.parents.Length == |functions|
    modifies ds.parents
    ensures ds.Valid() && SetsBuilt(functions, ds.root, |functions|, keys, s)
  {
    hide SetsBuilt;
    ghost var root := ds.root;
    keys, s := [], Sets(map[], map[]);
    NothingBuilt(functions, root);
    for i := 0 to |functions|
      invariant ds.Valid() && ds.root == root && SetsBuilt(functions, root, i, keys, s)
    {
      SetsExtend(functions, root, i, keys, s);
      var parent := ds.Find(i);
      if parent !in s.members {
        keys := keys + [parent];
      }
      s := AddFunction(s, parent, i, |functions[i]|);
    }
  }

  /** Everything the split decides: representatives, packing order, the packing, and the resulting files. */
  datatype Plan = Plan(root: seq<nat>, order: seq<nat>, assign: seq<nat>, files: seq<seq<nat>>)

  function PlanSizes(functions: seq<string>, p: Plan): seq<nat> {
    SizesOf(functions, SetsOf(p.root, p.order))
  }

  ghost predicate PlanOk(functions: seq<string>, deps: seq<seq<nat>>, chunks: nat, p: Plan) {
    && |p.root| == |functions| && |p.order| == |p.assign| && |p.files| == chunks
    && (forall a: nat, b: nat | a < |p.root| && b < |p.root| :: Same(p.root, a, b) <==> Connected(deps, a, b))
    && Distinct(p.order) && (forall x: nat | x < |p.root| :: p.root[x] in p.order)
    && Descending(PlanSizes(functions, p)) && Greedy(PlanSizes(functions, p), p.assign, chunks)
    && (forall f: nat | f < chunks :: p.files[f] == FileContent(SetsOf(p.root, p.order), p.assign, f))
  }

  /** Where the set of x was packed: x is in that file once and in no other. */
  lemma PlacedOnce(functions: seq<string>, deps: seq<seq<nat>>, chunks: nat, p: Plan, x: nat) returns (place: nat)
    requires PlanOk(functions, deps, chunks, p) && x < |functions|
    ensures place < chunks
    ensures forall f: nat | f < chunks :: multiset(p.files[f])[x] == One(f == place)
    ensures forall y: nat, f: nat | y < |functions| && f < chunks && Connected(deps, x, y) ::
              multiset(p.files[f])[y] == One(f == place)
  {
    var k: nat :| k < |p.order| && p.order[k] == p.root[x];
    assert GreedyAt(PlanSizes(functions, p), p.assign, chunks, k);
    place := p.assign[k];
    forall y: nat, f: nat | y < |functions| && f < chunks && p.root[y] == p.root[x]
      ensures multiset(p.files[f])[y] == One(f == place)
    {
      FileCount(p.root, p.order, p.assign, f, y);
      CopiesOnce(p.order, p.assign, p.root[y], k, f);
    }
    forall y: nat | y < |functions| && Connected(deps, x, y)
      ensures p.root[y] == p.root[x]
    {
      assert Same(p.root, x, y);
    }
  }

  /** Every function's text lands in exactly one output file, once. */
  lemma EachFunctionOnce(functions: seq<string>, deps: seq<seq<nat>>, chunks: nat, p: Plan, x: nat)
    requires PlanOk(functions, deps, chunks, p) && x < |functions|
    ensures exists place: nat :: place < chunks && multiset(p.files[place])[x] == 1 &&
              forall f: nat | f < chunks && f != place :: x !in p.files[f]
  {
    var place := PlacedOnce(functions, deps, chunks, p, x);
    assert multiset(p.files[place])[x] == 1;
    forall f: nat | f < chunks && f != place
      ensures x !in p.files[f]
    {
      assert multiset(p.files[f])[x] == 0;
    }
  }

  /** Functions connected through dependency names land in the same file. */
  lemma SetsStayWhole(functions: seq<string>, deps: seq<seq<nat>>, chunks: nat, p: Plan, x: nat, y: nat, f: nat)
    requires PlanOk(functions, deps, chunks, p) && x < |functions| && y < |functions| && f < chunks
    requires Connected(deps, x, y)
    ensures x in p.files[f] <==> y in p.files[f]
  {
    var place := PlacedOnce(functions, deps, chunks, p, x);
    assert x in p.files[f] <==> multiset(p.files[f])[x] > 0;
    assert y in p.files[f] <==> multiset(p.files[f])[y] > 0;
  }

  /** The longest file is within 4/3 - 1/(3*chunks) of the best packing that keeps sets whole. */
  lemma LongestFile(functions: seq<string>, deps: seq<seq<nat>>, chunks: nat, p: Plan, other: seq<nat>, b: nat, f: nat)
    requires PlanOk(functions, deps, chunks, p) && f < chunks
    requires IsPacking(PlanSizes(functions, p), other, chunks) && Within(PlanSizes(functions, p), other, chunks, b)
    ensures 3 * chunks * TextSize(functions, p.files[f]) <= (4 * chunks - 1) * b
  {
    FileSize(functions, SetsOf(p.root, p.order), p.assign, f);
    LargestFirstBound(PlanSizes(functions, p), p.assign, other, chunks, b, f);
  }

  /** Sorting keeps the entries: every key of the order has its complete set and its size. */
  lemma OrderEntries(functions: seq<string>, root: seq<nat>, keys: seq<nat>, s: Sets, order: seq<nat>)
    requires |root| == |functions| && SetsBuilt(functions, root, |root|, keys, s) && multiset(order) == multiset(keys)
    ensures forall k: nat | k < |order| :: EntryOk(functions, root, |root|, s, order[k])
    ensures forall x: nat | x < |root| :: root[x] in order
  {
    forall k: nat | k < |order|
      ensures EntryOk(functions, root, |root|, s, order[k])
    {
      assert order[k] in multiset(order);
      assert order[k] in keys;
    }
    forall x: nat | x < |root|
      ensures root[x] in order
    {
      assert root[x] in multiset(keys);
    }
  }

  function MembersList(s: Sets, order: seq<nat>): (r: seq<seq<nat>>)
    ensures |r| == |order|
  {
    seq(|order|, k requires 0 <= k < |order| => if order[k] in s.members then s.members[order[k]] else [])
  }

  function SizesList(s: Sets, order: seq<nat>): (r: seq<nat>)
    ensures |r| == |order|
  {
    seq(|order|, k requires 0 <= k < |order| => if order[k] in s.sizes then s.sizes[order[k]] else 0)
  }

  lemma ListsMatch(functions: seq<string>, root: seq<nat>, s: Sets, order: seq<nat>)
    requires |root| == |functions|
    requires forall k: nat | k < |order| :: EntryOk(functions, root, |root|, s, order[k])
    ensures MembersList(s, order) == SetsOf(root, order)
    ensures SizesList(s, order) == SizesOf(functions, SetsOf(root, order))
  {
    forall k: nat | k < |order|
      ensures MembersList(s, order)[k] == SetsOf(root, order)[k]
      ensures SizesList(s, order)[k] == SizesOf(functions, SetsOf(root, order))[k]
    {
      assert EntryOk(functions, root, |root|, s, order[k]);
    }
  }

  lemma SortedDescends(s: Sets, order: seq<nat>)
    requires SortedBySize(s.sizes, order)
    ensures Descending(SizesList(s, order))
  {
  }

  /** $files[$file_id] .= $sets[$parent], set by set. */
  method FillFiles(sets: seq<seq<nat>>, assign: seq<nat>, chunks: nat) returns (files: seq<seq<nat>>)
    requires |sets| == |assign| && forall k: nat | k < |assign| :: assign[k] < chunks
    ensures |files| == chunks && forall f: nat | f < chunks :: files[f] == FileContent(sets, assign, f)
  {
    files := seq(chunks, _ => []);
    for k := 0 to |sets|
      invariant |files| == chunks
      invariant forall f: nat | f < chunks :: files[f] == FileContent(sets[..k], assign[..k], f)
    {
      assert sets[..k + 1][..k] == sets[..k] && assign[..k + 1][..k] == assign[..k];
      files := files[assign[k] := files[assign[k]] + sets[k]];
    }
    assert sets[..|sets|] == sets && assign[..|sets|] == assign;
  }

  /** From the finished sets to the files: sort, pack, fill. */
  method PackSets(functions: seq<string>, ghost root: seq<nat>, keys: seq<nat>, s: Sets, chunks: nat)
    returns (order: seq<nat>, assign: seq<nat>, files: seq<seq<nat>>)
    requires chunks > 0 && |root| == |functions| && SetsBuilt(functions, root, |root|, keys, s)
    ensures |order| == |assign| && |files| == chunks
    ensures Distinct(order) && forall x: nat | x < |root| :: root[x] in order
    ensures Descending(SizesOf(functions, SetsOf(root, order)))
    ensures Greedy(SizesOf(functions, SetsOf(root, order)), assign, chunks)
    ensures forall f: nat | f < chunks :: files[f] == FileContent(SetsOf(root, order), assign, f)
  {
    assert forall k | k in keys :: EntryOk(functions, root, |root|, s, k);
    order := SortBySize(keys, s.sizes);
    OrderEntries(functions, root, keys, s, order);
    ListsMatch(functions, root, s, order);
    SortedDescends(s, order);
    var loads;
    assign, loads := Pack(SizesList(s, order), chunks);
    files := FillFiles(MembersList(s, order), assign, chunks);
  }

  /**
   The split of one source file into `chunks` files; `coins` are the random choices of the
   unions. Fails if there are fewer functions than files.
   */
  method Split(functions: seq<string>, deps: seq<seq<nat>>, chunks: nat, coins: seq<bool>)
    returns (ok: bool, files: seq<seq<nat>>, ghost p: Plan)
    requires chunks > 0
    requires forall g | g in deps :: g != [] && forall id | id in g :: id < |functions|
    ensures ok <==> |functions| >= chunks
    ensures ok ==> p.files == files && PlanOk(functions, deps, chunks, p)
  {
    files, p := [], Plan([], [], [], []);
    if |functions| < chunks {
      return false, files, p;
    }
    var ds := new UnionFind(|functions|);
    ds.MergeDependencies(deps, coins);
    ghost var root := ds.root;
    var keys, s := BuildSets(ds, functions);
    var order, assign;
    order, assign, files := PackSets(functions, root, keys, s, chunks);
    p := Plan(root, order, assign, files);
    return true, files, p;
  }
}

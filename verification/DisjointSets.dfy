/**
 Union-find with path compression and an arbitrary choice of the new root
 (disjoint_set_find and disjoint_set_union of SplitSource.php), and the loop that merges
 all functions that mention the same dependency name.
 */
module DisjointSets {

  /** a and b are mentioned under one dependency name. */
  predicate Linked(deps: seq<seq<nat>>, a: nat, b: nat) {
    exists g | g in deps :: a in g && b in g
  }

  ghost predicate IsChain(deps: seq<seq<nat>>, path: seq<nat>, a: nat, b: nat) {
    && path != [] && path[0] == a && path[|path| - 1] == b
    && forall i: nat | i + 1 < |path| :: Linked(deps, path[i], path[i + 1])
  }

  /** A chain of shared dependency names leads from a to b. */
  ghost predicate Connected(deps: seq<seq<nat>>, a: nat, b: nat) {
    exists path :: IsChain(deps, path, a, b)
  }

  lemma ConnectedSelf(deps: seq<seq<nat>>, a: nat)
    ensures Connected(deps, a, a)
  {
    assert IsChain(deps, [a], a, a);
  }

  lemma ConnectedLink(deps: seq<seq<nat>>, a: nat, b: nat)
    requires Linked(deps, a, b)
    ensures Connected(deps, a, b)
  {
    assert IsChain(deps, [a, b], a, b);
  }

  lemma ConnectedTransitive(deps: seq<seq<nat>>, a: nat, b: nat, c: nat)
    requires Connected(deps, a, b) && Connected(deps, b, c)
    ensures Connected(deps, a, c)
  {
    var p :| IsChain(deps, p, a, b);
    var q :| IsChain(deps, q, b, c);
    var r := p + q[1..];
    forall i: nat | i + 1 < |r|
      ensures Linked(deps, r[i], r[i + 1])
    {
      if i + 1 < |p| {
        assert Linked(deps, p[i], p[i + 1]);
      } else {
        var j := i + 1 - |p|;
        assert r[i] == q[j] && r[i + 1] == q[j + 1];
        assert Linked(deps, q[j], q[j + 1]);
      }
    }
    assert IsChain(deps, r, a, c);
  }

  lemma ConnectedSymmetric(deps: seq<seq<nat>>, a: nat, b: nat)
    requires Connected(deps, a, b)
    ensures Connected(deps, b, a)
  {
    var p :| IsChain(deps, p, a, b);
    var r := seq(|p|, i requires 0 <= i < |p| => p[|p| - 1 - i]);
    forall i: nat | i + 1 < |r|
      ensures Linked(deps, r[i], r[i + 1])
    {
      var j := |p| - 2 - i;
      assert Linked(deps, p[j], p[j + 1]);
    }
    assert IsChain(deps, r, b, a);
  }

  /** x and y are in the same set, given every element's representative. */
  predicate Same(root: seq<nat>, x: nat, y: nat) {
    x < |root| && y < |root| && root[x] == root[y]
  }

  /** The sets of x and y have been merged, and nothing else. */
  ghost predicate Merged(before: seq<nat>, after: seq<nat>, x: nat, y: nat) {
    && |after| == |before|
    && forall a: nat, b: nat | a < |before| && b < |before| ::
         Same(after, a, b) <==>
         || Same(before, a, b)
         || (Same(before, a, x) && Same(before, y, b))
         || (Same(before, a, y) && Same(before, x, b))
  }

  function Max(a: nat, b: nat): nat { if a < b then b else a }

  /** Every element of a group of dependencies is in the set of the group's first element. */
  ghost predicate GroupJoined(root: seq<nat>, g: seq<nat>, n: nat) {
    forall k: nat | k < n && k < |g| :: Same(root, g[0], g[k])
  }

  /** What was together stays together. */
  ghost predicate Coarser(before: seq<nat>, after: seq<nat>) {
    forall a: nat, b: nat | Same(before, a, b) :: Same(after, a, b)
  }

  ghost predicate Sound(deps: seq<seq<nat>>, root: seq<nat>) {
    forall a: nat, b: nat | Same(root, a, b) :: Connected(deps, a, b)
  }

  lemma MergeSound(deps: seq<seq<nat>>, before: seq<nat>, after: seq<nat>, x: nat, y: nat)
    requires Sound(deps, before) && Merged(before, after, x, y) && Linked(deps, x, y)
    ensures Sound(deps, after)
  {
    ConnectedLink(deps, x, y);
    ConnectedSymmetric(deps, x, y);
    forall a: nat, b: nat | Same(after, a, b)
      ensures Connected(deps, a, b)
    {
      if Same(before, a, x) && Same(before, y, b) {
        ConnectedTransitive(deps, a, x, y);
        ConnectedTransitive(deps, a, y, b);
      } else if Same(before, a, y) && Same(before, x, b) {
        ConnectedTransitive(deps, a, y, x);
        ConnectedTransitive(deps, a, x, b);
      }
    }
  }

  lemma MergeKeepsGroup(before: seq<nat>, after: seq<nat>, x: nat, y: nat, g: seq<nat>, n: nat)
    requires Merged(before, after, x, y) && GroupJoined(before, g, n)
    ensures GroupJoined(after, g, n)
  {
  }

  lemma {:induction false} ChainSame(deps: seq<seq<nat>>, root: seq<nat>, path: seq<nat>, a: nat, b: nat)
    requires forall g | g in deps :: GroupJoined(root, g, |g|)
    requires IsChain(deps, path, a, b) && a < |root|
    ensures Same(root, a, b)
  {
    if |path| > 1 {
      assert Linked(deps, path[0], path[1]);
      var g :| g in deps && path[0] in g && path[1] in g;
      assert Same(root, path[0], path[1]);
      var rest := path[1..];
      forall i: nat | i + 1 < |rest|
        ensures Linked(deps, rest[i], rest[i + 1])
      {
        var k := i + 1;
        assert Linked(deps, path[k], path[k + 1]);
      }
      ChainSame(deps, root, rest, path[1], b);
    }
  }

  // ---------- the forest ----------

  /** Node x: its representative is a root it shares with its parent, and ranks grow towards the root. */
  predicate NodeOk(p: seq<nat>, root: seq<nat>, rank: seq<nat>, bound: nat, x: nat)
    requires |p| == |root| == |rank| && x < |p|
  {
    && p[x] < |p| && root[x] < |p| && rank[x] <= bound
    && p[root[x]] == root[x] && root[root[x]] == root[x] && root[p[x]] == root[x]
    && (if p[x] == x then root[x] == x else rank[x] < rank[p[x]])
    && rank[x] <= rank[root[x]]
  }

  predicate Forest(p: seq<nat>, root: seq<nat>, rank: seq<nat>, bound: nat) {
    && |p| == |root| == |rank|
    && forall x: nat | x < |p| :: NodeOk(p, root, rank, bound, x)
  }

  /** Pointing a node straight at its representative changes no set. */
  lemma CompressKeeps(p: seq<nat>, root: seq<nat>, rank: seq<nat>, bound: nat, x: nat)
    requires Forest(p, root, rank, bound) && x < |p| && p[x] != x
    ensures root[x] < |p| && Forest(p[x := root[x]], root, rank, bound)
  {
    assert NodeOk(p, root, rank, bound, x);
    var q := p[x := root[x]];
    assert root[x] != x;
    assert NodeOk(p, root, rank, bound, p[x]);
    forall y: nat | y < |p|
      ensures NodeOk(q, root, rank, bound, y)
    {
      assert NodeOk(p, root, rank, bound, y);
      assert NodeOk(p, root, rank, bound, root[y]);
    }
  }

  function Relabel(root: seq<nat>, a: nat, b: nat): (r: seq<nat>)
    ensures |r| == |root|
  {
    seq(|root|, i requires 0 <= i < |root| => if root[i] == a then b else root[i])
  }

  /** Putting root a under root b moves exactly the nodes of a's set to b's. */
  lemma LinkKeeps(p: seq<nat>, root: seq<nat>, rank: seq<nat>, bound: nat, a: nat, b: nat)
    requires Forest(p, root, rank, bound) && a < |p| && b < |p| && p[a] == a && p[b] == b && a != b
    ensures Forest(p[a := b], Relabel(root, a, b), rank[b := Max(rank[b], rank[a] + 1)], Max(bound, rank[a] + 1))
  {
    var q, root' := p[a := b], Relabel(root, a, b);
    var rank', bound' := rank[b := Max(rank[b], rank[a] + 1)], Max(bound, rank[a] + 1);
    assert NodeOk(p, root, rank, bound, a) && NodeOk(p, root, rank, bound, b);
    forall x: nat | x < |p|
      ensures NodeOk(q, root', rank', bound', x)
    {
      assert NodeOk(p, root, rank, bound, x);
      assert NodeOk(p, root, rank, bound, root[x]);
    }
  }

  lemma RelabelMerges(root: seq<nat>, x: nat, y: nat, a: nat, b: nat)
    requires x < |root| && y < |root|
    requires (root[x] == a && root[y] == b) || (root[x] == b && root[y] == a)
    ensures Merged(root, Relabel(root, a, b), x, y)
  {
  }

  class UnionFind {
    var parents: array<nat>
    /** Each element's representative, and heights that grow towards it: the forest has no cycles. */
    ghost var root: seq<nat>
    ghost var rank: seq<nat>
    ghost var bound: nat

    ghost predicate Valid()
      reads this, parents
    {
      Forest(parents[..], root, rank, bound)
    }

    constructor (n: nat)
      ensures Valid() && fresh(parents) && parents.Length == n
      ensures root == seq(n, i => i)
    {
      parents := new nat[n](i => i);
      root := seq(n, i => i);
      rank := seq(n, _ => 0);
      bound := 0;
    }

    /** Returns the representative of x and compresses the path; the sets stay as they are. */
    method Find(x: nat) returns (r: nat)
      requires Valid() && x < parents.Length
      modifies parents
      ensures Valid() && r == root[x] && r < parents.Length && parents[r] == r
      decreases bound - rank[x]
    {
      assert NodeOk(parents[..], root, rank, bound, x);
      if parents[x] != x {
        assert NodeOk(parents[..], root, rank, bound, parents[x]);
        r := Find(parents[x]);
        ghost var p := parents[..];
        assert NodeOk(p, root, rank, bound, x);
        CompressKeeps(p, root, rank, bound, x);
        parents[x] := r;
        assert parents[..] == p[x := r];
        return;
      }
      return x;
    }

    /** coin is the random choice of which root goes under the other. */
    method Union(x: nat, y: nat, coin: bool)
      requires Valid() && x < parents.Length && y < parents.Length
      modifies this`root, this`rank, this`bound, parents
      ensures Valid() && Merged(old(root), root, x, y)
    {
      var a := Find(x);
      var b := Find(y);
      assert NodeOk(parents[..], root, rank, bound, x);
      if a != b {
        if coin {
          RelabelMerges(root, x, y, a, b);
          Link(a, b);
        } else {
          RelabelMerges(root, x, y, b, a);
          Link(b, a);
        }
      }
    }

    /** Root a goes under root b. */
    method Link(a: nat, b: nat)
      requires Valid() && a < parents.Length && b < parents.Length && parents[a] == a && parents[b] == b && a != b
      modifies this`root, this`rank, this`bound, parents
      ensures Valid() && root == Relabel(old(root), a, b)
    {
      LinkKeeps(parents[..], root, rank, bound, a, b);
      ghost var p := parents[..];
      parents[a] := b;
      assert parents[..] == p[a := b];
      root := Relabel(root, a, b);
      bound := Max(bound, rank[a] + 1);
      rank := rank[b := Max(rank[b], rank[a] + 1)];
    }

    /** One dependency name: everything that mentions it joins the first function that does. */
    method MergeGroup(deps: seq<seq<nat>>, g: seq<nat>, coins: seq<bool>, first: nat)
      requires Valid() && Sound(deps, root) && g in deps && g != [] && forall id | id in g :: id < parents.Length
      modifies this`root, this`rank, this`bound, parents
      ensures Valid() && |root| == |old(root)| && Sound(deps, root) && GroupJoined(root, g, |g|)
      ensures Coarser(old(root), root)
    {
      for j := 0 to |g|
        invariant Valid() && |root| == |old(root)| && Sound(deps, root)
        invariant GroupJoined(root, g, j) && Coarser(old(root), root)
      {
        ghost var before := root;
        assert g[0] in g && g[j] in g;
        assert Linked(deps, g[0], g[j]);
        Union(g[0], g[j], first + j < |coins| && coins[first + j]);
        MergeSound(deps, before, root, g[0], g[j]);
        MergeKeepsGroup(before, root, g[0], g[j], g, j);
        assert Same(before, g[0], g[0]) && Same(before, g[j], g[j]);
        assert Same(root, g[0], g[j]);
      }
    }

    /**
     The dependency loop: afterwards two functions are in one set exactly when a chain of
     shared dependency names connects them.
     */
    method MergeDependencies(deps: seq<seq<nat>>, coins: seq<bool>)
      requires Valid() && root == seq(parents.Length, i => i)
      requires forall g | g in deps :: g != [] && forall id | id in g :: id < parents.Length
      modifies this`root, this`rank, this`bound, parents
      ensures Valid() && |root| == |old(root)|
      ensures forall a: nat, b: nat | a < |root| && b < |root| :: Same(root, a, b) <==> Connected(deps, a, b)
    {
      forall a: nat, b: nat | Same(root, a, b)
        ensures Connected(deps, a, b)
      {
        ConnectedSelf(deps, a);
      }
      var used: nat := 0;
      for i := 0 to |deps|
        invariant Valid() && |root| == |old(root)| && Sound(deps, root)
        invariant forall h: nat | h < i :: GroupJoined(root, deps[h], |deps[h]|)
      {
        ghost var before := root;
        assert deps[i] in deps;
        MergeGroup(deps, deps[i], coins, used);
        used := used + |deps[i]|;
        forall h: nat | h < i
          ensures GroupJoined(root, deps[h], |deps[h]|)
        {
          assert GroupJoined(before, deps[h], |deps[h]|);
        }
      }
      ChainsJoined(deps, root);
    }
  }

  lemma ChainsJoined(deps: seq<seq<nat>>, root: seq<nat>)
    requires Sound(deps, root) && forall h: nat | h < |deps| :: GroupJoined(root, deps[h], |deps[h]|)
    ensures forall a: nat, b: nat | a < |root| && b < |root| :: Same(root, a, b) <==> Connected(deps, a, b)
  {
    forall a: nat, b: nat | a < |root| && b < |root| && Connected(deps, a, b)
      ensures Same(root, a, b)
    {
      var path :| IsChain(deps, path, a, b);
      ChainSame(deps, root, path, a, b);
    }
  }
}

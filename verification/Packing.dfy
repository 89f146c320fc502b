/**
 The packing loop of SplitSource.php: sets of functions, largest first, each go to the file
 that is smallest so far. Its makespan is at most 4/3 - 1/(3*files) times that of any packing.
 */
module Packing {

  function Total(sizes: seq<nat>): nat {
    if sizes == [] then 0 else Total(sizes[..|sizes| - 1]) + sizes[|sizes| - 1]
  }

  /** Bytes that the packing puts into file f; assign[j] is the file of item j. */
  function Load(sizes: seq<nat>, assign: seq<nat>, f: nat): nat
    requires |sizes| == |assign|
    decreases |sizes|
  {
    if sizes == [] then 0
    else
      var n := |sizes| - 1;
      Load(sizes[..n], assign[..n], f) + if assign[n] == f then sizes[n] else 0
  }

  predicate IsPacking(sizes: seq<nat>, assign: seq<nat>, files: nat) {
    |assign| == |sizes| && forall j: nat | j < |assign| :: assign[j] < files
  }

  /** No file is larger than b. */
  predicate Within(sizes: seq<nat>, assign: seq<nat>, files: nat, b: nat)
    requires |sizes| == |assign|
  {
    forall f: nat | f < files :: Load(sizes, assign, f) <= b
  }

  /** Item j went to a file that was smallest among the files before it. */
  predicate GreedyAt(sizes: seq<nat>, assign: seq<nat>, files: nat, j: nat)
    requires |sizes| == |assign| && j < |sizes|
  {
    && assign[j] < files
    && forall f: nat | f < files :: Load(sizes[..j], assign[..j], assign[j]) <= Load(sizes[..j], assign[..j], f)
  }

  predicate Greedy(sizes: seq<nat>, assign: seq<nat>, files: nat) {
    |sizes| == |assign| && forall j: nat | j < |sizes| :: GreedyAt(sizes, assign, files, j)
  }

  predicate Descending(sizes: seq<nat>) {
    forall i: nat, j: nat | i < j < |sizes| :: sizes[i] >= sizes[j]
  }

  // ---------- loads and totals ----------

  function LoadSum(sizes: seq<nat>, assign: seq<nat>, files: nat): nat
    requires |sizes| == |assign|
  {
    if files == 0 then 0 else LoadSum(sizes, assign, files - 1) + Load(sizes, assign, files - 1)
  }

  lemma {:induction false} LoadSumLast(sizes: seq<nat>, assign: seq<nat>, files: nat)
    requires |sizes| == |assign| > 0
    ensures var n := |sizes| - 1;
            LoadSum(sizes, assign, files)
            == LoadSum(sizes[..n], assign[..n], files) + if assign[n] < files then sizes[n] else 0
  {
    if files > 0 {
      LoadSumLast(sizes, assign, files - 1);
    }
  }

  /** Every item is in exactly one file. */
  lemma {:induction false} LoadsAddUp(sizes: seq<nat>, assign: seq<nat>, files: nat)
    requires IsPacking(sizes, assign, files)
    ensures LoadSum(sizes, assign, files) == Total(sizes)
    decreases |sizes|
  {
    if sizes == [] {
      NoItems(files);
    } else {
      var n := |sizes| - 1;
      LoadSumLast(sizes, assign, files);
      LoadsAddUp(sizes[..n], assign[..n], files);
    }
  }

  lemma {:induction false} NoItems(files: nat)
    ensures LoadSum([], [], files) == 0
  {
    if files > 0 {
      NoItems(files - 1);
    }
  }

  lemma {:induction false} LoadSumBounds(sizes: seq<nat>, assign: seq<nat>, files: nat, lo: nat, hi: nat)
    requires |sizes| == |assign|
    requires forall f: nat | f < files :: lo <= Load(sizes, assign, f) <= hi
    ensures files * lo <= LoadSum(sizes, assign, files) <= files * hi
  {
    if files > 0 {
      LoadSumBounds(sizes, assign, files - 1, lo, hi);
      assert (files - 1) * lo + lo == files * lo && (files - 1) * hi + hi == files * hi;
    }
  }

  lemma LoadSumLower(sizes: seq<nat>, assign: seq<nat>, files: nat, lo: nat)
    requires IsPacking(sizes, assign, files)
    requires forall f: nat | f < files :: lo <= Load(sizes, assign, f)
    ensures files * lo <= Total(sizes)
  {
    forall f: nat | f < files
      ensures Load(sizes, assign, f) <= Total(sizes)
    {
      LoadAtMostTotal(sizes, assign, f);
    }
    LoadSumBounds(sizes, assign, files, lo, Total(sizes));
    LoadsAddUp(sizes, assign, files);
  }

  lemma LoadSumUpper(sizes: seq<nat>, assign: seq<nat>, files: nat, hi: nat)
    requires IsPacking(sizes, assign, files) && Within(sizes, assign, files, hi)
    ensures Total(sizes) <= files * hi
  {
    LoadSumBounds(sizes, assign, files, 0, hi);
    LoadsAddUp(sizes, assign, files);
  }

  lemma {:induction false} LoadAtMostTotal(sizes: seq<nat>, assign: seq<nat>, f: nat)
    requires |sizes| == |assign|
    ensures Load(sizes, assign, f) <= Total(sizes)
    decreases |sizes|
  {
    if sizes != [] {
      LoadAtMostTotal(sizes[..|sizes| - 1], assign[..|sizes| - 1], f);
    }
  }

  /** One item, and two different items, of a file weigh no more than the file. */
  lemma {:induction false} LoadAtLeast(sizes: seq<nat>, assign: seq<nat>, j: nat, k: nat)
    requires |sizes| == |assign| && j < |sizes| && k < |sizes| && assign[j] == assign[k]
    ensures Load(sizes, assign, assign[j]) >= if j == k then sizes[j] else sizes[j] + sizes[k]
    decreases |sizes|
  {
    var n := |sizes| - 1;
    if j < n && k < n {
      LoadAtLeast(sizes[..n], assign[..n], j, k);
    } else if j < n {
      LoadAtLeast(sizes[..n], assign[..n], j, j);
    } else if k < n {
      LoadAtLeast(sizes[..n], assign[..n], k, k);
    }
  }

  lemma {:induction false} LoadNone(sizes: seq<nat>, assign: seq<nat>, f: nat)
    requires |sizes| == |assign| && forall j: nat | j < |assign| :: assign[j] != f
    ensures Load(sizes, assign, f) == 0
    decreases |sizes|
  {
    if sizes != [] {
      LoadNone(sizes[..|sizes| - 1], assign[..|sizes| - 1], f);
    }
  }

  /** A file with a single item weighs what that item weighs. */
  lemma {:induction false} LoadSingle(sizes: seq<nat>, assign: seq<nat>, j: nat)
    requires |sizes| == |assign| && j < |sizes| && forall k: nat | k < |assign| && k != j :: assign[k] != assign[j]
    ensures Load(sizes, assign, assign[j]) == sizes[j]
    decreases |sizes|
  {
    var n := |sizes| - 1;
    if j < n {
      LoadSingle(sizes[..n], assign[..n], j);
    } else {
      LoadNone(sizes[..n], assign[..n], assign[j]);
    }
  }

  /** If every item of file f weighs at least s times its weight w, so does the file. */
  lemma {:induction false} LoadScales(sizes: seq<nat>, w: seq<nat>, assign: seq<nat>, f: nat, s: nat)
    requires |sizes| == |w| == |assign|
    requires forall j: nat | j < |sizes| && assign[j] == f :: sizes[j] >= s * w[j]
    ensures Load(sizes, assign, f) >= s * Load(w, assign, f)
    decreases |sizes|
  {
    if sizes != [] {
      var n := |sizes| - 1;
      LoadScales(sizes[..n], w[..n], assign[..n], f, s);
      if assign[n] == f {
        assert s * (Load(w[..n], assign[..n], f) + w[n]) == s * Load(w[..n], assign[..n], f) + s * w[n];
      }
    }
  }

  lemma {:induction false} TotalMonotone(a: seq<nat>, b: seq<nat>)
    requires |a| == |b| && forall j: nat | j < |a| :: a[j] <= b[j]
    ensures Total(a) <= Total(b)
    decreases |a|
  {
    if a != [] {
      TotalMonotone(a[..|a| - 1], b[..|b| - 1]);
    }
  }

  // ---------- the greedy bound ----------

  /** When an item of size s arrives, the file it goes to ends below the average plus (files-1)/files of s. */
  lemma OneMore(files: nat, low: nat, size: nat, total: nat)
    requires files > 0 && files * low <= total
    ensures files * (low + size) <= total + size + (files - 1) * size
  {
    assert files * (low + size) == files * low + files * size;
    assert files * size == (files - 1) * size + size;
  }

  lemma StepBound(sizes: seq<nat>, assign: seq<nat>, files: nat)
    requires IsPacking(sizes, assign, files) && sizes != [] && GreedyAt(sizes, assign, files, |sizes| - 1)
    ensures var n := |sizes| - 1;
            files * Load(sizes, assign, assign[n]) <= Total(sizes) + (files - 1) * sizes[n]
  {
    var n := |sizes| - 1;
    var low := Load(sizes[..n], assign[..n], assign[n]);
    LoadSumLower(sizes[..n], assign[..n], files, low);
    OneMore(files, low, sizes[n], Total(sizes[..n]));
  }

  lemma GreedyPrefix(sizes: seq<nat>, assign: seq<nat>, files: nat, n: nat)
    requires Greedy(sizes, assign, files) && n <= |sizes|
    ensures Greedy(sizes[..n], assign[..n], files) && IsPacking(sizes[..n], assign[..n], files)
  {
    forall j: nat | j < n
      ensures GreedyAt(sizes[..n], assign[..n], files, j) && assign[..n][j] < files
    {
      assert GreedyAt(sizes, assign, files, j);
      assert sizes[..n][..j] == sizes[..j] && assign[..n][..j] == assign[..j];
    }
  }

  /** files * max <= total + (files - 1) * largest, for every file of a greedy packing. */
  lemma {:induction false} GreedyBound(sizes: seq<nat>, assign: seq<nat>, files: nat, largest: nat, f: nat)
    requires Greedy(sizes, assign, files) && f < files && forall j: nat | j < |sizes| :: sizes[j] <= largest
    ensures files * Load(sizes, assign, f) <= Total(sizes) + (files - 1) * largest
    decreases |sizes|
  {
    if sizes == [] {
      assert (files - 1) * largest >= 0;
    } else {
      var n := |sizes| - 1;
      GreedyPrefix(sizes, assign, files, n);
      if assign[n] == f {
        GreedyIsPacking(sizes, assign, files);
        assert GreedyAt(sizes, assign, files, n);
        StepBound(sizes, assign, files);
        Times(files - 1, sizes[n], largest);
      } else {
        GreedyBound(sizes[..n], assign[..n], files, largest, f);
      }
    }
  }

  lemma Times(k: nat, a: nat, b: nat)
    requires a <= b
    ensures k * a <= k * b
  {
  }

  /** Any packing has a file as large as its largest item, and as the average. */
  lemma PackingBounds(sizes: seq<nat>, assign: seq<nat>, files: nat, b: nat)
    requires IsPacking(sizes, assign, files) && Within(sizes, assign, files, b)
    ensures Total(sizes) <= files * b
    ensures forall j: nat | j < |sizes| :: sizes[j] <= b
  {
    LoadSumUpper(sizes, assign, files, b);
    forall j: nat | j < |sizes|
      ensures sizes[j] <= b
    {
      LoadAtLeast(sizes, assign, j, j);
    }
  }

  /** Without looking at the order: at most 2 - 1/files times any packing that keeps sets whole. */
  lemma GreedyVersusAny(sizes: seq<nat>, assign: seq<nat>, other: seq<nat>, files: nat, b: nat, f: nat)
    requires Greedy(sizes, assign, files) && f < files
    requires IsPacking(sizes, other, files) && Within(sizes, other, files, b)
    ensures files * Load(sizes, assign, f) <= (2 * files - 1) * b
  {
    hide Greedy, IsPacking, Within, Load, Total;
    PackingBounds(sizes, other, files, b);
    GreedyBound(sizes, assign, files, b, f);
    assert files * b + (files - 1) * b == (2 * files - 1) * b;
  }

  // ---------- largest first ----------

  /** Item j has a file of its own. */
  predicate Alone(assign: seq<nat>, j: nat)
    requires j < |assign|
  {
    forall k: nat | k < |assign| && k != j :: assign[k] != assign[j]
  }

  /** An item counts 2 if it has a file of its own, 1 if it shares one. */
  function Weights(assign: seq<nat>): (w: seq<nat>)
    ensures |w| == |assign|
  {
    seq(|assign|, j requires 0 <= j < |assign| => if Alone(assign, j) then 2 else 1)
  }

  lemma NonEmptyWeighsTwo(assign: seq<nat>, j: nat)
    requires j < |assign|
    ensures Load(Weights(assign), assign, assign[j]) >= 2
  {
    if Alone(assign, j) {
      LoadAtLeast(Weights(assign), assign, j, j);
    } else {
      var k: nat :| k < |assign| && k != j && assign[k] == assign[j];
      LoadAtLeast(Weights(assign), assign, j, k);
    }
  }

  /** Where three smallest items do not fit, no file weighs more than two. */
  lemma CrowdedWeighsTwo(sizes: seq<nat>, assign: seq<nat>, f: nat, s: nat, b: nat)
    requires |sizes| == |assign| && (forall j: nat | j < |sizes| :: sizes[j] >= s) && 3 * s > b
    requires Load(sizes, assign, f) <= b
    ensures Load(Weights(assign), assign, f) <= 2
  {
    var w := Weights(assign);
    if j: nat :| j < |assign| && assign[j] == f && Alone(assign, j) {
      LoadSingle(w, assign, j);
    } else {
      forall j: nat | j < |sizes| && assign[j] == f
        ensures sizes[j] >= s * w[j]
      {
        assert w[j] == 1;
      }
      LoadScales(sizes, w, assign, f, s);
      if Load(w, assign, f) >= 3 {
        Times(s, 3, Load(w, assign, f));
      }
    }
  }

  /** An item alone in its greedy file could not share a file of height b with the last item, or any item. */
  lemma AloneStaysAlone(sizes: seq<nat>, assign: seq<nat>, other: seq<nat>, files: nat, b: nat, j: nat)
    requires IsPacking(sizes, other, files) && Within(sizes, other, files, b) && |assign| == |sizes| > 0
    requires forall k: nat | k < |sizes| :: sizes[k] >= sizes[|sizes| - 1]
    requires var n := |sizes| - 1;
             && j < n && Alone(assign[..n], j) && assign[j] < files && GreedyAt(sizes, assign, files, n)
             && Load(sizes[..n], assign[..n], assign[n]) + sizes[n] > b
    ensures Alone(other, j)
  {
    var n := |sizes| - 1;
    LoadSingle(sizes[..n], assign[..n], j);
    forall k: nat | k < |other| && k != j
      ensures other[k] != other[j]
    {
      if other[k] == other[j] {
        LoadAtLeast(sizes, other, j, k);
      }
    }
  }

  /** Before the last item every greedy file is in use, if the last item ends above b. */
  lemma NoFileEmpty(sizes: seq<nat>, assign: seq<nat>, files: nat, b: nat, f: nat)
    requires |sizes| == |assign| > 0 && f < files && sizes[|sizes| - 1] <= b
    requires GreedyAt(sizes, assign, files, |sizes| - 1)
    requires var n := |sizes| - 1; Load(sizes[..n], assign[..n], assign[n]) + sizes[n] > b
    ensures exists j: nat :: j < |sizes| - 1 && assign[j] == f
  {
    var n := |sizes| - 1;
    if forall j: nat | j < n :: assign[j] != f {
      LoadNone(sizes[..n], assign[..n], f);
    }
  }

  lemma GreedyWeighsTwoEach(sizes: seq<nat>, assign: seq<nat>, files: nat, b: nat)
    requires IsPacking(sizes, assign, files) && sizes != [] && sizes[|sizes| - 1] <= b
    requires GreedyAt(sizes, assign, files, |sizes| - 1)
    requires var n := |sizes| - 1; Load(sizes[..n], assign[..n], assign[n]) + sizes[n] > b
    ensures 2 * files <= Total(Weights(assign[..|sizes| - 1]))
  {
    var before := assign[..|sizes| - 1];
    forall f: nat | f < files
      ensures Load(Weights(before), before, f) >= 2
    {
      NoFileEmpty(sizes, assign, files, b, f);
      var j: nat :| j < |before| && assign[j] == f;
      assert before[j] == f;
      NonEmptyWeighsTwo(before, j);
    }
    LoadSumLower(Weights(before), before, files, 2);
  }

  lemma OtherWeighsTwoEach(sizes: seq<nat>, other: seq<nat>, files: nat, s: nat, b: nat)
    requires IsPacking(sizes, other, files) && Within(sizes, other, files, b)
    requires (forall j: nat | j < |sizes| :: sizes[j] >= s) && 3 * s > b
    ensures Total(Weights(other)) <= 2 * files
  {
    forall f: nat | f < files
      ensures Load(Weights(other), other, f) <= 2
    {
      CrowdedWeighsTwo(sizes, other, f, s, b);
    }
    LoadSumUpper(Weights(other), other, files, 2);
  }

  /**
   If even the last, smallest item is more than a third of b, and some packing stays within b,
   then the greedy choice for that item stays within b too.
   */
  lemma LastFits(sizes: seq<nat>, assign: seq<nat>, other: seq<nat>, files: nat, b: nat)
    requires IsPacking(sizes, assign, files) && sizes != [] && GreedyAt(sizes, assign, files, |sizes| - 1)
    requires IsPacking(sizes, other, files) && Within(sizes, other, files, b)
    requires (forall k: nat | k < |sizes| :: sizes[k] >= sizes[|sizes| - 1]) && 3 * sizes[|sizes| - 1] > b
    ensures Load(sizes, assign, assign[|sizes| - 1]) <= b
  {
    var n := |sizes| - 1;
    if Load(sizes[..n], assign[..n], assign[n]) + sizes[n] > b {
      PackingBounds(sizes, other, files, b);
      GreedyWeighsTwoEach(sizes, assign, files, b);
      OtherWeighsTwoEach(sizes, other, files, sizes[n], b);
      forall j: nat | j < n
        ensures Weights(assign[..n])[j] <= Weights(other)[..n][j]
      {
        if Alone(assign[..n], j) {
          AloneStaysAlone(sizes, assign, other, files, b, j);
        }
      }
      TotalMonotone(Weights(assign[..n]), Weights(other)[..n]);
    }
  }

  lemma LoadPrefix(sizes: seq<nat>, assign: seq<nat>, files: nat, b: nat)
    requires IsPacking(sizes, assign, files) && Within(sizes, assign, files, b) && sizes != []
    ensures var n := |sizes| - 1;
            IsPacking(sizes[..n], assign[..n], files) && Within(sizes[..n], assign[..n], files, b)
  {
    var n := |sizes| - 1;
    forall f: nat | f < files
      ensures Load(sizes[..n], assign[..n], f) <= b
    {
      assert Load(sizes, assign, f) <= b;
    }
  }

  lemma ThirdsBound(files: nat, load: nat, total: nat, s: nat, b: nat)
    requires files >= 1 && files * load <= total + (files - 1) * s && total <= files * b && 3 * s <= b
    ensures 3 * files * load <= (4 * files - 1) * b
  {
    Times(files - 1, 3 * s, b);
    assert 3 * ((files - 1) * s) == (files - 1) * (3 * s);
    assert 3 * (files * b) + (files - 1) * b == (4 * files - 1) * b;
    assert 3 * files * load == 3 * (files * load);
  }

  lemma FitsBound(files: nat, load: nat, b: nat)
    requires files >= 1 && load <= b
    ensures 3 * files * load <= (4 * files - 1) * b
  {
    Times(3 * files, load, b);
    assert (4 * files - 1) * b == 3 * files * b + (files - 1) * b;
  }

  lemma LastFileBound(sizes: seq<nat>, assign: seq<nat>, other: seq<nat>, files: nat, b: nat)
    requires IsPacking(sizes, assign, files) && sizes != [] && GreedyAt(sizes, assign, files, |sizes| - 1)
    requires IsPacking(sizes, other, files) && Within(sizes, other, files, b)
    requires forall k: nat | k < |sizes| :: sizes[k] >= sizes[|sizes| - 1]
    ensures 3 * files * Load(sizes, assign, assign[|sizes| - 1]) <= (4 * files - 1) * b
  {
    var n := |sizes| - 1;
    if 3 * sizes[n] > b {
      LastFits(sizes, assign, other, files, b);
      FitsBound(files, Load(sizes, assign, assign[n]), b);
    } else {
      StepBound(sizes, assign, files);
      PackingBounds(sizes, other, files, b);
      ThirdsBound(files, Load(sizes, assign, assign[n]), Total(sizes), sizes[n], b);
    }
  }

  /** Largest first: every file is at most 4/3 - 1/(3*files) times the largest file of any packing. */
  lemma {:induction false} LargestFirstBound(sizes: seq<nat>, assign: seq<nat>, other: seq<nat>, files: nat, b: nat, f: nat)
    requires Descending(sizes) && Greedy(sizes, assign, files) && f < files
    requires IsPacking(sizes, other, files) && Within(sizes, other, files, b)
    ensures 3 * files * Load(sizes, assign, f) <= (4 * files - 1) * b
    decreases |sizes|
  {
    if sizes == [] {
      FitsBound(files, 0, b);
    } else {
      var n := |sizes| - 1;
      assert GreedyAt(sizes, assign, files, n);
      if assign[n] != f {
        GreedyPrefix(sizes, assign, files, n);
        LoadPrefix(sizes, other, files, b);
        LargestFirstBound(sizes[..n], assign[..n], other[..n], files, b, f);
      } else {
        GreedyIsPacking(sizes, assign, files);
        LastFileBound(sizes, assign, other, files, b);
      }
    }
  }

  lemma GreedyIsPacking(sizes: seq<nat>, assign: seq<nat>, files: nat)
    requires Greedy(sizes, assign, files)
    ensures IsPacking(sizes, assign, files)
  {
    assert forall j: nat | j < |sizes| :: GreedyAt(sizes, assign, files, j) ==> assign[j] < files;
  }

  // ---------- the loop ----------

  /** `array_search(min($file_sizes), $file_sizes)`: the first smallest file. */
  method FirstSmallest(loads: array<nat>) returns (k: nat)
    requires loads.Length > 0
    ensures k < loads.Length
    ensures forall f: nat | f < loads.Length :: loads[k] <= loads[f]
    ensures forall f: nat | f < k :: loads[k] < loads[f]
  {
    k := 0;
    for i := 1 to loads.Length
      invariant k < i
      invariant forall f: nat | f < i :: loads[k] <= loads[f]
      invariant forall f: nat | f < k :: loads[k] < loads[f]
    {
      if loads[i] < loads[k] {
        k := i;
      }
    }
  }

  lemma LoadExtends(sizes: seq<nat>, assign: seq<nat>, k: nat, f: nat)
    requires |assign| < |sizes|
    ensures Load(sizes[..|assign| + 1], assign + [k], f) ==
            Load(sizes[..|assign|], assign, f) + if f == k then sizes[|assign|] else 0
  {
    var n := |assign|;
    assert sizes[..n + 1][..n] == sizes[..n] && (assign + [k])[..n] == assign;
  }

  lemma GreedyAtExtends(sizes: seq<nat>, assign: seq<nat>, files: nat, k: nat, j: nat)
    requires j < |assign| < |sizes| && GreedyAt(sizes[..|assign|], assign, files, j)
    ensures GreedyAt(sizes[..|assign| + 1], assign + [k], files, j)
  {
    var n := |assign|;
    assert sizes[..n + 1][..j] == sizes[..n][..j] && (assign + [k])[..j] == assign[..j];
  }

  lemma GreedyExtends(sizes: seq<nat>, assign: seq<nat>, files: nat, k: nat)
    requires |assign| < |sizes| && k < files && Greedy(sizes[..|assign|], assign, files)
    requires forall f: nat | f < files ::
               Load(sizes[..|assign|], assign, k) <= Load(sizes[..|assign|], assign, f)
    ensures Greedy(sizes[..|assign| + 1], assign + [k], files)
  {
    var n := |assign|;
    var a, z := assign + [k], sizes[..n + 1];
    forall j: nat | j < n + 1
      ensures GreedyAt(z, a, files, j)
    {
      if j < n {
        GreedyAtExtends(sizes, assign, files, k, j);
      } else {
        assert z[..n] == sizes[..n] && a[..n] == assign;
      }
    }
  }

  /** The loop over the sorted sets; `loads` is $file_sizes. */
  method Pack(sizes: seq<nat>, files: nat) returns (assign: seq<nat>, loads: array<nat>)
    requires files > 0
    ensures Greedy(sizes, assign, files) && IsPacking(sizes, assign, files)
    ensures loads.Length == files && forall f: nat | f < files :: loads[f] == Load(sizes, assign, f)
  {
    loads := new nat[files](_ => 0);
    assign := [];
    for i := 0 to |sizes|
      invariant |assign| == i && Greedy(sizes[..i], assign, files) && loads.Length == files
      invariant forall f: nat | f < files :: loads[f] == Load(sizes[..i], assign, f)
    {
      var k := FirstSmallest(loads);
      forall f: nat | f < files
        ensures Load(sizes[..i], assign, k) <= Load(sizes[..i], assign, f)
      {
        assert loads[k] <= loads[f];
      }
      GreedyExtends(sizes, assign, files, k);
      forall f: nat | f < files
        ensures Load(sizes[..i + 1], assign + [k], f) == loads[f] + if f == k then sizes[i] else 0
      {
        LoadExtends(sizes, assign, k, f);
      }
      loads[k] := loads[k] + sizes[i];
      assign := assign + [k];
    }
    assert sizes[..|sizes|] == sizes;
    GreedyIsPacking(sizes, assign, files);
  }
}

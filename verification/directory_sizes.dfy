/** `SumTargetDirectorySizes` of day 7 and what it computes: the total size
    of the directories whose size is at most a cap, each counted once. The
    recursion follows the source; the partner definitions are flat sums over
    the arena, which say the same thing without any recursion on the tree. */
module DirectorySizes {
  import opened Wrappers
  import opened DirectoryTree

  // ---------------------------------------------------------------------------
  // The operation

  /** `SumTargetDirectorySizes.call(tree:, size_cap:)` on node `i`: its own
      size when that is within the cap, plus the same sum for every child. */
  function SumWithinCap(t: Arena, i: nat, cap: int): (total: nat)
    requires WellFormed(t) && i < |t|
    ensures t[i].size <= cap ==> total >= t[i].size
    decreases |t| - i, 1
  {
    assert t[i].children == ChildList(t, i, |t|);
    var below := SumChildren(t, i, t[i].children, cap);
    if t[i].size <= cap then t[i].size + below else below
  }

  /** `directories.map { … }.sum` for the children `cs` of `i`. */
  function SumChildren(t: Arena, i: nat, cs: seq<nat>, cap: int): (total: nat)
    requires WellFormed(t) && i < |t|
    requires forall k | 0 <= k < |cs| :: i < cs[k] < |t|
    decreases |t| - i, 0, |cs|
  {
    if cs == [] then 0
    else SumChildren(t, i, cs[..|cs| - 1], cap) + SumWithinCap(t, cs[|cs| - 1], cap)
  }

  // ---------------------------------------------------------------------------
  // Flat reference sums

  /** What each node contributes to the capped total. */
  function Weights(t: Arena, cap: int): (w: seq<nat>)
    ensures |w| == |t|
    ensures forall j | 0 <= j < |t| :: w[j] == (if t[j].size <= cap then t[j].size else 0)
  {
    seq(|t|, j requires 0 <= j < |t| => if t[j].size <= cap then t[j].size else 0)
  }

  /** The bytes each node holds directly, in its own files. */
  function FileWeights(t: Arena): (w: seq<nat>)
    ensures |w| == |t|
    ensures forall j | 0 <= j < |t| :: w[j] == FilesSize(t[j].files)
  {
    seq(|t|, j requires 0 <= j < |t| => FilesSize(t[j].files))
  }

  /** The sum of `w` over the nodes below index `n` that lie in `i`'s
      subtree. */
  ghost function SubtreeSum(t: Arena, w: seq<nat>, i: nat, n: nat): nat
    requires n <= |t| && |w| == |t|
  {
    if n == 0 then 0
    else SubtreeSum(t, w, i, n - 1) + (if AncestorOrSelf(t, i, n - 1) then w[n - 1] else 0)
  }

  ghost function ListSubtree(t: Arena, w: seq<nat>, cs: seq<nat>, n: nat): nat
    requires n <= |t| && |w| == |t|
  {
    if cs == [] then 0
    else ListSubtree(t, w, cs[..|cs| - 1], n) + SubtreeSum(t, w, cs[|cs| - 1], n)
  }

  /** The total over the first `n` nodes of every size within the cap. */
  function CappedTotal(t: Arena, cap: int, n: nat): nat
    requires n <= |t|
  {
    if n == 0 then 0
    else CappedTotal(t, cap, n - 1) + (if t[n - 1].size <= cap then t[n - 1].size else 0)
  }

  /** The sum of every cached size over the first `n` nodes. */
  function TotalSize(t: Arena, n: nat): nat
    requires n <= |t|
  {
    if n == 0 then 0 else TotalSize(t, n - 1) + t[n - 1].size
  }

  /** The sum of every file size recorded in the first `n` nodes. */
  function TotalFiles(t: Arena, n: nat): nat
    requires n <= |t|
  {
    if n == 0 then 0 else TotalFiles(t, n - 1) + FilesSize(t[n - 1].files)
  }

  // ---------------------------------------------------------------------------
  // A subtree is its root plus its children's subtrees

  lemma {:induction false} ListSubtreeEmpty(t: Arena, w: seq<nat>, cs: seq<nat>)
    requires |w| == |t|
    ensures ListSubtree(t, w, cs, 0) == 0
  {
    if cs != [] {
      ListSubtreeEmpty(t, w, cs[..|cs| - 1]);
    }
  }

  /** Taking one more node into account adds its weight once for every
      entry of `cs` on its parent chain. */
  lemma {:induction false} ListSubtreeStep(t: Arena, w: seq<nat>, cs: seq<nat>, n: nat)
    requires n < |t| && |w| == |t|
    ensures ListSubtree(t, w, cs, n + 1) == ListSubtree(t, w, cs, n) + w[n] * CountOnPath(t, cs, n)
  {
    if cs != [] {
      var front, c := cs[..|cs| - 1], cs[|cs| - 1];
      ListSubtreeStep(t, w, front, n);
      var m := CountOnPath(t, front, n);
      if AncestorOrSelf(t, c, n) {
        assert CountOnPath(t, cs, n) == m + 1;
        MulSucc(w[n], m);
      } else {
        assert CountOnPath(t, cs, n) == m;
      }
    }
  }

  /** Every node of `i`'s subtree is `i` itself or lies in exactly one
      child's subtree. */
  lemma {:induction false} Decompose(t: Arena, w: seq<nat>, i: nat, n: nat)
    requires ParentsBelow(t) && i < |t| && n <= |t| && |w| == |t|
    ensures SubtreeSum(t, w, i, n)
         == (if i < n then w[i] else 0) + ListSubtree(t, w, ChildList(t, i, |t|), n)
  {
    var cs := ChildList(t, i, |t|);
    if n == 0 {
      ListSubtreeEmpty(t, w, cs);
    } else {
      var m := n - 1;
      Decompose(t, w, i, m);
      ListSubtreeStep(t, w, cs, m);
      ChildrenOnPath(t, i, m);
      var below := if AncestorOrSelf(t, i, m) && i != m then w[m] else 0;
      assert w[m] * CountOnPath(t, cs, m) == below;
      assert ListSubtree(t, w, cs, n) == ListSubtree(t, w, cs, m) + below;
      if i == m {
        assert AncestorOrSelf(t, i, m);
      }
      assert SubtreeSum(t, w, i, n) == SubtreeSum(t, w, i, m) + (if AncestorOrSelf(t, i, m) then w[m] else 0);
    }
  }

  // ---------------------------------------------------------------------------
  // What the recursion computes

  /** `SumWithinCap` adds up the weight of every node in `i`'s subtree. */
  lemma {:induction false} SumWithinCapIsSubtreeSum(t: Arena, i: nat, cap: int)
    requires WellFormed(t) && i < |t|
    ensures SumWithinCap(t, i, cap) == SubtreeSum(t, Weights(t, cap), i, |t|)
    decreases |t| - i, 1
  {
    var cs := ChildList(t, i, |t|);
    assert t[i].children == cs;
    ChildrenSumIsListSubtree(t, i, cs, cap);
    Decompose(t, Weights(t, cap), i, |t|);
  }

  lemma {:induction false} ChildrenSumIsListSubtree(t: Arena, i: nat, cs: seq<nat>, cap: int)
    requires WellFormed(t) && i < |t|
    requires forall k | 0 <= k < |cs| :: i < cs[k] < |t|
    ensures SumChildren(t, i, cs, cap) == ListSubtree(t, Weights(t, cap), cs, |t|)
    decreases |t| - i, 0, |cs|
  {
    if cs != [] {
      ChildrenSumIsListSubtree(t, i, cs[..|cs| - 1], cap);
      SumWithinCapIsSubtreeSum(t, cs[|cs| - 1], cap);
    }
  }

  /** The root's subtree is the whole arena. */
  lemma {:induction false} RootSubtreeIsAll(t: Arena, w: seq<nat>, n: nat)
    requires ParentsBelow(t) && n <= |t| && |w| == |t|
    ensures SubtreeSum(t, w, Root, n) == SumBelow(w, n)
  {
    if n > 0 {
      RootSubtreeIsAll(t, w, n - 1);
      RootIsAncestor(t, n - 1);
    }
  }

  function SumBelow(w: seq<nat>, n: nat): nat
    requires n <= |w|
  {
    if n == 0 then 0 else SumBelow(w, n - 1) + w[n - 1]
  }

  /** From the root, the recursion counts every directory within the cap
      exactly once and no other. */
  lemma SumWithinCapCountsEachOnce(t: Arena, cap: int)
    requires WellFormed(t)
    ensures SumWithinCap(t, Root, cap) == CappedTotal(t, cap, |t|)
  {
    var w := Weights(t, cap);
    SumWithinCapIsSubtreeSum(t, Root, cap);
    RootSubtreeIsAll(t, w, |t|);
    CappedTotalIsSumBelow(t, cap, |t|);
  }

  lemma {:induction false} CappedTotalIsSumBelow(t: Arena, cap: int, n: nat)
    requires n <= |t|
    ensures CappedTotal(t, cap, n) == SumBelow(Weights(t, cap), n)
  {
    if n > 0 {
      CappedTotalIsSumBelow(t, cap, n - 1);
    }
  }

  /** Raising the cap never lowers the total. */
  lemma {:induction false} CappedTotalMonotone(t: Arena, lo: int, hi: int, n: nat)
    requires lo <= hi && n <= |t|
    ensures CappedTotal(t, lo, n) <= CappedTotal(t, hi, n)
  {
    if n > 0 {
      CappedTotalMonotone(t, lo, hi, n - 1);
    }
  }

  lemma SumWithinCapMonotone(t: Arena, lo: int, hi: int)
    requires WellFormed(t) && lo <= hi
    ensures SumWithinCap(t, Root, lo) <= SumWithinCap(t, Root, hi)
  {
    SumWithinCapCountsEachOnce(t, lo);
    SumWithinCapCountsEachOnce(t, hi);
    CappedTotalMonotone(t, lo, hi, |t|);
  }

  /** Below every size the total is zero; at or above the root's size (the
      largest one) every directory counts. */
  lemma {:induction false} CappedTotalExtremes(t: Arena, cap: int, n: nat)
    requires WellFormed(t) && SizesCached(t) && n <= |t|
    ensures cap < 0 ==> CappedTotal(t, cap, n) == 0
    ensures cap >= t[Root].size ==> CappedTotal(t, cap, n) == TotalSize(t, n)
  {
    if n > 0 {
      CappedTotalExtremes(t, cap, n - 1);
      RootSizeDominates(t, n - 1);
    }
  }

  lemma SumWithinCapExtremes(t: Arena, cap: int)
    requires WellFormed(t) && SizesCached(t)
    ensures cap < 0 ==> SumWithinCap(t, Root, cap) == 0
    ensures cap >= t[Root].size ==> SumWithinCap(t, Root, cap) == TotalSize(t, |t|)
  {
    SumWithinCapCountsEachOnce(t, cap);
    CappedTotalExtremes(t, cap, |t|);
  }

  // ---------------------------------------------------------------------------
  // What a cached size is

  /** A cached size is the total of the files anywhere in that subtree. */
  lemma {:induction false} CachedSizeIsSubtreeFiles(t: Arena, i: nat)
    requires WellFormed(t) && SizesCached(t) && i < |t|
    ensures t[i].size == SubtreeSum(t, FileWeights(t), i, |t|)
    decreases |t| - i, 1
  {
    var cs := ChildList(t, i, |t|);
    assert t[i].children == cs;
    ChildSizesAreListSubtree(t, i, cs);
    Decompose(t, FileWeights(t), i, |t|);
  }

  lemma {:induction false} ChildSizesAreListSubtree(t: Arena, i: nat, cs: seq<nat>)
    requires WellFormed(t) && SizesCached(t) && i < |t|
    requires forall k | 0 <= k < |cs| :: i < cs[k] < |t|
    ensures SumSizes(t, cs) == ListSubtree(t, FileWeights(t), cs, |t|)
    decreases |t| - i, 0, |cs|
  {
    if cs != [] {
      ChildSizesAreListSubtree(t, i, cs[..|cs| - 1]);
      CachedSizeIsSubtreeFiles(t, cs[|cs| - 1]);
    }
  }

  /** The root's size is the total of every file in the tree. */
  lemma RootSizeIsAllFiles(t: Arena)
    requires WellFormed(t) && SizesCached(t)
    ensures t[Root].size == TotalFiles(t, |t|)
  {
    CachedSizeIsSubtreeFiles(t, Root);
    RootSubtreeIsAll(t, FileWeights(t), |t|);
    TotalFilesIsSumBelow(t, |t|);
  }

  lemma {:induction false} TotalFilesIsSumBelow(t: Arena, n: nat)
    requires n <= |t|
    ensures TotalFiles(t, n) == SumBelow(FileWeights(t), n)
  {
    if n > 0 {
      TotalFilesIsSumBelow(t, n - 1);
    }
  }
}

/** The directory tree of day 7 (`Tree` and `FileEntry`), held as an index
    arena: node 0 is the root "/", every other node records the index of its
    parent, and a parent always has a smaller index than its children, since
    a directory is created after the directory that lists it. Each node caches
    its total size, which `AddFile` keeps up to date by walking the parent
    chain, exactly as `propogate_file_size_change` does. */
module DirectoryTree {
  import opened Wrappers

  datatype FileEntry = FileEntry(name: string, size: nat)

  datatype Node = Node(
    name: string,
    files: seq<FileEntry>,
    children: seq<nat>,
    parent: Option<nat>,
    size: nat)

  type Arena = seq<Node>

  const Root: nat := 0

  /** `Tree.new(name: "/")`. */
  function NewTree(): (t: Arena)
    ensures |t| == 1 && t[Root].name == "/" && t[Root].size == 0
  {
    [Node("/", [], [], None, 0)]
  }

  // ---------------------------------------------------------------------------
  // Shape of the arena

  /** Only the root lacks a parent, and parents precede their children. */
  ghost predicate ParentsBelow(t: Arena) {
    forall i | 0 <= i < |t| ::
      (t[i].parent.None? <==> i == Root) && (t[i].parent.Some? ==> t[i].parent.value < i)
  }

  /** The nodes below index `n` whose parent is `i`, in index order, which
      is the order `add_directory` appended them in. */
  function ChildList(t: Arena, i: nat, n: nat): (cs: seq<nat>)
    requires n <= |t|
    ensures forall k | 0 <= k < |cs| :: cs[k] < n && t[cs[k]].parent == Some(i)
  {
    if n == 0 then []
    else ChildList(t, i, n - 1) + (if t[n - 1].parent == Some(i) then [n - 1] else [])
  }

  lemma {:induction false} ChildListComplete(t: Arena, i: nat, n: nat, j: nat)
    requires n <= |t| && j < n && t[j].parent == Some(i)
    ensures j in ChildList(t, i, n)
  {
    if j < n - 1 {
      ChildListComplete(t, i, n - 1, j);
    }
  }

  lemma {:induction false} ChildListIncreasing(t: Arena, i: nat, n: nat)
    requires n <= |t|
    ensures forall k, l | 0 <= k < l < |ChildList(t, i, n)| :: ChildList(t, i, n)[k] < ChildList(t, i, n)[l]
  {
    if n > 0 {
      ChildListIncreasing(t, i, n - 1);
    }
  }

  /** A node has no children among the nodes created before it. */
  lemma {:induction false} NoChildrenBelow(t: Arena, i: nat, n: nat)
    requires ParentsBelow(t) && n <= |t| && n <= i + 1
    ensures ChildList(t, i, n) == []
  {
    if n > 0 {
      NoChildrenBelow(t, i, n - 1);
    }
  }

  /** The stored child lists are exactly the parent links read downwards. */
  ghost predicate WellFormed(t: Arena) {
    && |t| > 0
    && t[Root].name == "/"
    && ParentsBelow(t)
    && (forall i | 0 <= i < |t| :: InArena(t, t[i].children))
    && forall i {:trigger ChildList(t, i, |t|)} | 0 <= i < |t| :: t[i].children == ChildList(t, i, |t|)
  }

  predicate InArena(t: Arena, cs: seq<nat>) {
    forall k | 0 <= k < |cs| :: cs[k] < |t|
  }

  function FilesSize(fs: seq<FileEntry>): nat {
    if fs == [] then 0 else FilesSize(fs[..|fs| - 1]) + fs[|fs| - 1].size
  }

  function SumSizes(t: Arena, cs: seq<nat>): nat
    requires InArena(t, cs)
  {
    if cs == [] then 0 else SumSizes(t, cs[..|cs| - 1]) + t[cs[|cs| - 1]].size
  }

  /** The cached size of every node is its own files plus its children's
      cached sizes. */
  ghost predicate SizesCached(t: Arena)
    requires WellFormed(t)
  {
    forall i | 0 <= i < |t| :: t[i].size == FilesSize(t[i].files) + SumSizes(t, t[i].children)
  }

  /** `a` is `k` or lies on `k`'s parent chain. */
  ghost predicate AncestorOrSelf(t: Arena, a: nat, k: nat)
    decreases k
  {
    k < |t| && (a == k || (t[k].parent.Some? && t[k].parent.value < k && AncestorOrSelf(t, a, t[k].parent.value)))
  }

  // ---------------------------------------------------------------------------
  // Facts about parent chains

  lemma {:induction false} AncestorIsBelow(t: Arena, a: nat, k: nat)
    requires AncestorOrSelf(t, a, k)
    ensures a <= k
    decreases k
  {
    if a != k {
      AncestorIsBelow(t, a, t[k].parent.value);
    }
  }

  lemma {:induction false} AncestorTransitive(t: Arena, a: nat, b: nat, k: nat)
    requires AncestorOrSelf(t, a, b) && AncestorOrSelf(t, b, k)
    ensures AncestorOrSelf(t, a, k)
    decreases k
  {
    if b != k {
      AncestorTransitive(t, a, b, t[k].parent.value);
    }
  }

  /** Two ancestors of the same node lie on one chain. */
  lemma {:induction false} AncestorsOrdered(t: Arena, a: nat, b: nat, k: nat)
    requires AncestorOrSelf(t, a, k) && AncestorOrSelf(t, b, k)
    ensures AncestorOrSelf(t, a, b) || AncestorOrSelf(t, b, a)
    decreases k
  {
    if a != k && b != k {
      AncestorsOrdered(t, a, b, t[k].parent.value);
    }
  }

  /** The root lies on every parent chain. */
  lemma {:induction false} RootIsAncestor(t: Arena, k: nat)
    requires ParentsBelow(t) && k < |t|
    ensures AncestorOrSelf(t, Root, k)
    decreases k
  {
    if k != Root {
      RootIsAncestor(t, t[k].parent.value);
    }
  }

  /** Ancestry reads parent links only. */
  lemma {:induction false} AncestorFrame(t: Arena, u: Arena, a: nat, k: nat)
    requires |t| == |u|
    requires forall j | 0 <= j < |t| :: t[j].parent == u[j].parent
    ensures AncestorOrSelf(t, a, k) == AncestorOrSelf(u, a, k)
    decreases k
  {
    if k < |t| && a != k && t[k].parent.Some? && t[k].parent.value < k {
      AncestorFrame(t, u, a, t[k].parent.value);
    }
  }

  /** At most one child of a node lies on a given parent chain. */
  lemma PathChildUnique(t: Arena, i: nat, c1: nat, c2: nat, k: nat)
    requires ParentsBelow(t) && c1 < |t| && c2 < |t|
    requires t[c1].parent == Some(i) && t[c2].parent == Some(i)
    requires AncestorOrSelf(t, c1, k) && AncestorOrSelf(t, c2, k)
    ensures c1 == c2
  {
    if c1 != c2 {
      AncestorsOrdered(t, c1, c2, k);
      if AncestorOrSelf(t, c1, c2) {
        AncestorIsBelow(t, c1, i);
      } else {
        AncestorIsBelow(t, c2, i);
      }
    }
  }

  ghost predicate HasPathChild(t: Arena, i: nat, n: nat, k: nat)
    requires n <= |t|
  {
    exists c | 0 <= c < n :: t[c].parent == Some(i) && AncestorOrSelf(t, c, k)
  }

  /** Some child of `i` is on `k`'s chain exactly when `i` is a proper
      ancestor of `k`. */
  lemma {:induction false} PathChildExists(t: Arena, i: nat, k: nat)
    requires ParentsBelow(t) && k < |t|
    ensures HasPathChild(t, i, k + 1, k) <==> (AncestorOrSelf(t, i, k) && i != k)
    decreases k
  {
    if AncestorOrSelf(t, i, k) && i != k {
      var p := t[k].parent.value;
      if p == i {
        assert t[k].parent == Some(i) && AncestorOrSelf(t, k, k);
      } else {
        PathChildExists(t, i, p);
        var c :| 0 <= c < p + 1 && t[c].parent == Some(i) && AncestorOrSelf(t, c, p);
        assert AncestorOrSelf(t, c, k);
      }
    }
    if c :| 0 <= c < k + 1 && t[c].parent == Some(i) && AncestorOrSelf(t, c, k) {
      assert AncestorOrSelf(t, i, c);
      AncestorTransitive(t, i, c, k);
      AncestorIsBelow(t, c, k);
    }
  }

  /** How many entries of `cs` lie on `k`'s parent chain. */
  ghost function CountOnPath(t: Arena, cs: seq<nat>, k: nat): nat {
    if cs == [] then 0
    else CountOnPath(t, cs[..|cs| - 1], k) + (if AncestorOrSelf(t, cs[|cs| - 1], k) then 1 else 0)
  }

  lemma {:induction false} ChildListOnPath(t: Arena, i: nat, n: nat, k: nat)
    requires ParentsBelow(t) && n <= |t|
    ensures CountOnPath(t, ChildList(t, i, n), k) == if HasPathChild(t, i, n, k) then 1 else 0
  {
    if n > 0 {
      ChildListOnPath(t, i, n - 1, k);
      var cs := ChildList(t, i, n - 1);
      if t[n - 1].parent == Some(i) {
        assert ChildList(t, i, n) == cs + [n - 1];
        assert (cs + [n - 1])[..|cs|] == cs;
        if AncestorOrSelf(t, n - 1, k) {
          forall c | 0 <= c < n - 1 && t[c].parent == Some(i)
            ensures !AncestorOrSelf(t, c, k)
          {
            if AncestorOrSelf(t, c, k) {
              PathChildUnique(t, i, c, n - 1, k);
            }
          }
          assert !HasPathChild(t, i, n - 1, k);
          assert t[n - 1].parent == Some(i) && AncestorOrSelf(t, n - 1, k);
          assert HasPathChild(t, i, n, k);
        } else {
          assert CountOnPath(t, ChildList(t, i, n), k) == CountOnPath(t, cs, k);
          assert HasPathChild(t, i, n, k) == HasPathChild(t, i, n - 1, k);
        }
      } else {
        assert ChildList(t, i, n) == cs;
        assert HasPathChild(t, i, n, k) == HasPathChild(t, i, n - 1, k);
      }
    }
  }

  /** Exactly one child of a proper ancestor of `k` is on `k`'s chain, and
      no child of any other node is. */
  lemma ChildrenOnPath(t: Arena, i: nat, k: nat)
    requires ParentsBelow(t) && k < |t|
    ensures CountOnPath(t, ChildList(t, i, |t|), k) == if AncestorOrSelf(t, i, k) && i != k then 1 else 0
  {
    ChildListOnPath(t, i, |t|, k);
    PathChildExists(t, i, k);
    if c :| 0 <= c < |t| && t[c].parent == Some(i) && AncestorOrSelf(t, c, k) {
      AncestorIsBelow(t, c, k);
      assert HasPathChild(t, i, k + 1, k);
    }
  }

  // ---------------------------------------------------------------------------
  // Sums and frames

  lemma ChildListFrame(t: Arena, u: Arena, i: nat, n: nat)
    requires n <= |t| && n <= |u|
    requires forall j | 0 <= j < n :: t[j].parent == u[j].parent
    ensures ChildList(t, i, n) == ChildList(u, i, n)
  {
  }

  lemma {:induction false} SumSizesFrame(t: Arena, u: Arena, cs: seq<nat>)
    requires InArena(t, cs) && InArena(u, cs)
    requires forall k | 0 <= k < |cs| :: t[cs[k]].size == u[cs[k]].size
    ensures SumSizes(t, cs) == SumSizes(u, cs)
  {
    if cs != [] {
      SumSizesFrame(t, u, cs[..|cs| - 1]);
    }
  }

  /** Raising every node on `k`'s chain by `s` raises a sum over `cs` by `s`
      per entry of `cs` on that chain. */
  lemma {:induction false} SumSizesShift(t: Arena, u: Arena, cs: seq<nat>, k: nat, s: nat)
    requires |t| == |u| && InArena(t, cs)
    requires forall j | 0 <= j < |t| :: u[j].size == t[j].size + (if AncestorOrSelf(t, j, k) then s else 0)
    ensures SumSizes(u, cs) == SumSizes(t, cs) + s * CountOnPath(t, cs, k)
  {
    if cs != [] {
      var front, c := cs[..|cs| - 1], cs[|cs| - 1];
      SumSizesShift(t, u, front, k, s);
      var n := CountOnPath(t, front, k);
      assert SumSizes(u, cs) == SumSizes(u, front) + u[c].size;
      assert SumSizes(t, cs) == SumSizes(t, front) + t[c].size;
      if AncestorOrSelf(t, c, k) {
        assert CountOnPath(t, cs, k) == n + 1;
        MulSucc(s, n);
        assert u[c].size == t[c].size + s;
      } else {
        assert CountOnPath(t, cs, k) == n;
        assert u[c].size == t[c].size;
      }
    }
  }

  lemma MulSucc(s: nat, n: nat)
    ensures s * (n + 1) == s * n + s
  {
  }

  /** A child's cached size never exceeds its parent's. */
  lemma {:induction false} SumSizesCovers(t: Arena, cs: seq<nat>, k: nat)
    requires InArena(t, cs) && 0 <= k < |cs|
    ensures t[cs[k]].size <= SumSizes(t, cs)
  {
    if k < |cs| - 1 {
      SumSizesCovers(t, cs[..|cs| - 1], k);
    }
  }

  // ---------------------------------------------------------------------------
  // Operations

  /** `add_directory`: a fresh, empty child of `cur`, appended after its
      existing children, even when a sibling already has that name. */
  function AddDirectory(t: Arena, cur: nat, name: string): (r: Arena)
    requires WellFormed(t) && cur < |t|
    ensures |r| == |t| + 1
    ensures r[|t|] == Node(name, [], [], Some(cur), 0)
    ensures r[cur].children == t[cur].children + [|t|]
    ensures forall i | 0 <= i < |t| :: r[i] == t[i].(children := r[i].children)
    ensures forall i | 0 <= i < |t| && i != cur :: r[i].children == t[i].children
    ensures WellFormed(r)
    ensures SizesCached(t) ==> SizesCached(r)
  {
    var r := t[cur := t[cur].(children := t[cur].children + [|t|])] + [Node(name, [], [], Some(cur), 0)];
    DirectoryAddedKeepsInvariant(t, r, cur);
    r
  }

  /** Appending a fresh empty node under `cur`, and its index to `cur`'s
      children, keeps the arena well formed and the cached sizes right. */
  lemma DirectoryAddedKeepsInvariant(t: Arena, r: Arena, cur: nat)
    requires WellFormed(t) && cur < |t| && |r| == |t| + 1
    requires r[|t|].files == [] && r[|t|].children == [] && r[|t|].size == 0
    requires r[|t|].parent == Some(cur)
    requires r[cur].children == t[cur].children + [|t|]
    requires forall i | 0 <= i < |t| :: r[i] == t[i].(children := r[i].children)
    requires forall i | 0 <= i < |t| && i != cur :: r[i].children == t[i].children
    ensures WellFormed(r)
    ensures SizesCached(t) ==> SizesCached(r)
  {
    DirectoryAddedWellFormed(t, r, cur);
    if SizesCached(t) {
      forall i | 0 <= i < |r|
        ensures r[i].size == FilesSize(r[i].files) + SumSizes(r, r[i].children)
      {
        if i < |t| {
          assert InArena(t, t[i].children);
          assert t[i].size == FilesSize(t[i].files) + SumSizes(t, t[i].children);
          assert r[i].files == t[i].files;
          assert r[i].children == t[i].children || r[i].children == t[i].children + [|t|];
          DirectoryAddedSizeAt(t, r, i);
        } else {
          assert i == |t|;
          assert FilesSize(r[i].files) == 0;
          assert SumSizes(r, r[i].children) == 0;
        }
      }
    }
  }

  lemma DirectoryAddedSizeAt(t: Arena, r: Arena, i: nat)
    requires |r| == |t| + 1 && i < |t| && InArena(t, t[i].children)
    requires t[i].size == FilesSize(t[i].files) + SumSizes(t, t[i].children)
    requires r[i].files == t[i].files
    requires forall j | 0 <= j < |t| :: r[j].size == t[j].size
    requires r[|t|].size == 0
    requires r[i].children == t[i].children || r[i].children == t[i].children + [|t|]
    ensures r[i].size == FilesSize(r[i].files) + SumSizes(r, r[i].children)
  {
    SumSizesFrame(t, r, t[i].children);
    if r[i].children != t[i].children {
      assert r[i].children[..|t[i].children|] == t[i].children;
    }
  }

  lemma DirectoryAddedWellFormed(t: Arena, r: Arena, cur: nat)
    requires WellFormed(t) && cur < |t| && |r| == |t| + 1
    requires r[|t|].parent == Some(cur) && r[|t|].children == []
    requires r[cur].children == t[cur].children + [|t|]
    requires forall i | 0 <= i < |t| :: r[i].name == t[i].name && r[i].parent == t[i].parent
    requires forall i | 0 <= i < |t| && i != cur :: r[i].children == t[i].children
    ensures WellFormed(r)
  {
    var n := |t|;
    assert ParentsBelow(r);
    forall i | 0 <= i < |r|
      ensures r[i].children == ChildList(r, i, |r|)
    {
      ChildListFrame(t, r, i, n);
      assert ChildList(r, i, n + 1) == ChildList(r, i, n) + (if i == cur then [n] else []);
      if i < n {
        assert t[i].children == ChildList(t, i, n);
        if i == cur {
          assert r[i].children == ChildList(r, i, n) + [n];
        } else {
          assert r[i].children == ChildList(r, i, n);
        }
      } else {
        NoChildrenBelow(r, i, n);
      }
    }
  }

  /** Adds `s` to the cached size of `k` and of every node above it: the
      recursion of `propogate_file_size_change` up the parent links. */
  function Propagate(t: Arena, k: nat, s: nat): (r: Arena)
    requires ParentsBelow(t) && k < |t|
    ensures |r| == |t|
    ensures forall j | 0 <= j < |t| ::
      r[j] == t[j].(size := t[j].size + (if AncestorOrSelf(t, j, k) then s else 0))
    decreases k
  {
    var u := t[k := t[k].(size := t[k].size + s)];
    match t[k].parent
    case None =>
      assert forall j | 0 <= j < |t| && j != k :: !AncestorOrSelf(t, j, k);
      u
    case Some(p) =>
      var r := Propagate(u, p, s);
      assert forall j | 0 <= j < |t| ::
        r[j] == t[j].(size := t[j].size + (if AncestorOrSelf(t, j, k) then s else 0))
      by {
        forall j | 0 <= j < |t|
          ensures r[j] == t[j].(size := t[j].size + (if AncestorOrSelf(t, j, k) then s else 0))
        {
          AncestorFrame(t, u, j, p);
          if j == k && AncestorOrSelf(t, j, p) {
            AncestorIsBelow(t, j, p);
          }
        }
      }
      r
  }

  /** `add_file`: records the entry in `cur` and adds its size to `cur` and
      to every ancestor, leaving every other node's size as it was. */
  function AddFile(t: Arena, cur: nat, name: string, size: nat): (r: Arena)
    requires WellFormed(t) && cur < |t|
    ensures |r| == |t|
    ensures r[cur].files == t[cur].files + [FileEntry(name, size)]
    ensures forall i | 0 <= i < |t| && i != cur :: r[i].files == t[i].files
    ensures forall i | 0 <= i < |t| ::
      r[i].size == t[i].size + (if AncestorOrSelf(t, i, cur) then size else 0)
    ensures forall i | 0 <= i < |t| ::
      r[i].name == t[i].name && r[i].children == t[i].children && r[i].parent == t[i].parent
    ensures r[Root].size == t[Root].size + size
    ensures WellFormed(r)
    ensures SizesCached(t) ==> SizesCached(r)
  {
    var u := t[cur := t[cur].(files := t[cur].files + [FileEntry(name, size)])];
    var r := Propagate(u, cur, size);
    assert forall i | 0 <= i < |t| :: AncestorOrSelf(u, i, cur) == AncestorOrSelf(t, i, cur) by {
      forall i | 0 <= i < |t|
        ensures AncestorOrSelf(u, i, cur) == AncestorOrSelf(t, i, cur)
      {
        AncestorFrame(t, u, i, cur);
      }
    }
    RootIsAncestor(t, cur);
    FileAddedKeepsInvariant(t, r, cur, FileEntry(name, size));
    r
  }

  /** Adding a file to `cur` and raising exactly the sizes on `cur`'s chain
      by the file's size keeps the arena well formed and every cached size
      equal to own files plus children. */
  lemma FileAddedKeepsInvariant(t: Arena, r: Arena, cur: nat, f: FileEntry)
    requires WellFormed(t) && cur < |t| && |r| == |t|
    requires r[cur].files == t[cur].files + [f]
    requires forall i | 0 <= i < |t| && i != cur :: r[i].files == t[i].files
    requires forall i | 0 <= i < |t| ::
      r[i].size == t[i].size + (if AncestorOrSelf(t, i, cur) then f.size else 0)
    requires forall i | 0 <= i < |t| ::
      r[i].name == t[i].name && r[i].children == t[i].children && r[i].parent == t[i].parent
    ensures WellFormed(r)
    ensures SizesCached(t) ==> SizesCached(r)
  {
    SameLinksWellFormed(t, r);
    if SizesCached(t) {
      forall i | 0 <= i < |r|
        ensures r[i].size == FilesSize(r[i].files) + SumSizes(r, r[i].children)
      {
        FileAddedSizeAt(t, r, cur, f, i);
      }
    }
  }

  /** Changing only files and sizes leaves an arena well formed. */
  lemma SameLinksWellFormed(t: Arena, r: Arena)
    requires WellFormed(t) && |r| == |t|
    requires forall i | 0 <= i < |t| ::
      r[i].name == t[i].name && r[i].children == t[i].children && r[i].parent == t[i].parent
    ensures WellFormed(r)
  {
    forall i | 0 <= i < |r|
      ensures r[i].children == ChildList(r, i, |r|)
    {
      assert t[i].children == ChildList(t, i, |t|);
      ChildListFrame(t, r, i, |t|);
    }
  }

  /** One node's share of `FileAddedKeepsInvariant`. */
  lemma FileAddedSizeAt(t: Arena, r: Arena, cur: nat, f: FileEntry, i: nat)
    requires WellFormed(t) && cur < |t| && |r| == |t| && i < |t|
    requires t[i].size == FilesSize(t[i].files) + SumSizes(t, t[i].children)
    requires r[cur].files == t[cur].files + [f]
    requires i != cur ==> r[i].files == t[i].files
    requires forall j | 0 <= j < |t| ::
      r[j].size == t[j].size + (if AncestorOrSelf(t, j, cur) then f.size else 0)
    requires r[i].children == t[i].children
    ensures InArena(r, r[i].children)
    ensures r[i].size == FilesSize(r[i].files) + SumSizes(r, r[i].children)
  {
    assert t[i].children == ChildList(t, i, |t|);
    SumSizesShift(t, r, t[i].children, cur, f.size);
    ChildrenOnPath(t, i, cur);
    if i == cur {
      assert r[i].files[..|t[i].files|] == t[i].files;
      assert AncestorOrSelf(t, cur, cur);
    }
  }

  /** Position in `cs` of the first node called `name`. */
  function FirstNamed(t: Arena, cs: seq<nat>, name: string): (r: Option<nat>)
    requires InArena(t, cs)
    ensures r.Some? ==> r.value < |cs| && t[cs[r.value]].name == name
    ensures r.Some? ==> forall l | 0 <= l < r.value :: t[cs[l]].name != name
    ensures r.None? ==> forall l | 0 <= l < |cs| :: t[cs[l]].name != name
  {
    if cs == [] then None
    else if t[cs[0]].name == name then Some(0)
    else match FirstNamed(t, cs[1..], name)
      case None => None
      case Some(k) => Some(k + 1)
  }

  /** `tree[name]`: the first child of `i` called `name`, or nil. */
  function Lookup(t: Arena, i: nat, name: string): (r: Option<nat>)
    requires WellFormed(t) && i < |t|
    ensures r.Some? ==> r.value < |t| && t[r.value].parent == Some(i) && t[r.value].name == name
    ensures r.Some? ==> forall c | 0 <= c < r.value && t[c].parent == Some(i) :: t[c].name != name
    ensures r.None? <==> forall c | 0 <= c < |t| && t[c].parent == Some(i) :: t[c].name != name
  {
    var cs := t[i].children;
    match FirstNamed(t, cs, name)
    case None =>
      ListedNamesCoverChildren(t, i, |cs|, name);
      None
    case Some(k) =>
      assert cs == ChildList(t, i, |t|);
      ListedNamesCoverChildren(t, i, k, name);
      Some(cs[k])
  }

  /** When no child among the first `k` listed is called `name`, no child
      created before the `k`-th listed one is. */
  lemma ListedNamesCoverChildren(t: Arena, i: nat, k: nat, name: string)
    requires WellFormed(t) && i < |t| && k <= |t[i].children|
    requires forall l | 0 <= l < k :: t[t[i].children[l]].name != name
    ensures forall c | 0 <= c < |t| && (k == |t[i].children| || c < t[i].children[k]) && t[c].parent == Some(i) ::
      t[c].name != name
  {
    var cs := t[i].children;
    assert cs == ChildList(t, i, |t|);
    forall c | 0 <= c < |t| && (k == |cs| || c < cs[k]) && t[c].parent == Some(i)
      ensures t[c].name != name
    {
      ChildListComplete(t, i, |t|, c);
      var l :| 0 <= l < |cs| && cs[l] == c;
      ChildListIncreasing(t, i, |t|);
      assert l < k;
    }
  }

  // ---------------------------------------------------------------------------
  // Properties relating several calls

  /** After `add_directory`, looking the name up finds the earlier sibling of
      that name when there is one, and the new directory otherwise. */
  lemma AddDirectoryThenLookup(t: Arena, cur: nat, name: string)
    requires WellFormed(t) && cur < |t|
    ensures Lookup(AddDirectory(t, cur, name), cur, name)
         == if Lookup(t, cur, name).Some? then Lookup(t, cur, name) else Some(|t|)
  {
    var r := AddDirectory(t, cur, name);
    var cs := t[cur].children;
    assert r[cur].children == cs + [|t|];
    FirstNamedAppend(t, r, cs, |t|, name);
  }

  lemma {:induction false} FirstNamedAppend(t: Arena, r: Arena, cs: seq<nat>, x: nat, name: string)
    requires InArena(t, cs) && InArena(r, cs) && x < |r|
    requires forall k | 0 <= k < |cs| :: r[cs[k]].name == t[cs[k]].name
    ensures FirstNamed(r, cs + [x], name)
         == match FirstNamed(t, cs, name)
            case Some(k) => Some(k)
            case None => if r[x].name == name then Some(|cs|) else None
  {
    if cs != [] {
      assert (cs + [x])[1..] == cs[1..] + [x];
      FirstNamedAppend(t, r, cs[1..], x, name);
    }
  }

  /** Two `add_directory` calls with one name give two distinct siblings,
      and the name resolves to the first of them. */
  lemma DuplicateDirectoriesStaySeparate(t: Arena, cur: nat, name: string)
    requires WellFormed(t) && cur < |t|
    requires Lookup(t, cur, name).None?
    ensures var r := AddDirectory(AddDirectory(t, cur, name), cur, name);
      && r[cur].children == t[cur].children + [|t|, |t| + 1]
      && r[|t|].name == name && r[|t| + 1].name == name
      && Lookup(r, cur, name) == Some(|t|)
  {
    var r1 := AddDirectory(t, cur, name);
    var r2 := AddDirectory(r1, cur, name);
    AddDirectoryThenLookup(t, cur, name);
    AddDirectoryThenLookup(r1, cur, name);
    assert r1[cur].children == t[cur].children + [|t|];
    assert r2[cur].children == r1[cur].children + [|r1|];
    assert t[cur].children + [|t|] + [|t| + 1] == t[cur].children + [|t|, |t| + 1];
    assert r2[|t|].name == r1[|t|].name == name;
    assert Lookup(r1, cur, name) == Some(|t|);
    assert Lookup(r2, cur, name) == Some(|t|);
  }

  /** Every node's cached size is at most the root's. */
  lemma {:induction false} RootSizeDominates(t: Arena, k: nat)
    requires WellFormed(t) && SizesCached(t) && k < |t|
    ensures t[k].size <= t[Root].size
    decreases k
  {
    if k != Root {
      var p := t[k].parent.value;
      var cs := t[p].children;
      ChildListComplete(t, p, |t|, k);
      var idx :| 0 <= idx < |cs| && cs[idx] == k;
      SumSizesCovers(t, cs, idx);
      RootSizeDominates(t, p);
    }
  }
}

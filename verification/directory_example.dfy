/** The worked example of day 7: a 23-line transcript that lists "/" with
    directories "a" and "d", "a" with directory "e", and ten files. The
    replay is followed one directory snapshot at a time. */
module DirectoryExample {
  import opened Wrappers
  import opened Text
  import opened DirectoryTree
  import DirectorySizes
  import opened TerminalHistory

  /** Where each directory of the example hangs: "/" (0) has no parent,
      "a" (1) and "d" (2) hang from "/", "e" (3) from "a". */
  function ParentOf(i: nat): Option<nat> {
    if i == 0 then None else if i <= 2 then Some(0) else Some(1)
  }

  function NameOf(i: nat): string {
    if i == 0 then "/" else if i == 1 then "a" else if i == 2 then "d" else "e"
  }

  /** The children of directory `i` once the first `n` directories exist. */
  function ChildrenOf(n: nat, i: nat): seq<nat> {
    if i == 0 then (if n >= 3 then [1, 2] else if n >= 2 then [1] else [])
    else if i == 1 && n >= 4 then [3]
    else []
  }

  /** Directory `a` is `k` or lies above it. */
  predicate Above(a: nat, k: nat) {
    a == k || a == 0 || (a == 1 && k == 3)
  }

  /** The example's arena once its first `n` directories exist, directory
      `i` holding the files `fs[i]` and the cached size `ss[i]`. */
  function Snapshot(n: nat, fs: seq<seq<FileEntry>>, ss: seq<nat>): (t: Arena)
    requires 1 <= n <= 4 && |fs| == 4 && |ss| == 4
    ensures |t| == n
    ensures forall i | 0 <= i < n :: t[i] == Node(NameOf(i), fs[i], ChildrenOf(n, i), ParentOf(i), ss[i])
  {
    seq(n, i requires 0 <= i < n => Node(NameOf(i), fs[i], ChildrenOf(n, i), ParentOf(i), ss[i]))
  }

  /** The snapshots' shape, stated on the parent and child links only. */
  predicate ExampleShape(t: Arena) {
    && 1 <= |t| <= 4
    && forall i | 0 <= i < |t| :: t[i].parent == ParentOf(i) && t[i].children == ChildrenOf(|t|, i)
  }

  lemma SnapshotWellFormed(n: nat, fs: seq<seq<FileEntry>>, ss: seq<nat>)
    requires 1 <= n <= 4 && |fs| == 4 && |ss| == 4
    ensures WellFormed(Snapshot(n, fs, ss))
  {
    var t := Snapshot(n, fs, ss);
    assert ExampleShape(t) && t[Root].name == "/";
    ShapeWellFormed(t);
  }

  lemma ShapeWellFormed(t: Arena)
    requires ExampleShape(t) && t[Root].name == "/"
    ensures WellFormed(t)
  {
    ShapeLinks(t);
    forall i | 0 <= i < |t|
      ensures t[i].children == ChildList(t, i, |t|)
    {
      ShapeChildren(t, i);
    }
  }

  lemma ShapeLinks(t: Arena)
    requires ExampleShape(t)
    ensures ParentsBelow(t)
    ensures forall i | 0 <= i < |t| :: InArena(t, t[i].children)
  {
  }

  lemma ShapeChildren(t: Arena, i: nat)
    requires ExampleShape(t) && i < |t|
    ensures t[i].children == ChildList(t, i, |t|)
  {
    var n := |t|;
    assert t[0].parent == None;
    if n == 1 {
      ChildListOfOne(t, i);
    } else {
      assert t[1].parent == Some(0);
      if n == 2 {
        ChildListOfTwo(t, i);
      } else {
        assert t[2].parent == Some(0);
        if n == 3 {
          ChildListOfThree(t, i);
        } else {
          assert t[3].parent == Some(1);
          ChildListOfFour(t, i);
        }
      }
    }
  }

  // The child lists of the snapshots, read off their parent links.

  lemma ChildListOfOne(t: Arena, i: nat)
    requires 1 <= |t| && t[0].parent == None
    ensures ChildList(t, i, 1) == ChildrenOf(1, i)
  {
    assert ChildList(t, i, 0) == [];
  }

  lemma ChildListOfTwo(t: Arena, i: nat)
    requires 2 <= |t| && t[0].parent == None && t[1].parent == Some(0)
    ensures ChildList(t, i, 2) == ChildrenOf(2, i)
  {
    ChildListOfOne(t, i);
  }

  lemma ChildListOfThree(t: Arena, i: nat)
    requires 3 <= |t| && t[0].parent == None && t[1].parent == Some(0) && t[2].parent == Some(0)
    ensures ChildList(t, i, 3) == ChildrenOf(3, i)
  {
    ChildListOfTwo(t, i);
  }

  lemma ChildListOfFour(t: Arena, i: nat)
    requires 4 <= |t| && t[0].parent == None && t[1].parent == Some(0) && t[2].parent == Some(0)
    requires t[3].parent == Some(1)
    ensures ChildList(t, i, 4) == ChildrenOf(4, i)
  {
    ChildListOfThree(t, i);
  }

  /** In a snapshot, the parent chain of `k` passes through exactly the
      directories `Above` it. */
  lemma SnapshotAncestors(t: Arena, a: nat, k: nat)
    requires ExampleShape(t) && a < |t| && k < |t|
    ensures AncestorOrSelf(t, a, k) <==> Above(a, k)
  {
    assert t[0].parent == None;
    if k >= 1 {
      assert t[k].parent == ParentOf(k);
      if k == 3 {
        assert t[1].parent == Some(0);
        assert AncestorOrSelf(t, a, 1) <==> a == 1 || a == 0;
      }
    }
  }

  // ---------------------------------------------------------------------------
  // The two operations on snapshots

  /** The sizes `ss` with `s` added to every directory above `cur`. */
  function Raise(ss: seq<nat>, cur: nat, s: nat): (r: seq<nat>)
    requires |ss| == 4
    ensures |r| == 4 && forall i | 0 <= i < 4 :: r[i] == ss[i] + (if Above(i, cur) then s else 0)
  {
    seq(4, i requires 0 <= i < 4 => ss[i] + (if Above(i, cur) then s else 0))
  }

  /** `add_file` on a snapshot records the file in directory `cur` and
      raises the sizes above it. */
  lemma AddFileToSnapshot(n: nat, fs: seq<seq<FileEntry>>, ss: seq<nat>, cur: nat, f: FileEntry)
    requires 1 <= n <= 4 && |fs| == 4 && |ss| == 4 && cur < n
    ensures WellFormed(Snapshot(n, fs, ss))
    ensures AddFile(Snapshot(n, fs, ss), cur, f.name, f.size)
         == Snapshot(n, fs[cur := fs[cur] + [f]], Raise(ss, cur, f.size))
  {
    SnapshotWellFormed(n, fs, ss);
    var r := AddFile(Snapshot(n, fs, ss), cur, f.name, f.size);
    var u := Snapshot(n, fs[cur := fs[cur] + [f]], Raise(ss, cur, f.size));
    forall i | 0 <= i < n
      ensures r[i] == u[i]
    {
      AddFileNodeAt(n, fs, ss, cur, f, i);
    }
  }

  lemma AddFileNodeAt(n: nat, fs: seq<seq<FileEntry>>, ss: seq<nat>, cur: nat, f: FileEntry, i: nat)
    requires 1 <= n <= 4 && |fs| == 4 && |ss| == 4 && cur < n && i < n
    requires WellFormed(Snapshot(n, fs, ss))
    ensures AddFile(Snapshot(n, fs, ss), cur, f.name, f.size)[i]
         == Snapshot(n, fs[cur := fs[cur] + [f]], Raise(ss, cur, f.size))[i]
  {
    var t := Snapshot(n, fs, ss);
    assert ExampleShape(t);
    SnapshotAncestors(t, i, cur);
  }

  /** `add_directory` of the next directory under its parent gives the next
      snapshot, the new directory empty. */
  lemma AddDirectoryToSnapshot(n: nat, fs: seq<seq<FileEntry>>, ss: seq<nat>)
    requires 1 <= n < 4 && |fs| == 4 && |ss| == 4 && fs[n] == [] && ss[n] == 0
    ensures WellFormed(Snapshot(n, fs, ss)) && ParentOf(n).value < n
    ensures AddDirectory(Snapshot(n, fs, ss), ParentOf(n).value, NameOf(n)) == Snapshot(n + 1, fs, ss)
  {
    SnapshotWellFormed(n, fs, ss);
    var t := Snapshot(n, fs, ss);
    var r := AddDirectory(t, ParentOf(n).value, NameOf(n));
    var u := Snapshot(n + 1, fs, ss);
    forall i | 0 <= i <= n
      ensures r[i] == u[i]
    {
      if i < n {
        assert r[i] == t[i].(children := r[i].children);
      }
    }
  }

  /** Every directory of a snapshot is found under its parent by its name. */
  lemma LookupInSnapshot(n: nat, fs: seq<seq<FileEntry>>, ss: seq<nat>, c: nat)
    requires 1 <= c < n <= 4 && |fs| == 4 && |ss| == 4
    requires WellFormed(Snapshot(n, fs, ss))
    ensures Lookup(Snapshot(n, fs, ss), ParentOf(c).value, NameOf(c)) == Some(c)
  {
    var t := Snapshot(n, fs, ss);
    var r := Lookup(t, ParentOf(c).value, NameOf(c));
    assert t[c].parent == ParentOf(c) && t[c].name == NameOf(c);
  }

  // ---------------------------------------------------------------------------
  // The replay, one kind of line at a time

  /** The session while a snapshot is being listed with the cursor on `cur`. */
  predicate Listing(s: Session, n: nat, fs: seq<seq<FileEntry>>, ss: seq<nat>, cur: nat)
    requires 1 <= n <= 4 && |fs| == 4 && |ss| == 4
  {
    s == Session(Snapshot(n, fs, ss), Some(cur), true)
  }

  lemma ListedFile(s: Session, n: nat, fs: seq<seq<FileEntry>>, ss: seq<nat>, cur: nat, size: nat, name: string, no: nat)
    requires 1 <= n <= 4 && |fs| == 4 && |ss| == 4 && cur < n
    requires Valid(s) && Listing(s, n, fs, ss, cur)
    requires |name| > 0 && !IsStripped(name[0]) && !IsStripped(name[|name| - 1])
    ensures Step(s, ShowNat(size) + " " + name + "\n", no)
         == Success(Session(Snapshot(n, fs[cur := fs[cur] + [FileEntry(name, size)]], Raise(ss, cur, size)), Some(cur), true))
  {
    FileLineStep(s, size, name, no);
    AddFileToSnapshot(n, fs, ss, cur, FileEntry(name, size));
  }

  lemma ListedDirectory(s: Session, n: nat, fs: seq<seq<FileEntry>>, ss: seq<nat>, no: nat)
    requires 1 <= n < 4 && |fs| == 4 && |ss| == 4 && fs[n] == [] && ss[n] == 0
    requires Valid(s) && Listing(s, n, fs, ss, ParentOf(n).value)
    ensures Step(s, "dir " + NameOf(n) + "\n", no)
         == Success(Session(Snapshot(n + 1, fs, ss), ParentOf(n), true))
  {
    DirLineStep(s, NameOf(n), no);
    AddDirectoryToSnapshot(n, fs, ss);
  }

  /** The line that lists directory `i`. */
  function DirLine(i: nat): string {
    "dir " + NameOf(i) + "\n"
  }

  /** `$ cd` into directory `c`, then `$ ls` there. */
  function Enter(c: nat): (ls: seq<string>)
    ensures |ls| == 2
  {
    ["$ cd " + NameOf(c) + "\n", "$ ls\n"]
  }

  /** A replay that gets past its first line goes on from the session
      that line leaves. */
  lemma RunFirst(s: Session, lines: seq<string>, no: nat, s': Session)
    requires Valid(s) && lines != [] && Step(s, lines[0], no) == Success(s')
    ensures Valid(s')
    ensures Run(s, lines, no) == Run(s', lines[1..], no + 1)
  {
  }

  lemma RunOne(s: Session, line: string, no: nat, s': Session)
    requires Valid(s) && Step(s, line, no) == Success(s')
    ensures Run(s, [line], no) == Success(s')
  {
    RunFirst(s, [line], no, s');
  }

  lemma ReplayEnter(s: Session, n: nat, fs: seq<seq<FileEntry>>, ss: seq<nat>, c: nat, no: nat)
    requires 1 <= c < n <= 4 && |fs| == 4 && |ss| == 4
    requires Valid(s) && s.tree == Snapshot(n, fs, ss) && s.cwd == ParentOf(c)
    ensures Run(s, Enter(c), no) == Success(Session(Snapshot(n, fs, ss), Some(c), true))
  {
    SnapshotWellFormed(n, fs, ss);
    CdIntoStep(s, NameOf(c), no);
    LookupInSnapshot(n, fs, ss, c);
    var s1 := Session(Snapshot(n, fs, ss), Some(c), false);
    RunFirst(s, Enter(c), no, s1);
    LsStep(s1, no + 1);
    RunOne(s1, "$ ls\n", no + 1, s1.(listing := true));
    assert Enter(c)[1..] == ["$ ls\n"];
  }

  lemma ReplayDirectory(s: Session, n: nat, fs: seq<seq<FileEntry>>, ss: seq<nat>, no: nat)
    requires 1 <= n < 4 && |fs| == 4 && |ss| == 4 && fs[n] == [] && ss[n] == 0
    requires Valid(s) && Listing(s, n, fs, ss, ParentOf(n).value)
    ensures Run(s, [DirLine(n)], no) == Success(Session(Snapshot(n + 1, fs, ss), ParentOf(n), true))
  {
    ListedDirectory(s, n, fs, ss, no);
    RunOne(s, DirLine(n), no, Session(Snapshot(n + 1, fs, ss), ParentOf(n), true));
  }

  /** How a listing shows a file: its size in decimal, a space, its name. */
  function FileLines(es: seq<FileEntry>): (ls: seq<string>)
    ensures |ls| == |es|
    ensures forall k | 0 <= k < |es| :: ls[k] == ShowNat(es[k].size) + " " + es[k].name + "\n"
  {
    seq(|es|, k requires 0 <= k < |es| => ShowNat(es[k].size) + " " + es[k].name + "\n")
  }

  /** Names that fit on one line and that `strip` leaves as they are. */
  predicate PlainNames(es: seq<FileEntry>) {
    forall k | 0 <= k < |es| ::
      && |es[k].name| > 0 && '\n' !in es[k].name
      && !IsStripped(es[k].name[0]) && !IsStripped(es[k].name[|es[k].name| - 1])
  }

  lemma PlainNamesTail(es: seq<FileEntry>)
    requires es != [] && PlainNames(es)
    ensures PlainNames(es[1..])
  {
    assert forall k | 0 <= k < |es| - 1 :: es[1..][k] == es[k + 1];
  }

  /** Each line of a listing of plain names ends at its own "\n". */
  lemma FileLinesTerminated(es: seq<FileEntry>)
    requires PlainNames(es)
    ensures Terminated(FileLines(es))
  {
    var ls := FileLines(es);
    forall k | 0 <= k < |ls|
      ensures |ls[k]| > 0 && ls[k][|ls[k]| - 1] == '\n' && '\n' !in ls[k][..|ls[k]| - 1]
    {
      var d := ShowNat(es[k].size);
      var body := d + " " + es[k].name;
      assert ls[k] == body + "\n" && ls[k][..|ls[k]| - 1] == body;
      forall j | 0 <= j < |body| ensures body[j] != '\n' {
        if j < |d| { assert IsDigit(d[j]); }
        else if j > |d| { assert body[j] == es[k].name[j - |d| - 1]; }
      }
    }
  }

  lemma FilesSizeCons(e: FileEntry, es: seq<FileEntry>)
    ensures FilesSize([e] + es) == e.size + FilesSize(es)
    decreases |es|
  {
    if es != [] {
      var front := es[..|es| - 1];
      assert ([e] + es)[..|es|] == [e] + front;
      FilesSizeCons(e, front);
    }
  }

  lemma RaiseTwice(ss: seq<nat>, cur: nat, a: nat, b: nat)
    requires |ss| == 4
    ensures Raise(Raise(ss, cur, a), cur, b) == Raise(ss, cur, a + b)
  {
  }

  /** Appending the first file and then the rest is appending all of them. */
  lemma AppendInTurn(fs: seq<seq<FileEntry>>, ss: seq<nat>, cur: nat, e: FileEntry, es: seq<FileEntry>)
    requires |fs| == 4 && |ss| == 4 && cur < 4
    ensures fs[cur := fs[cur] + [e]][cur := fs[cur] + [e] + es] == fs[cur := fs[cur] + ([e] + es)]
    ensures Raise(Raise(ss, cur, e.size), cur, FilesSize(es)) == Raise(ss, cur, FilesSize([e] + es))
  {
    assert fs[cur] + [e] + es == fs[cur] + ([e] + es);
    FilesSizeCons(e, es);
    RaiseTwice(ss, cur, e.size, FilesSize(es));
  }

  /** The lines of a file and then more files. */
  lemma FileLinesCons(e: FileEntry, more: seq<FileEntry>)
    ensures FileLines([e] + more) == [ShowNat(e.size) + " " + e.name + "\n"] + FileLines(more)
  {
  }

  /** The first line of a listing records its file and leaves the rest. */
  lemma ListedFirst(s: Session, n: nat, fs: seq<seq<FileEntry>>, ss: seq<nat>, cur: nat, e: FileEntry,
                    line: string, rest: seq<string>, no: nat)
    requires 1 <= n <= 4 && |fs| == 4 && |ss| == 4 && cur < n
    requires Valid(s) && Listing(s, n, fs, ss, cur)
    requires |e.name| > 0 && !IsStripped(e.name[0]) && !IsStripped(e.name[|e.name| - 1])
    requires line == ShowNat(e.size) + " " + e.name + "\n"
    ensures var s1 := Session(Snapshot(n, fs[cur := fs[cur] + [e]], Raise(ss, cur, e.size)), Some(cur), true);
      Valid(s1) && Run(s, [line] + rest, no) == Run(s1, rest, no + 1)
  {
    var s1 := Session(Snapshot(n, fs[cur := fs[cur] + [e]], Raise(ss, cur, e.size)), Some(cur), true);
    ListedFile(s, n, fs, ss, cur, e.size, e.name, no);
    var lines := [line] + rest;
    assert lines[0] == line && lines[1..] == rest;
    RunFirst(s, lines, no, s1);
  }

  /** A listing of files under the cursor records them all, in order, and
      raises every directory above the cursor by their total size. */
  lemma {:induction false} ListedFiles(s: Session, n: nat, fs: seq<seq<FileEntry>>, ss: seq<nat>, cur: nat,
                                       es: seq<FileEntry>, no: nat)
    requires 1 <= n <= 4 && |fs| == 4 && |ss| == 4 && cur < n
    requires Valid(s) && Listing(s, n, fs, ss, cur) && PlainNames(es)
    ensures Run(s, FileLines(es), no)
         == Success(Session(Snapshot(n, fs[cur := fs[cur] + es], Raise(ss, cur, FilesSize(es))), Some(cur), true))
    decreases |es|
  {
    if es == [] {
      assert fs[cur] + es == fs[cur];
      assert fs[cur := fs[cur] + es] == fs;
      assert Raise(ss, cur, 0) == ss;
    } else {
      var e, more := es[0], es[1..];
      assert es == [e] + more;
      var fs1 := fs[cur := fs[cur] + [e]];
      var ss1 := Raise(ss, cur, e.size);
      var s1 := Session(Snapshot(n, fs1, ss1), Some(cur), true);
      var line := ShowNat(e.size) + " " + e.name + "\n";
      FileLinesCons(e, more);
      ListedFirst(s, n, fs, ss, cur, e, line, FileLines(more), no);
      PlainNamesTail(es);
      var next := no + 1;
      ListedFiles(s1, n, fs1, ss1, cur, more, next);
      AppendInTurn(fs, ss, cur, e, more);
    }
  }

  /** `$ cd /`, `$ ls` and the line listing "a", from wherever the cursor is. */
  lemma ReplayOpening(s: Session, fs: seq<seq<FileEntry>>, ss: seq<nat>, no: nat)
    requires |fs| == 4 && |ss| == 4 && fs[1] == [] && ss[1] == 0
    requires Valid(s) && s.tree == Snapshot(1, fs, ss)
    ensures Run(s, ["$ cd /\n", "$ ls\n", DirLine(1)], no)
         == Success(Session(Snapshot(2, fs, ss), Some(0), true))
  {
    var head := ["$ cd /\n", "$ ls\n", DirLine(1)];
    CdRootStep(s, no);
    var s1 := s.(cwd := Some(Root), listing := false);
    RunFirst(s, head, no, s1);
    LsStep(s1, no + 1);
    var s2 := s1.(listing := true);
    RunFirst(s1, head[1..], no + 1, s2);
    assert head[1..][1..] == [DirLine(1)];
    ReplayDirectory(s2, 1, fs, ss, no + 2);
  }

  /** `$ cd ..` twice. */
  lemma ReplayUpTwice(s: Session, n: nat, fs: seq<seq<FileEntry>>, ss: seq<nat>, c: nat, no: nat)
    requires 1 <= n <= 4 && |fs| == 4 && |ss| == 4 && c < n && ParentOf(c).Some?
    requires Valid(s) && s.tree == Snapshot(n, fs, ss) && s.cwd == Some(c)
    ensures Run(s, ["$ cd ..\n", "$ cd ..\n"], no)
         == Success(Session(Snapshot(n, fs, ss), ParentOf(ParentOf(c).value), false))
  {
    CdUpStep(s, no);
    var s1 := s.(cwd := ParentOf(c), listing := false);
    RunFirst(s, ["$ cd ..\n", "$ cd ..\n"], no, s1);
    CdUpStep(s1, no + 1);
    RunOne(s1, "$ cd ..\n", no + 1, s1.(cwd := ParentOf(ParentOf(c).value)));
    assert ["$ cd ..\n", "$ cd ..\n"][1..] == ["$ cd ..\n"];
  }

  // ---------------------------------------------------------------------------
  // The transcript of the worked example

  /** A replay of `a + b` that gets through `a` goes on through `b`. */
  lemma RunThen(s: Session, a: seq<string>, b: seq<string>, no: nat, mid: nat, s1: Session, s2: Session)
    requires mid == no + |a|
    requires Valid(s) && Run(s, a, no) == Success(s1) && Run(s1, b, mid) == Success(s2)
    ensures Run(s, a + b, no) == Success(s2)
  {
    RunAppend(s, a, b, no);
  }

  /** "a" is entered, its directory "e" listed, then its files `a`. */
  lemma ReplayA(s: Session, fs: seq<seq<FileEntry>>, ss: seq<nat>, a: seq<FileEntry>, no: nat)
    requires |fs| == 4 && |ss| == 4 && fs[3] == [] && ss[3] == 0
    requires Valid(s) && s.tree == Snapshot(3, fs, ss) && s.cwd == Some(0) && PlainNames(a)
    ensures Run(s, APart(a), no)
         == Success(Session(Snapshot(4, fs[1 := fs[1] + a], Raise(ss, 1, FilesSize(a))), Some(1), true))
  {
    ReplayEnter(s, 3, fs, ss, 1, no);
    var s1 := Session(Snapshot(3, fs, ss), Some(1), true);
    ReplayDirectory(s1, 3, fs, ss, no + 2);
    var s2 := Session(Snapshot(4, fs, ss), Some(1), true);
    ListedFiles(s2, 4, fs, ss, 1, a, no + 3);
    var s3 := Session(Snapshot(4, fs[1 := fs[1] + a], Raise(ss, 1, FilesSize(a))), Some(1), true);
    RunThen(s1, [DirLine(3)], FileLines(a), no + 2, no + 3, s2, s3);
    RunThen(s, Enter(1), [DirLine(3)] + FileLines(a), no, no + 2, s1, s3);
  }

  /** "/" is listed: its directory "a", its files `r`, its directory "d". */
  lemma ReplayRoot(s: Session, fs: seq<seq<FileEntry>>, ss: seq<nat>, r: seq<FileEntry>, no: nat)
    requires |fs| == 4 && |ss| == 4 && fs[1] == fs[2] == [] && ss[1] == ss[2] == 0
    requires Valid(s) && s.tree == Snapshot(1, fs, ss) && PlainNames(r)
    ensures Run(s, RootPart(r), no)
         == Success(Session(Snapshot(3, fs[0 := fs[0] + r], Raise(ss, 0, FilesSize(r))), Some(0), true))
  {
    ReplayOpening(s, fs, ss, no);
    var s1 := Session(Snapshot(2, fs, ss), Some(0), true);
    ReplayRootListing(s1, fs, ss, r, no + 3);
    var s3 := Session(Snapshot(3, fs[0 := fs[0] + r], Raise(ss, 0, FilesSize(r))), Some(0), true);
    RunThen(s, ["$ cd /\n", "$ ls\n", DirLine(1)], FileLines(r) + [DirLine(2)], no, no + 3, s1, s3);
  }

  lemma ReplayRootListing(s: Session, fs: seq<seq<FileEntry>>, ss: seq<nat>, r: seq<FileEntry>, no: nat)
    requires |fs| == 4 && |ss| == 4 && fs[2] == [] && ss[2] == 0
    requires Valid(s) && Listing(s, 2, fs, ss, 0) && PlainNames(r)
    ensures Run(s, FileLines(r) + [DirLine(2)], no)
         == Success(Session(Snapshot(3, fs[0 := fs[0] + r], Raise(ss, 0, FilesSize(r))), Some(0), true))
  {
    ListedFiles(s, 2, fs, ss, 0, r, no);
    var fs2, ss2 := fs[0 := fs[0] + r], Raise(ss, 0, FilesSize(r));
    var s2 := Session(Snapshot(2, fs2, ss2), Some(0), true);
    ReplayDirectory(s2, 2, fs2, ss2, no + |r|);
    var s3 := Session(Snapshot(3, fs2, ss2), Some(0), true);
    RunThen(s, FileLines(r), [DirLine(2)], no, no + |r|, s2, s3);
  }

  /** "e" is entered and its files `e` listed. */
  lemma ReplayE(s: Session, fs: seq<seq<FileEntry>>, ss: seq<nat>, e: seq<FileEntry>, no: nat)
    requires |fs| == 4 && |ss| == 4
    requires Valid(s) && s.tree == Snapshot(4, fs, ss) && s.cwd == Some(1) && PlainNames(e)
    ensures Run(s, EPart(e), no)
         == Success(Session(Snapshot(4, fs[3 := fs[3] + e], Raise(ss, 3, FilesSize(e))), Some(3), true))
  {
    ReplayEnter(s, 4, fs, ss, 3, no);
    var s1 := Session(Snapshot(4, fs, ss), Some(3), true);
    ListedFiles(s1, 4, fs, ss, 3, e, no + 2);
    var s2 := Session(Snapshot(4, fs[3 := fs[3] + e], Raise(ss, 3, FilesSize(e))), Some(3), true);
    RunThen(s, Enter(3), FileLines(e), no, no + 2, s1, s2);
  }

  /** Back up to "/" from "e", enter "d" and list its files `d`. */
  lemma ReplayD(s: Session, fs: seq<seq<FileEntry>>, ss: seq<nat>, d: seq<FileEntry>, no: nat)
    requires |fs| == 4 && |ss| == 4
    requires Valid(s) && s.tree == Snapshot(4, fs, ss) && s.cwd == Some(3) && PlainNames(d)
    ensures Run(s, DPart(d), no)
         == Success(Session(Snapshot(4, fs[2 := fs[2] + d], Raise(ss, 2, FilesSize(d))), Some(2), true))
  {
    ReplayUpTwice(s, 4, fs, ss, 3, no);
    var s1 := Session(Snapshot(4, fs, ss), Some(0), false);
    ReplayEnter(s1, 4, fs, ss, 2, no + 2);
    var s2 := Session(Snapshot(4, fs, ss), Some(2), true);
    ListedFiles(s2, 4, fs, ss, 2, d, no + 4);
    var s3 := Session(Snapshot(4, fs[2 := fs[2] + d], Raise(ss, 2, FilesSize(d))), Some(2), true);
    RunThen(s1, Enter(2), FileLines(d), no + 2, no + 4, s2, s3);
    RunThen(s, ["$ cd ..\n", "$ cd ..\n"], Enter(2) + FileLines(d), no, no + 2, s1, s3);
  }

  // ---------------------------------------------------------------------------
  // The whole transcript, for any files

  /** Four directories, none of them holding anything yet. */
  const NoFiles: seq<seq<FileEntry>> := [[], [], [], []]
  const NoSizes: seq<nat> := [0, 0, 0, 0]

  /** The transcript of the worked example with the files of "/", "a", "e"
      and "d" left open: `$ cd /` and `$ ls`; "/" lists "a", its files and
      "d"; `$ cd a` and `$ ls`; "a" lists "e" and its files; `$ cd e` and
      `$ ls`; "e" lists its files; `$ cd ..` twice, `$ cd d` and `$ ls`; "d"
      lists its files. */
  function TranscriptOf(r: seq<FileEntry>, a: seq<FileEntry>, e: seq<FileEntry>, d: seq<FileEntry>): seq<string> {
    RootPart(r) + (APart(a) + (EPart(e) + DPart(d)))
  }

  function RootPart(r: seq<FileEntry>): (ls: seq<string>)
    ensures |ls| == 4 + |r|
  {
    ["$ cd /\n", "$ ls\n", DirLine(1)] + (FileLines(r) + [DirLine(2)])
  }

  function APart(a: seq<FileEntry>): seq<string> {
    Enter(1) + ([DirLine(3)] + FileLines(a))
  }

  function EPart(e: seq<FileEntry>): seq<string> {
    Enter(3) + FileLines(e)
  }

  function DPart(d: seq<FileEntry>): seq<string> {
    ["$ cd ..\n", "$ cd ..\n"] + (Enter(2) + FileLines(d))
  }

  lemma ReplayLast(s: Session, fs: seq<seq<FileEntry>>, ss: seq<nat>, e: seq<FileEntry>, d: seq<FileEntry>, no: nat)
    requires |fs| == 4 && |ss| == 4
    requires Valid(s) && s.tree == Snapshot(4, fs, ss) && s.cwd == Some(1) && PlainNames(e) && PlainNames(d)
    ensures var fs3, ss3 := fs[3 := fs[3] + e], Raise(ss, 3, FilesSize(e));
      Run(s, EPart(e) + DPart(d), no)
         == Success(Session(Snapshot(4, fs3[2 := fs3[2] + d], Raise(ss3, 2, FilesSize(d))), Some(2), true))
  {
    var fs3, ss3 := fs[3 := fs[3] + e], Raise(ss, 3, FilesSize(e));
    var s1 := Session(Snapshot(4, fs3, ss3), Some(3), true);
    var s2 := Session(Snapshot(4, fs3[2 := fs3[2] + d], Raise(ss3, 2, FilesSize(d))), Some(2), true);
    var mid := no + 2 + |e|;
    ReplayE(s, fs, ss, e, no);
    ReplayD(s1, fs3, ss3, d, mid);
    RunThen(s, EPart(e), DPart(d), no, mid, s1, s2);
  }

  lemma ReplayRest(s: Session, fs: seq<seq<FileEntry>>, ss: seq<nat>, a: seq<FileEntry>, e: seq<FileEntry>, d: seq<FileEntry>, no: nat)
    requires |fs| == 4 && |ss| == 4 && fs[3] == [] && ss[3] == 0
    requires Valid(s) && s.tree == Snapshot(3, fs, ss) && s.cwd == Some(0)
    requires PlainNames(a) && PlainNames(e) && PlainNames(d)
    ensures var fs2, ss2 := fs[1 := fs[1] + a], Raise(ss, 1, FilesSize(a));
      var fs3, ss3 := fs2[3 := fs2[3] + e], Raise(ss2, 3, FilesSize(e));
      Run(s, APart(a) + (EPart(e) + DPart(d)), no)
         == Success(Session(Snapshot(4, fs3[2 := fs3[2] + d], Raise(ss3, 2, FilesSize(d))), Some(2), true))
  {
    var fs2, ss2 := fs[1 := fs[1] + a], Raise(ss, 1, FilesSize(a));
    var fs3, ss3 := fs2[3 := fs2[3] + e], Raise(ss2, 3, FilesSize(e));
    var s1 := Session(Snapshot(4, fs2, ss2), Some(1), true);
    var s2 := Session(Snapshot(4, fs3[2 := fs3[2] + d], Raise(ss3, 2, FilesSize(d))), Some(2), true);
    var mid := no + 3 + |a|;
    ReplayA(s, fs, ss, a, no);
    ReplayLast(s1, fs2, ss2, e, d, mid);
    RunThen(s, APart(a), EPart(e) + DPart(d), no, mid, s1, s2);
  }

  /** The replay of the transcript from a fresh tree: each directory holds
      exactly the files listed in it, and each size is the total of the
      files below. */
  lemma ReplayTranscript(s: Session, r: seq<FileEntry>, a: seq<FileEntry>, e: seq<FileEntry>, d: seq<FileEntry>)
    requires Valid(s) && s.tree == NewTree()
    requires PlainNames(r) && PlainNames(a) && PlainNames(e) && PlainNames(d)
    ensures Run(s, TranscriptOf(r, a, e, d), 1)
         == Success(Session(Snapshot(4, [r, a, d, e], SizesOf(r, a, e, d)), Some(2), true))
  {
    var fs, ss := NoFiles, NoSizes;
    var fs1, ss1 := fs[0 := fs[0] + r], Raise(ss, 0, FilesSize(r));
    var fs2, ss2 := fs1[1 := fs1[1] + a], Raise(ss1, 1, FilesSize(a));
    var fs3, ss3 := fs2[3 := fs2[3] + e], Raise(ss2, 3, FilesSize(e));
    var s1 := Session(Snapshot(3, fs1, ss1), Some(0), true);
    var s2 := Session(Snapshot(4, fs3[2 := fs3[2] + d], Raise(ss3, 2, FilesSize(d))), Some(2), true);
    var mid := 5 + |r|;
    NewTreeIsSnapshot();
    ReplayRoot(s, fs, ss, r, 1);
    ReplayRest(s1, fs1, ss1, a, e, d, mid);
    RunThen(s, RootPart(r), APart(a) + (EPart(e) + DPart(d)), 1, mid, s1, s2);
    FinalFiles(r, a, e, d);
    FinalSizes(FilesSize(r), FilesSize(a), FilesSize(e), FilesSize(d));
  }

  lemma NewTreeIsSnapshot()
    ensures NewTree() == Snapshot(1, NoFiles, NoSizes)
  {
  }

  /** The sizes the example's directories end with: "/" holds everything,
      "a" its own files and those of "e". */
  function SizesOf(r: seq<FileEntry>, a: seq<FileEntry>, e: seq<FileEntry>, d: seq<FileEntry>): seq<nat> {
    Totals(FilesSize(r), FilesSize(a), FilesSize(e), FilesSize(d))
  }

  /** The same, from the bytes listed directly in "/", "a", "e" and "d". */
  function Totals(R: nat, A: nat, E: nat, D: nat): seq<nat> {
    [R + A + E + D, A + E, D, E]
  }

  /** Filing `r`, `a`, `e` and `d` under nodes 0, 1, 3 and 2 in turn. */
  lemma FinalFiles(r: seq<FileEntry>, a: seq<FileEntry>, e: seq<FileEntry>, d: seq<FileEntry>)
    ensures var fs1 := NoFiles[0 := NoFiles[0] + r];
      var fs2 := fs1[1 := fs1[1] + a];
      var fs3 := fs2[3 := fs2[3] + e];
      fs3[2 := fs3[2] + d] == [r, a, d, e]
  {
    var fs1 := NoFiles[0 := NoFiles[0] + r];
    assert fs1 == [r, [], [], []] by { assert [] + r == r; }
    var fs2 := fs1[1 := fs1[1] + a];
    assert fs2 == [r, a, [], []] by { assert [] + a == a; }
    var fs3 := fs2[3 := fs2[3] + e];
    assert fs3 == [r, a, [], e] by { assert [] + e == e; }
    assert fs3[2 := fs3[2] + d] == [r, a, d, e] by { assert [] + d == d; }
  }

  /** Raising nodes 0, 1, 3 and 2 in turn by `R`, `A`, `E` and `D`. */
  lemma FinalSizes(R: nat, A: nat, E: nat, D: nat)
    ensures Raise(Raise(Raise(Raise(NoSizes, 0, R), 1, A), 3, E), 2, D) == Totals(R, A, E, D)
  {
    var ss1 := Raise(NoSizes, 0, R);
    assert ss1 == [R, 0, 0, 0] by { RaiseIs(NoSizes, 0, R, [R, 0, 0, 0]); }
    var ss2 := Raise(ss1, 1, A);
    assert ss2 == [R + A, A, 0, 0] by { RaiseIs(ss1, 1, A, [R + A, A, 0, 0]); }
    var ss3 := Raise(ss2, 3, E);
    assert ss3 == [R + A + E, A + E, 0, E] by { RaiseIs(ss2, 3, E, [R + A + E, A + E, 0, E]); }
    RaiseIs(ss3, 2, D, [R + A + E + D, A + E, D, E]);
  }

  lemma RaiseIs(ss: seq<nat>, cur: nat, x: nat, want: seq<nat>)
    requires |ss| == 4 && |want| == 4
    requires forall i | 0 <= i < 4 :: want[i] == ss[i] + (if Above(i, cur) then x else 0)
    ensures Raise(ss, cur, x) == want
  {
  }

  /** Every line of the transcript ends at its own "\n". */
  lemma TranscriptTerminated(r: seq<FileEntry>, a: seq<FileEntry>, e: seq<FileEntry>, d: seq<FileEntry>)
    requires PlainNames(r) && PlainNames(a) && PlainNames(e) && PlainNames(d)
    ensures Terminated(TranscriptOf(r, a, e, d))
  {
    RootPartTerminated(r);
    APartTerminated(a);
    EPartTerminated(e);
    DPartTerminated(d);
    TerminatedAppend(EPart(e), DPart(d));
    TerminatedAppend(APart(a), EPart(e) + DPart(d));
    TerminatedAppend(RootPart(r), APart(a) + (EPart(e) + DPart(d)));
  }

  lemma RootPartTerminated(r: seq<FileEntry>)
    requires PlainNames(r)
    ensures Terminated(RootPart(r))
  {
    FileLinesTerminated(r);
    assert Terminated(["$ cd /\n", "$ ls\n", DirLine(1)]);
    assert Terminated([DirLine(2)]);
    TerminatedAppend(FileLines(r), [DirLine(2)]);
    TerminatedAppend(["$ cd /\n", "$ ls\n", DirLine(1)], FileLines(r) + [DirLine(2)]);
  }

  lemma APartTerminated(a: seq<FileEntry>)
    requires PlainNames(a)
    ensures Terminated(APart(a))
  {
    FileLinesTerminated(a);
    assert Terminated([DirLine(3)]) && Terminated(Enter(1));
    TerminatedAppend([DirLine(3)], FileLines(a));
    TerminatedAppend(Enter(1), [DirLine(3)] + FileLines(a));
  }

  lemma EPartTerminated(e: seq<FileEntry>)
    requires PlainNames(e)
    ensures Terminated(EPart(e))
  {
    FileLinesTerminated(e);
    assert Terminated(Enter(3));
    TerminatedAppend(Enter(3), FileLines(e));
  }

  lemma DPartTerminated(d: seq<FileEntry>)
    requires PlainNames(d)
    ensures Terminated(DPart(d))
  {
    FileLinesTerminated(d);
    assert Terminated(Enter(2)) && Terminated(["$ cd ..\n", "$ cd ..\n"]);
    TerminatedAppend(Enter(2), FileLines(d));
    TerminatedAppend(["$ cd ..\n", "$ cd ..\n"], Enter(2) + FileLines(d));
  }

  lemma TerminatedAppend(a: seq<string>, b: seq<string>)
    requires Terminated(a) && Terminated(b)
    ensures Terminated(a + b)
  {
    forall i | 0 <= i < |a + b| ensures (a + b)[i] == if i < |a| then a[i] else b[i - |a|] { }
  }

  /** The tree the worked example's transcript builds, for any files: each
      directory holds exactly the files listed in it, and each size is the
      total of the files below it. */
  lemma ParseTranscript(r: seq<FileEntry>, a: seq<FileEntry>, e: seq<FileEntry>, d: seq<FileEntry>)
    requires PlainNames(r) && PlainNames(a) && PlainNames(e) && PlainNames(d)
    ensures ParseTerminalHistory(Concat(TranscriptOf(r, a, e, d)))
         == Success(Snapshot(4, [r, a, d, e], SizesOf(r, a, e, d)))
  {
    TranscriptTerminated(r, a, e, d);
    EachLineOfConcat(TranscriptOf(r, a, e, d));
    ReplayTranscript(Start(), r, a, e, d);
  }

  // ---------------------------------------------------------------------------
  // The worked example itself

  const RootFiles: seq<FileEntry> := [FileEntry("b.txt", 14848514), FileEntry("c.dat", 8504156)]
  const AFiles: seq<FileEntry> := [FileEntry("f", 29116), FileEntry("g", 2557), FileEntry("h.lst", 62596)]
  const EFiles: seq<FileEntry> := [FileEntry("i", 584)]
  const DFiles: seq<FileEntry> := [FileEntry("j", 4060174), FileEntry("d.log", 8033020), FileEntry("d.ext", 5626152), FileEntry("k", 7214296)]

  /** The twenty-three lines of the worked example, each with its "\n". */
  const ExampleLines: seq<string> := [
    "$ cd /\n",
    "$ ls\n",
    "dir a\n",
    "14848514 b.txt\n",
    "8504156 c.dat\n",
    "dir d\n",
    "$ cd a\n",
    "$ ls\n",
    "dir e\n",
    "29116 f\n",
    "2557 g\n",
    "62596 h.lst\n",
    "$ cd e\n",
    "$ ls\n",
    "584 i\n",
    "$ cd ..\n",
    "$ cd ..\n",
    "$ cd d\n",
    "$ ls\n",
    "4060174 j\n",
    "8033020 d.log\n",
    "5626152 d.ext\n",
    "7214296 k\n"
  ]

  /** The worked example's text: its lines one after another. */
  const ExampleInput: string := Concat(ExampleLines)

  /** The tree the worked example describes: "/" holds "a" and "d", "a"
      holds "e", and each directory's size is that of the files below it. */
  function ExampleTree(): (t: Arena)
    ensures |t| == 4
  {
    Snapshot(4, [RootFiles, AFiles, DFiles, EFiles], [48381165, 94853, 24933642, 584])
  }

  lemma ExampleNames()
    ensures PlainNames(RootFiles) && PlainNames(AFiles) && PlainNames(EFiles) && PlainNames(DFiles)
  {
    RootNames();
    ANames();
    ENames();
    DNames();
  }

  /** Each directory's file names, checked one directory at a time. */
  lemma RootNames()
    ensures PlainNames(RootFiles)
  {
  }

  lemma ANames()
    ensures PlainNames(AFiles)
  {
  }

  lemma ENames()
    ensures PlainNames(EFiles)
  {
  }

  lemma DNames()
    ensures PlainNames(DFiles)
  {
  }

  lemma ExampleSizes()
    ensures SizesOf(RootFiles, AFiles, EFiles, DFiles) == [48381165, 94853, 24933642, 584]
  {
    assert FilesSize(RootFiles) == 23352670 by { assert RootFiles[..1] == [RootFiles[0]]; }
    assert FilesSize(AFiles) == 94269 by {
      assert AFiles[..2][..1] == [AFiles[0]] && AFiles[..2] == [AFiles[0], AFiles[1]];
    }
    assert FilesSize(EFiles) == 584 by { assert EFiles[..0] == []; }
    assert FilesSize(DFiles) == 24933642 by {
      var d1, d2, d3 := DFiles[..1], DFiles[..2], DFiles[..3];
      assert d1 == [DFiles[0]] && d1[..0] == [] && FilesSize(d1) == 4060174;
      assert d2 == [DFiles[0], DFiles[1]] && d2[..1] == d1 && FilesSize(d2) == 12093194;
      assert d3 == [DFiles[0], DFiles[1], DFiles[2]] && d3[..2] == d2 && FilesSize(d3) == 17719346;
    }
  }

  /** A file line is the size's digits, a space and the name. */
  lemma FileLineIs(es: seq<FileEntry>, k: nat, digits: string, line: string)
    requires k < |es| && ShowNat(es[k].size) == digits && line == digits + " " + es[k].name + "\n"
    ensures FileLines(es)[k] == line
  {
  }

  lemma DigitsOfB()
    ensures ShowNat(14848514) == "14848514"
  {
    ShowNatLast(14848514);
    ShowNatLast(1484851);
    ShowNatLast(148485);
    ShowNatLast(14848);
    ShowNatLast(1484);
    ShowNatLast(148);
    ShowNatLast(14);
  }

  lemma DigitsOfC()
    ensures ShowNat(8504156) == "8504156"
  {
    ShowNatLast(8504156);
    ShowNatLast(850415);
    ShowNatLast(85041);
    ShowNatLast(8504);
    ShowNatLast(850);
    ShowNatLast(85);
  }

  /** The lines listing the files of "/". */
  lemma RootListing()
    ensures FileLines(RootFiles) == ["14848514 b.txt\n", "8504156 c.dat\n"]
  {
    DigitsOfB();
    FileLineIs(RootFiles, 0, "14848514", "14848514 b.txt\n");
    DigitsOfC();
    FileLineIs(RootFiles, 1, "8504156", "8504156 c.dat\n");
    TwoOf(FileLines(RootFiles), "14848514 b.txt\n", "8504156 c.dat\n");
  }

  lemma DigitsOfF()
    ensures ShowNat(29116) == "29116"
  {
    ShowNatLast(29116);
    ShowNatLast(2911);
    ShowNatLast(291);
    ShowNatLast(29);
  }

  lemma DigitsOfG()
    ensures ShowNat(2557) == "2557"
  {
    ShowNatLast(2557);
    ShowNatLast(255);
    ShowNatLast(25);
  }

  lemma DigitsOfH()
    ensures ShowNat(62596) == "62596"
  {
    ShowNatLast(62596);
    ShowNatLast(6259);
    ShowNatLast(625);
    ShowNatLast(62);
  }

  lemma DigitsOfI()
    ensures ShowNat(584) == "584"
  {
    ShowNatLast(584);
    ShowNatLast(58);
  }

  /** The lines listing the files of "a". */
  lemma AListing()
    ensures FileLines(AFiles) == ["29116 f\n", "2557 g\n", "62596 h.lst\n"]
  {
    DigitsOfF();
    FileLineIs(AFiles, 0, "29116", "29116 f\n");
    DigitsOfG();
    FileLineIs(AFiles, 1, "2557", "2557 g\n");
    DigitsOfH();
    FileLineIs(AFiles, 2, "62596", "62596 h.lst\n");
    ThreeOf(FileLines(AFiles), "29116 f\n", "2557 g\n", "62596 h.lst\n");
  }

  /** The lines listing the files of "e". */
  lemma EListing()
    ensures FileLines(EFiles) == ["584 i\n"]
  {
    DigitsOfI();
    FileLineIs(EFiles, 0, "584", "584 i\n");
  }

  lemma DigitsOfJ()
    ensures ShowNat(4060174) == "4060174"
  {
    ShowNatLast(4060174);
    ShowNatLast(406017);
    ShowNatLast(40601);
    ShowNatLast(4060);
    ShowNatLast(406);
    ShowNatLast(40);
  }

  lemma DigitsOfDLog()
    ensures ShowNat(8033020) == "8033020"
  {
    ShowNatLast(8033020);
    ShowNatLast(803302);
    ShowNatLast(80330);
    ShowNatLast(8033);
    ShowNatLast(803);
    ShowNatLast(80);
  }

  lemma DigitsOfDExt()
    ensures ShowNat(5626152) == "5626152"
  {
    ShowNatLast(5626152);
    ShowNatLast(562615);
    ShowNatLast(56261);
    ShowNatLast(5626);
    ShowNatLast(562);
    ShowNatLast(56);
  }

  lemma DigitsOfK()
    ensures ShowNat(7214296) == "7214296"
  {
    ShowNatLast(7214296);
    ShowNatLast(721429);
    ShowNatLast(72142);
    ShowNatLast(7214);
    ShowNatLast(721);
    ShowNatLast(72);
  }

  /** The lines listing the files of "d". */
  lemma DListing()
    ensures FileLines(DFiles) == ["4060174 j\n", "8033020 d.log\n", "5626152 d.ext\n", "7214296 k\n"]
  {
    DLinesHead();
    DLinesTail();
    FourOf(FileLines(DFiles), "4060174 j\n", "8033020 d.log\n", "5626152 d.ext\n", "7214296 k\n");
  }

  lemma DLinesHead()
    ensures FileLines(DFiles)[0] == "4060174 j\n" && FileLines(DFiles)[1] == "8033020 d.log\n"
  {
    DigitsOfJ();
    FileLineIs(DFiles, 0, "4060174", "4060174 j\n");
    DigitsOfDLog();
    FileLineIs(DFiles, 1, "8033020", "8033020 d.log\n");
  }

  lemma DLinesTail()
    ensures FileLines(DFiles)[2] == "5626152 d.ext\n" && FileLines(DFiles)[3] == "7214296 k\n"
  {
    DigitsOfDExt();
    FileLineIs(DFiles, 2, "5626152", "5626152 d.ext\n");
    DigitsOfK();
    FileLineIs(DFiles, 3, "7214296", "7214296 k\n");
  }

  /** The lines the transcript writes without a listing in them. */
  lemma CommandLines()
    ensures DirLine(1) == "dir a\n" && DirLine(2) == "dir d\n" && DirLine(3) == "dir e\n"
    ensures Enter(1) == ["$ cd a\n", "$ ls\n"] && Enter(2) == ["$ cd d\n", "$ ls\n"]
    ensures Enter(3) == ["$ cd e\n", "$ ls\n"]
  {
    assert NameOf(1) == "a" && NameOf(2) == "d" && NameOf(3) == "e";
    assert "dir " + "a" + "\n" == "dir a\n";
    assert "dir " + "d" + "\n" == "dir d\n";
    assert "dir " + "e" + "\n" == "dir e\n";
    assert "$ cd " + "a" + "\n" == "$ cd a\n";
    assert "$ cd " + "d" + "\n" == "$ cd d\n";
    assert "$ cd " + "e" + "\n" == "$ cd e\n";
  }

  lemma RootLines()
    ensures RootPart(RootFiles) == ExampleLines[0..6]
  {
    RootListing();
    CommandLines();
    assert ExampleLines[0..6] == ["$ cd /\n", "$ ls\n", "dir a\n", "14848514 b.txt\n", "8504156 c.dat\n", "dir d\n"];
  }

  lemma ALines()
    ensures APart(AFiles) == ExampleLines[6..12]
  {
    AListing();
    CommandLines();
    assert ExampleLines[6..12] == ["$ cd a\n", "$ ls\n", "dir e\n", "29116 f\n", "2557 g\n", "62596 h.lst\n"];
  }

  lemma ELines()
    ensures EPart(EFiles) == ExampleLines[12..15]
  {
    EListing();
    CommandLines();
    assert ExampleLines[12..15] == ["$ cd e\n", "$ ls\n", "584 i\n"];
  }

  lemma DLines()
    ensures DPart(DFiles) == ExampleLines[15..23]
  {
    DListing();
    CommandLines();
    assert ExampleLines[15..23] == ["$ cd ..\n", "$ cd ..\n", "$ cd d\n", "$ ls\n", "4060174 j\n", "8033020 d.log\n", "5626152 d.ext\n", "7214296 k\n"];
  }

  /** The example's lines are those of `TranscriptOf` for its files. */
  lemma ExampleLinesAre()
    ensures TranscriptOf(RootFiles, AFiles, EFiles, DFiles) == ExampleLines
  {
    RootLines();
    ALines();
    ELines();
    DLines();
    JoinParts(ExampleLines, RootPart(RootFiles), APart(AFiles), EPart(EFiles), DPart(DFiles));
  }

  /** The transcript is its four parts one after another. */
  lemma JoinParts(ls: seq<string>, r: seq<string>, a: seq<string>, e: seq<string>, d: seq<string>)
    requires |ls| == 23
    requires r == ls[0..6] && a == ls[6..12] && e == ls[12..15] && d == ls[15..23]
    ensures r + (a + (e + d)) == ls
  {
    assert ls == ls[0..6] + (ls[6..12] + (ls[12..15] + ls[15..23]));
  }

  /** `ParseTerminalHistory` on the worked example builds its tree. */
  lemma ParseExample()
    ensures ParseTerminalHistory(ExampleInput) == Success(ExampleTree())
  {
    ExampleNames();
    ExampleLinesAre();
    ParseTranscript(RootFiles, AFiles, EFiles, DFiles);
    ExampleSizes();
  }

  /** Only "a" (94853) and "e" (584) are within the cap of 100000, so the
      answer to the example is 95437. */
  lemma SolveExample()
    ensures SolvePartOne(ExampleInput) == Success(95437)
    ensures DirectorySizes.SumWithinCap(ParseTerminalHistory(ExampleInput).value, Root, 100000) == 95437
  {
    ParseExample();
    var t := ExampleTree();
    SnapshotWellFormed(4, [RootFiles, AFiles, DFiles, EFiles], [48381165, 94853, 24933642, 584]);
    assert t[0].size == 48381165 && t[1].size == 94853 && t[2].size == 24933642 && t[3].size == 584;
    assert DirectorySizes.CappedTotal(t, 100000, 4) == 95437;
    DirectorySizes.SumWithinCapCountsEachOnce(t, 100000);
  }

  // ---------------------------------------------------------------------------
  // What the examples read back

  /** The names of `i`'s subdirectories, in order: `directories.map(&:name)`. */
  function ChildNames(t: Arena, i: nat): (ns: seq<string>)
    requires i < |t| && InArena(t, t[i].children)
    ensures |ns| == |t[i].children|
    ensures forall k | 0 <= k < |ns| :: ns[k] == t[t[i].children[k]].name
  {
    seq(|t[i].children|, k requires 0 <= k < |t[i].children| => t[t[i].children[k]].name)
  }

  /** The names of a directory's files, in order: `files.map(&:name)`. */
  function FileNames(fs: seq<FileEntry>): (ns: seq<string>)
    ensures |ns| == |fs| && forall k | 0 <= k < |fs| :: ns[k] == fs[k].name
  {
    seq(|fs|, k requires 0 <= k < |fs| => fs[k].name)
  }

  /** The example's tree as the specs read it back. */
  predicate ExampleShapeRead(t: Arena)
    requires |t| == 4 && WellFormed(t)
  {
    && t[Root].name == "/"
    && ChildNames(t, Root) == ["a", "d"] && FileNames(t[Root].files) == ["b.txt", "c.dat"]
    && Lookup(t, Root, "a") == Some(1)
    && ChildNames(t, 1) == ["e"] && FileNames(t[1].files) == ["f", "g", "h.lst"]
    && Lookup(t, 1, "e") == Some(3)
    && ChildNames(t, 3) == [] && FileNames(t[3].files) == ["i"]
    && Lookup(t, Root, "d") == Some(2)
    && ChildNames(t, 2) == [] && FileNames(t[2].files) == ["j", "d.log", "d.ext", "k"]
  }

  lemma ExampleTreeRead()
    ensures WellFormed(ExampleTree()) && ExampleShapeRead(ExampleTree())
  {
    var fs, ss := [RootFiles, AFiles, DFiles, EFiles], [48381165, 94853, 24933642, 584];
    var t := Snapshot(4, fs, ss);
    SnapshotWellFormed(4, fs, ss);
    LookupInSnapshot(4, fs, ss, 1);
    LookupInSnapshot(4, fs, ss, 2);
    LookupInSnapshot(4, fs, ss, 3);
    assert t[0].children == [1, 2] && t[1].children == [3] && t[2].children == [] && t[3].children == [];
    assert ChildNames(t, Root) == ["a", "d"];
    assert ChildNames(t, 1) == ["e"];
    assert FileNames(t[Root].files) == ["b.txt", "c.dat"];
    assert FileNames(t[1].files) == ["f", "g", "h.lst"];
    assert FileNames(t[3].files) == ["i"];
    assert FileNames(t[2].files) == ["j", "d.log", "d.ext", "k"];
  }

  /** The tree parsed from the worked example has "/" holding "a" and "d"
      and the files "b.txt" and "c.dat"; `tree["a"]` holds "e" and "f", "g",
      "h.lst"; `tree["a"]["e"]` holds only "i"; `tree["d"]` holds only "j",
      "d.log", "d.ext" and "k". */
  lemma ExampleLayout()
    ensures ParseTerminalHistory(ExampleInput).Success?
    ensures var t := ParseTerminalHistory(ExampleInput).value;
      |t| == 4 && WellFormed(t) && ExampleShapeRead(t)
  {
    ParseExample();
    ExampleTreeRead();
  }

  // ---------------------------------------------------------------------------
  // The `Tree` examples

  /** `add_directory` on a fresh tree: one subdirectory, called "a", whose
      parent is the tree, and `tree["a"]` finds it. */
  lemma AddDirectoryExample()
    ensures var t := AddDirectory(NewTree(), Root, "a");
      && |t[Root].children| == 1 && t[t[Root].children[0]].name == "a"
      && t[t[Root].children[0]].parent == Some(Root)
      && Lookup(t, Root, "a").Some? && t[Lookup(t, Root, "a").value].name == "a"
  {
    var t := AddDirectory(NewTree(), Root, "a");
    AddDirectoryThenLookup(NewTree(), Root, "a");
  }

  /** `add_file` on a fresh tree records the file, and two files of 42
      make the tree's size 84. */
  lemma AddFileExample()
    ensures AddFile(NewTree(), Root, "a", 42)[Root].files == [FileEntry("a", 42)]
    ensures AddFile(AddFile(NewTree(), Root, "a", 42), Root, "b", 42)[Root].size == 84
  {
  }
}

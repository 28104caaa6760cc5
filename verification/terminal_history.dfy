/** `ParseTerminalHistory` of day 7: replays a terminal transcript line by
    line, moving a working-directory cursor with `$ cd` and recording what
    `$ ls` lists. As in the source, a `cd ..` at the root or a `cd` into an
    unknown name leaves the cursor nil; nothing fails until a later line
    dereferences it. */
module TerminalHistory {
  import opened Wrappers
  import opened Text
  import opened DirectoryTree
  import DirectorySizes

  /** A `$` line once stripped, tried in the order of the source's `case`. */
  datatype Command = CdRoot | CdUp | CdInto(name: string) | Ls | Unrecognised

  /** The `NoMethodError`s the replay can raise, with the 1-based number of
      the offending line. */
  datatype Fault =
    | NilWorkingDirectory(line: nat)  // a method called on the nil cursor
    | NilDirectoryName(line: nat)     // `line[4..]` is nil on a three-character "dir" line
    | NilFileName(line: nat)          // a listing line without a second field

  /** The parser's state: the tree, the cursor (`None` for Ruby's nil), and
      whether the last command was `$ ls`. */
  datatype Session = Session(tree: Arena, cwd: Option<nat>, listing: bool)

  ghost predicate Valid(s: Session) {
    && WellFormed(s.tree)
    && SizesCached(s.tree)
    && (s.cwd.Some? ==> s.cwd.value < |s.tree|)
  }

  /** `initialize`: a fresh root, the cursor on it, no command yet. */
  function Start(): (s: Session)
    ensures Valid(s) && s.cwd == Some(Root) && !s.listing && |s.tree| == 1
  {
    Session(NewTree(), Some(Root), false)
  }

  // ---------------------------------------------------------------------------
  // Recognising commands

  /** Where the regex `\$ cd (.+)` can match: "$ cd " followed by at least one
      character other than a newline. */
  predicate CdAt(s: string, p: nat) {
    p + 5 < |s| && s[p..p + 5] == "$ cd " && s[p + 5] != '\n'
  }

  /** The leftmost position at or after `p` where the regex matches. */
  function FirstCd(s: string, p: nat): (r: Option<nat>)
    requires p <= |s|
    ensures r.Some? ==> p <= r.value && CdAt(s, r.value)
    ensures r.Some? ==> forall q | p <= q < r.value :: !CdAt(s, q)
    ensures r.None? ==> forall q | p <= q <= |s| :: !CdAt(s, q)
    decreases |s| - p
  {
    if p == |s| then None
    else if CdAt(s, p) then Some(p)
    else FirstCd(s, p + 1)
  }

  /** The capture `$1`: everything after the leftmost "$ cd " up to the end
      of the line (`.` stops only at a newline). */
  function CdTarget(s: string): (r: Option<string>)
    ensures r.Some? ==> |r.value| > 0 && '\n' !in r.value
    ensures r.Some? <==> exists q | 0 <= q < |s| :: CdAt(s, q)
  {
    match FirstCd(s, 0)
    case None => None
    case Some(q) =>
      var e := FindChar(s, '\n', q + 5);
      Some(s[q + 5..e])
  }

  function Classify(cmd: string): (c: Command)
    ensures c == CdRoot <==> cmd == "$ cd /"
    ensures c == CdUp <==> cmd == "$ cd .."
    ensures c.CdInto? <==> cmd != "$ cd /" && cmd != "$ cd .." && CdTarget(cmd).Some?
    ensures c.CdInto? ==> c.name == CdTarget(cmd).value
    ensures c == Ls <==> cmd == "$ ls"
  {
    if cmd == "$ cd /" then CdRoot
    else if cmd == "$ cd .." then CdUp
    else match CdTarget(cmd)
      case Some(name) => CdInto(name)
      case None => if cmd == "$ ls" then Ls else Unrecognised
  }

  /** Writing `$ cd name` and reading it back yields the name again. */
  lemma CdRoundTrip(name: string)
    requires |name| > 0 && '\n' !in name && name != "/" && name != ".."
    ensures Classify("$ cd " + name) == CdInto(name)
  {
    var s := "$ cd " + name;
    assert CdAt(s, 0);
    assert s[5..] == name;
    assert FindChar(s, '\n', 5) == |s|;
  }

  // ---------------------------------------------------------------------------
  // One line

  /** One iteration of `input.each_line`. */
  function Step(s: Session, line: string, no: nat): (r: Result<Session, Fault>)
    requires Valid(s)
    ensures r.Success? ==> Valid(r.value)
    ensures r.Success? ==> |s.tree| <= |r.value.tree|
    ensures r.Failure? ==> r.error.line == no
  {
    if "$" <= line then
      match Classify(Strip(line))
      case CdRoot => Success(s.(cwd := Some(Root), listing := false))
      case CdUp =>
        if s.cwd.None? then Failure(NilWorkingDirectory(no))
        else
          var p := s.tree[s.cwd.value].parent;
          assert p.Some? ==> p.value < s.cwd.value;
          Success(s.(cwd := p, listing := false))
      case CdInto(name) =>
        if s.cwd.None? then Failure(NilWorkingDirectory(no))
        else Success(s.(cwd := Lookup(s.tree, s.cwd.value, name), listing := false))
      case Ls => Success(s.(listing := true))
      case Unrecognised => Success(s.(listing := false))
    else if !s.listing then Success(s)
    else if "dir" <= line then
      if |line| < 4 then Failure(NilDirectoryName(no))
      else if s.cwd.None? then Failure(NilWorkingDirectory(no))
      else Success(s.(tree := AddDirectory(s.tree, s.cwd.value, Strip(line[4..]))))
    else
      match SplitFirst(line)
      case None => Failure(NilFileName(no))
      case Some((size, name)) =>
        if s.cwd.None? then Failure(NilWorkingDirectory(no))
        else Success(s.(tree := AddFile(s.tree, s.cwd.value, Strip(name), ToI(size))))
  }

  /** The lines from number `no` on, stopping at the first fault. */
  function Run(s: Session, lines: seq<string>, no: nat): (r: Result<Session, Fault>)
    requires Valid(s)
    ensures r.Success? ==> Valid(r.value) && |s.tree| <= |r.value.tree|
    ensures r.Failure? ==> no <= r.error.line < no + |lines|
    decreases |lines|
  {
    if lines == [] then Success(s)
    else match Step(s, lines[0], no)
      case Failure(e) => Failure(e)
      case Success(s') => Run(s', lines[1..], no + 1)
  }

  /** Replaying two pieces of a transcript in turn is replaying the whole:
      the second piece starts from where the first left the session, its
      lines numbered on from the first's. */
  lemma {:induction false} RunAppend(s: Session, a: seq<string>, b: seq<string>, no: nat)
    requires Valid(s)
    ensures Run(s, a + b, no)
         == match Run(s, a, no)
            case Failure(e) => Failure(e)
            case Success(s') => Run(s', b, no + |a|)
    decreases |a|
  {
    if a == [] {
      assert a + b == b;
    } else {
      var ab := a + b;
      assert ab[0] == a[0] && ab[1..] == a[1..] + b;
      var st := Step(s, a[0], no);
      if st.Failure? {
        assert Run(s, a, no) == Failure(st.error);
        assert Run(s, ab, no) == Failure(st.error);
      } else {
        var s1, next := st.value, no + 1;
        RunAppend(s1, a[1..], b, next);
        assert Run(s, a, no) == Run(s1, a[1..], next);
        assert Run(s, ab, no) == Run(s1, a[1..] + b, next);
        assert next + |a[1..]| == no + |a|;
      }
    }
  }

  /** `ParseTerminalHistory.call(input)`: the tree built from the whole
      transcript, or the first fault. */
  function ParseTerminalHistory(input: string): (r: Result<Arena, Fault>)
    ensures r.Success? ==> WellFormed(r.value) && SizesCached(r.value)
    ensures r.Failure? ==> 1 <= r.error.line <= |EachLine(input)|
  {
    match Run(Start(), EachLine(input), 1)
    case Failure(e) => Failure(e)
    case Success(s) => Success(s.tree)
  }

  /** The script's answer: the capped sum over the parsed tree. */
  function SolvePartOne(input: string): (r: Result<nat, Fault>)
    ensures r.Success? <==> ParseTerminalHistory(input).Success?
    ensures r.Failure? ==> r.error == ParseTerminalHistory(input).error
    ensures r.Success? ==> r.value == DirectorySizes.CappedTotal(ParseTerminalHistory(input).value, 100000, |ParseTerminalHistory(input).value|)
  {
    match ParseTerminalHistory(input)
    case Failure(e) => Failure(e)
    case Success(t) =>
      DirectorySizes.SumWithinCapCountsEachOnce(t, 100000);
      Success(DirectorySizes.SumWithinCap(t, Root, 100000))
  }

  // ---------------------------------------------------------------------------
  // One line of each kind, as a transcript writes it

  /** `$ cd /` puts the cursor on the root and ends any listing. */
  lemma CdRootStep(s: Session, no: nat)
    requires Valid(s)
    ensures Step(s, "$ cd /\n", no) == Success(s.(cwd := Some(Root), listing := false))
  {
    StripLine("$ cd /");
  }

  /** `$ cd ..` moves the cursor to its parent (nil from the root). */
  lemma CdUpStep(s: Session, no: nat)
    requires Valid(s) && s.cwd.Some?
    ensures Step(s, "$ cd ..\n", no) == Success(s.(cwd := s.tree[s.cwd.value].parent, listing := false))
  {
    var line := "$ cd ..\n";
    assert "$" <= line;
    assert Strip(line) == "$ cd .." by { StripLine("$ cd .."); }
    assert Classify("$ cd ..") == CdUp;
  }

  /** `$ cd name` moves the cursor to the first child called `name` (nil
      when there is none). */
  lemma CdIntoStep(s: Session, name: string, no: nat)
    requires Valid(s) && s.cwd.Some?
    requires |name| > 0 && '\n' !in name && name != "/" && name != ".." && !IsStripped(name[|name| - 1])
    ensures Step(s, "$ cd " + name + "\n", no) == Success(s.(cwd := Lookup(s.tree, s.cwd.value, name), listing := false))
  {
    var cmd := "$ cd " + name;
    assert cmd[|cmd| - 1] == name[|name| - 1];
    StripLine(cmd);
    CdRoundTrip(name);
    assert "$" <= cmd + "\n";
  }

  /** `$ ls` starts a listing and leaves the cursor alone. */
  lemma LsStep(s: Session, no: nat)
    requires Valid(s)
    ensures Step(s, "$ ls\n", no) == Success(s.(listing := true))
  {
    StripLine("$ ls");
  }

  /** A `dir name` line is not a command, is at least four characters long
      and names `name` after its `dir ` prefix. */
  lemma DirLineParts(name: string)
    requires |name| > 0 && !IsStripped(name[0]) && !IsStripped(name[|name| - 1])
    ensures !("$" <= "dir " + name + "\n") && "dir" <= "dir " + name + "\n"
    ensures |"dir " + name + "\n"| >= 4 && Strip(("dir " + name + "\n")[4..]) == name
  {
    var line := "dir " + name + "\n";
    assert line[4..] == name + "\n";
    assert line[0] == 'd' && line[..3] == "dir";
    StripLine(name);
  }

  /** A listed `dir name` adds an empty directory under the cursor. */
  lemma DirLineStep(s: Session, name: string, no: nat)
    requires Valid(s) && s.listing && s.cwd.Some?
    requires |name| > 0 && !IsStripped(name[0]) && !IsStripped(name[|name| - 1])
    ensures Step(s, "dir " + name + "\n", no) == Success(s.(tree := AddDirectory(s.tree, s.cwd.value, name)))
  {
    DirLineParts(name);
  }

  /** A file line `size name` is neither a command nor a directory, and it
      splits into the size's digits and the name, which read back as the
      size and the name. */
  lemma FileLineParts(size: nat, name: string)
    requires |name| > 0 && !IsStripped(name[0]) && !IsStripped(name[|name| - 1])
    ensures !("$" <= ShowNat(size) + " " + name + "\n")
    ensures !("dir" <= ShowNat(size) + " " + name + "\n")
    ensures SplitFirst(ShowNat(size) + " " + name + "\n") == Some((ShowNat(size), name + "\n"))
    ensures Strip(name + "\n") == name && ToI(ShowNat(size)) == size
  {
    var d := ShowNat(size);
    var line := d + " " + name + "\n";
    assert line == d + " " + (name + "\n");
    assert line[0] == d[0] && IsDigit(d[0]);
    assert forall k | 0 <= k < |d| :: !IsSpace(d[k]) by {
      assert forall k | 0 <= k < |d| :: IsDigit(d[k]);
    }
    SplitFirstOf(d, name + "\n");
    StripLine(name);
    ToIOfShowNat(size);
  }

  /** A listed `size name` records a file of that size under the cursor. */
  lemma FileLineStep(s: Session, size: nat, name: string, no: nat)
    requires Valid(s) && s.listing && s.cwd.Some?
    requires |name| > 0 && !IsStripped(name[0]) && !IsStripped(name[|name| - 1])
    ensures Step(s, ShowNat(size) + " " + name + "\n", no)
         == Success(s.(tree := AddFile(s.tree, s.cwd.value, name, size)))
  {
    FileLineParts(size, name);
  }

  // ---------------------------------------------------------------------------
  // Independent accounts of a transcript

  /** Whether `$ ls` is in force after `line`, tracking nothing else. */
  function ListingAfter(listing: bool, line: string): bool {
    if "$" <= line then Strip(line) == "$ ls" else listing
  }

  predicate IsDirLine(line: string) {
    !("$" <= line) && "dir" <= line
  }

  /** The bytes the listings report: the leading number of every listed
      line that is neither a command nor a directory. */
  function ListedBytes(listing: bool, lines: seq<string>): nat
    decreases |lines|
  {
    if lines == [] then 0
    else
      var here :=
        if listing && !("$" <= lines[0]) && !("dir" <= lines[0]) && SplitFirst(lines[0]).Some?
        then ToI(SplitFirst(lines[0]).value.0) else 0;
      here + ListedBytes(ListingAfter(listing, lines[0]), lines[1..])
  }

  /** How many directory lines the listings report. */
  function ListedDirectories(listing: bool, lines: seq<string>): nat
    decreases |lines|
  {
    if lines == [] then 0
    else
      (if listing && IsDirLine(lines[0]) then 1 else 0)
        + ListedDirectories(ListingAfter(listing, lines[0]), lines[1..])
  }

  /** The accounts of a single line. */
  lemma ListedOfOne(listing: bool, line: string)
    ensures ListedBytes(listing, [line]) ==
      if listing && !("$" <= line) && !("dir" <= line) && SplitFirst(line).Some?
      then ToI(SplitFirst(line).value.0) else 0
    ensures ListedDirectories(listing, [line]) == if listing && IsDirLine(line) then 1 else 0
  {
    assert [line][1..] == [];
  }

  lemma StepDirAccounts(s: Session, line: string, no: nat)
    requires Valid(s) && Step(s, line, no).Success?
    requires !("$" <= line) && s.listing && "dir" <= line
    ensures Step(s, line, no).value.tree[Root].size == s.tree[Root].size
    ensures |Step(s, line, no).value.tree| == |s.tree| + 1
  {
    var t := AddDirectory(s.tree, s.cwd.value, Strip(line[4..]));
    assert Step(s, line, no).value.tree == t;
    assert t[Root] == s.tree[Root].(children := t[Root].children);
  }

  lemma StepFileAccounts(s: Session, line: string, no: nat)
    requires Valid(s) && Step(s, line, no).Success?
    requires !("$" <= line) && s.listing && !("dir" <= line)
    ensures SplitFirst(line).Some?
    ensures Step(s, line, no).value.tree[Root].size == s.tree[Root].size + ToI(SplitFirst(line).value.0)
    ensures |Step(s, line, no).value.tree| == |s.tree|
  {
    var (size, name) := SplitFirst(line).value;
    assert Step(s, line, no).value.tree == AddFile(s.tree, s.cwd.value, Strip(name), ToI(size));
  }

  lemma StepCommandAccounts(s: Session, line: string, no: nat)
    requires Valid(s) && Step(s, line, no).Success? && "$" <= line
    ensures Step(s, line, no).value.tree == s.tree
    ensures Step(s, line, no).value.listing == (Strip(line) == "$ ls")
  {
  }

  lemma StepAccounts(s: Session, line: string, no: nat)
    requires Valid(s) && Step(s, line, no).Success?
    ensures Step(s, line, no).value.listing == ListingAfter(s.listing, line)
    ensures Step(s, line, no).value.tree[Root].size
         == s.tree[Root].size + ListedBytes(s.listing, [line])
    ensures |Step(s, line, no).value.tree| == |s.tree| + ListedDirectories(s.listing, [line])
  {
    ListedOfOne(s.listing, line);
    if "$" <= line {
      StepCommandAccounts(s, line, no);
    } else if !s.listing {
      assert Step(s, line, no).value == s;
    } else if "dir" <= line {
      StepDirAccounts(s, line, no);
      assert Step(s, line, no).value.listing;
    } else {
      StepFileAccounts(s, line, no);
      assert Step(s, line, no).value.listing;
    }
  }

  /** A successful replay grows the root by exactly the listed bytes and the
      arena by exactly the listed directories. */
  lemma {:induction false} RunAccounts(s: Session, lines: seq<string>, no: nat)
    requires Valid(s) && Run(s, lines, no).Success?
    ensures Run(s, lines, no).value.tree[Root].size == s.tree[Root].size + ListedBytes(s.listing, lines)
    ensures |Run(s, lines, no).value.tree| == |s.tree| + ListedDirectories(s.listing, lines)
    ensures Run(s, lines, no).value.listing == ListingAfterAll(s.listing, lines)
    decreases |lines|
  {
    if lines != [] {
      StepAccounts(s, lines[0], no);
      RunAccounts(Step(s, lines[0], no).value, lines[1..], no + 1);
    }
  }

  function ListingAfterAll(listing: bool, lines: seq<string>): bool
    decreases |lines|
  {
    if lines == [] then listing else ListingAfterAll(ListingAfter(listing, lines[0]), lines[1..])
  }

  /** The parsed root holds every listed byte and one node per listed
      directory, and its size is also the total of all recorded files. */
  lemma ParseAccounts(input: string)
    requires ParseTerminalHistory(input).Success?
    ensures var t := ParseTerminalHistory(input).value;
      && t[Root].size == ListedBytes(false, EachLine(input))
      && |t| == 1 + ListedDirectories(false, EachLine(input))
      && t[Root].size == DirectorySizes.TotalFiles(t, |t|)
  {
    RunAccounts(Start(), EachLine(input), 1);
    DirectorySizes.RootSizeIsAllFiles(ParseTerminalHistory(input).value);
  }

  // ---------------------------------------------------------------------------
  // The nil cursor

  /** `$ cd ..` at the root leaves the cursor nil without failing. */
  lemma CdUpAtRootLeavesNoDirectory(s: Session, line: string, no: nat)
    requires Valid(s) && s.cwd == Some(Root)
    requires "$" <= line && Strip(line) == "$ cd .."
    ensures Step(s, line, no) == Success(s.(cwd := None, listing := false))
  {
  }

  /** `$ cd` into a name no child of the cursor has leaves it nil. */
  lemma CdIntoUnknownLeavesNoDirectory(s: Session, line: string, name: string, no: nat)
    requires Valid(s) && s.cwd.Some?
    requires "$" <= line && Classify(Strip(line)) == CdInto(name)
    requires forall c | 0 <= c < |s.tree| && s.tree[c].parent == s.cwd :: s.tree[c].name != name
    ensures Step(s, line, no) == Success(s.(cwd := None, listing := false))
  {
  }

  /** With the cursor nil, `$ cd /` recovers and `$ ls` is harmless ... */
  lemma NilCursorRecovers(s: Session, line: string, no: nat)
    requires Valid(s) && s.cwd.None? && "$" <= line
    ensures Strip(line) == "$ cd /" ==> Step(s, line, no) == Success(s.(cwd := Some(Root), listing := false))
    ensures Strip(line) == "$ ls" ==> Step(s, line, no) == Success(s.(listing := true))
  {
  }

  /** ... but the next listed entry, or another relative `cd`, fails. */
  lemma NilCursorFails(s: Session, line: string, no: nat)
    requires Valid(s) && s.cwd.None?
    requires if "$" <= line then Classify(Strip(line)).CdUp? || Classify(Strip(line)).CdInto?
             else s.listing && (if "dir" <= line then |line| >= 4 else SplitFirst(line).Some?)
    ensures Step(s, line, no) == Failure(NilWorkingDirectory(no))
  {
  }

  /** A listed line that names no file raises on its missing name, whatever
      the cursor. */
  lemma MissingNameFails(s: Session, line: string, no: nat)
    requires Valid(s) && s.listing && !("$" <= line)
    requires if "dir" <= line then |line| < 4 else SplitFirst(line).None?
    ensures Step(s, line, no).Failure?
    ensures Step(s, line, no).error == if "dir" <= line then NilDirectoryName(no) else NilFileName(no)
  {
  }

  /** Lines outside a listing that are not commands change nothing. */
  lemma OutputOutsideListingIgnored(s: Session, line: string, no: nat)
    requires Valid(s) && !s.listing && !("$" <= line)
    ensures Step(s, line, no) == Success(s)
  {
  }
}

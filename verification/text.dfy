/** The slice of Ruby's String behaviour the puzzle solutions rely on:
    `each_line`, `lines(chomp: true)`, `strip`, whitespace `split` (with and
    without a limit), `split` on a one-character separator, `start_with?`,
    substring search, and `to_i` on decimal digits. */
module Text {
  import opened Wrappers

  /** Ruby's ASCII whitespace, as used by `split` and the regex class `\s`. */
  predicate IsSpace(c: char) {
    c == ' ' || c == '\t' || c == '\n' || c == '\U{0B}' || c == '\U{0C}' || c == '\r'
  }

  /** `strip` additionally removes NUL characters. */
  predicate IsStripped(c: char) {
    c == '\0' || IsSpace(c)
  }

  predicate IsDigit(c: char) {
    '0' <= c <= '9'
  }

  predicate AllDigits(s: string) {
    forall k | 0 <= k < |s| :: IsDigit(s[k])
  }

  // ---------------------------------------------------------------------------
  // Lines

  function Concat(ls: seq<string>): (t: string)
    ensures |ls| == 0 ==> t == []
  {
    if ls == [] then [] else ls[0] + Concat(ls[1..])
  }

  /** Length of the first line of `t`, its "\n" included; all of `t` when it
      holds no newline. */
  function FirstLineLength(t: string): (n: nat)
    requires |t| > 0
    ensures 0 < n <= |t|
    ensures forall k | 0 <= k < n - 1 :: t[k] != '\n'
    ensures n < |t| ==> t[n - 1] == '\n'
  {
    if t[0] == '\n' || |t| == 1 then 1 else 1 + FirstLineLength(t[1..])
  }

  /** `each_line`: cut the text after every "\n"; the last line keeps no
      terminator when the text does not end in one. */
  function EachLine(t: string): (ls: seq<string>)
    ensures Concat(ls) == t
    ensures forall i | 0 <= i < |ls| :: |ls[i]| > 0
    ensures forall i | 0 <= i < |ls| - 1 :: ls[i][|ls[i]| - 1] == '\n'
    ensures forall i, k | 0 <= i < |ls| && 0 <= k < |ls[i]| - 1 :: ls[i][k] != '\n'
    decreases |t|
  {
    if t == [] then []
    else
      var n := FirstLineLength(t);
      var line, rest := t[..n], EachLine(t[n..]);
      assert t == line + t[n..];
      LinesCons(line, rest);
      [line] + rest
  }

  /** A line with no "\n" before its end, put before lines cut as
      `EachLine` cuts them, keeps them so cut; it must end in "\n" when
      lines follow it. */
  lemma LinesCons(line: string, rest: seq<string>)
    requires |line| > 0 && forall k | 0 <= k < |line| - 1 :: line[k] != '\n'
    requires rest != [] ==> line[|line| - 1] == '\n'
    requires forall i | 0 <= i < |rest| :: |rest[i]| > 0
    requires forall i | 0 <= i < |rest| - 1 :: rest[i][|rest[i]| - 1] == '\n'
    requires forall i, k | 0 <= i < |rest| && 0 <= k < |rest[i]| - 1 :: rest[i][k] != '\n'
    ensures Concat([line] + rest) == line + Concat(rest)
    ensures var ls := [line] + rest; forall i | 0 <= i < |ls| :: |ls[i]| > 0
    ensures var ls := [line] + rest; forall i | 0 <= i < |ls| - 1 :: ls[i][|ls[i]| - 1] == '\n'
    ensures var ls := [line] + rest;
      forall i, k | 0 <= i < |ls| && 0 <= k < |ls[i]| - 1 :: ls[i][k] != '\n'
  {
    var ls := [line] + rest;
    assert ls[1..] == rest;
    forall i | 0 < i < |ls|
      ensures ls[i] == rest[i - 1]
    {
    }
  }

  /** Every line ends in a "\n", its only one. */
  predicate Terminated(ls: seq<string>) {
    forall i | 0 <= i < |ls| ::
      |ls[i]| > 0 && ls[i][|ls[i]| - 1] == '\n' && '\n' !in ls[i][..|ls[i]| - 1]
  }

  lemma {:induction false} FirstLineOf(line: string, rest: string)
    requires |line| > 0 && line[|line| - 1] == '\n' && '\n' !in line[..|line| - 1]
    ensures FirstLineLength(line + rest) == |line|
  {
    if |line| > 1 {
      assert line[0] in line[..|line| - 1];
      assert (line + rest)[1..] == line[1..] + rest;
      assert line[1..][..|line| - 2] == line[1..|line| - 1];
      FirstLineOf(line[1..], rest);
    }
  }

  /** Joining two runs of lines joins their texts. */
  lemma {:induction false} ConcatAppend(a: seq<string>, b: seq<string>)
    ensures Concat(a + b) == Concat(a) + Concat(b)
    decreases |a|
  {
    if a == [] {
      assert a + b == b;
    } else {
      assert (a + b)[1..] == a[1..] + b;
      ConcatAppend(a[1..], b);
    }
  }

  /** `each_line` undoes the joining of terminated lines. */
  lemma {:induction false} EachLineOfConcat(ls: seq<string>)
    requires Terminated(ls)
    ensures EachLine(Concat(ls)) == ls
  {
    if ls != [] {
      var rest := Concat(ls[1..]);
      FirstLineOf(ls[0], rest);
      assert (ls[0] + rest)[|ls[0]|..] == rest;
      assert (ls[0] + rest)[..|ls[0]|] == ls[0];
      EachLineOfConcat(ls[1..]);
    }
  }

  /** `chomp` as `lines(chomp: true)` applies it: drop a final "\n" and a
      "\r" just before it. */
  function Chomp(line: string): (r: string)
    ensures r <= line
    ensures line[|r|..] in {[], "\n", "\r\n"}
    ensures |line| > 0 && line[|line| - 1] == '\n' ==> |r| < |line|
    ensures (|line| == 0 || line[|line| - 1] != '\n') ==> r == line
    ensures line[|r|..] == "\n" ==> |r| == 0 || r[|r| - 1] != '\r'
  {
    if |line| > 0 && line[|line| - 1] == '\n' then
      var l := line[..|line| - 1];
      if |l| > 0 && l[|l| - 1] == '\r' then
        assert line[|l| - 1..] == "\r\n";
        l[..|l| - 1]
      else
        assert line[|l|..] == "\n";
        l
    else
      assert line[|line|..] == [];
      line
  }

  /** `chomp` takes exactly one "\n", or one "\r\n", off a line's end, and
      leaves a line without a final "\n" as it is. */
  lemma ChompOf(s: string)
    requires |s| == 0 || s[|s| - 1] != '\r'
    ensures Chomp(s + "\n") == s
    ensures Chomp(s + "\r\n") == s
    ensures |s| == 0 || s[|s| - 1] != '\n' ==> Chomp(s) == s
  {
    var t := s + "\r\n";
    assert t[..|t| - 1] == s + "\r";
    assert (s + "\r")[..|s|] == s;
    assert (s + "\n")[..|s|] == s;
  }

  // ---------------------------------------------------------------------------
  // strip

  function StripLeft(s: string): (r: string)
    ensures |r| <= |s| && r == s[|s| - |r|..]
    ensures forall k | 0 <= k < |s| - |r| :: IsStripped(s[k])
    ensures |r| == 0 || !IsStripped(r[0])
  {
    if |s| > 0 && IsStripped(s[0]) then
      var r := StripLeft(s[1..]);
      assert forall k | 1 <= k < |s| - |r| :: s[k] == s[1..][k - 1];
      assert s[1..][|s| - 1 - |r|..] == s[|s| - |r|..];
      r
    else s
  }

  function StripRight(s: string): (r: string)
    ensures r <= s
    ensures forall k | |r| <= k < |s| :: IsStripped(s[k])
    ensures |r| == 0 || !IsStripped(r[|r| - 1])
  {
    if |s| > 0 && IsStripped(s[|s| - 1]) then StripRight(s[..|s| - 1]) else s
  }

  /** `strip`: the longest infix of `s` that neither starts nor ends with
      whitespace or NUL. */
  function Strip(s: string): (r: string)
    ensures |r| == 0 || (!IsStripped(r[0]) && !IsStripped(r[|r| - 1]))
    ensures |r| == 0 <==> forall k | 0 <= k < |s| :: IsStripped(s[k])
    ensures (|s| == 0 || (!IsStripped(s[0]) && !IsStripped(s[|s| - 1]))) ==> r == s
  {
    var l := StripLeft(s);
    var r := StripRight(l);
    StripEnds(s, l, r);
    r
  }

  /** `strip` keeps the infix that runs from the first to the last character
      that is neither whitespace nor NUL: only such characters surround it,
      and it neither starts nor ends with one. */
  lemma StripIsInfix(s: string)
    ensures StrippedAround(s, Strip(s))
    ensures var r := Strip(s); |r| == 0 || (!IsStripped(r[0]) && !IsStripped(r[|r| - 1]))
  {
    var l := StripLeft(s);
    StripInfix(s, l, StripRight(l));
  }

  /** What the two halves of `strip` leave at the ends. */
  lemma StripEnds(s: string, l: string, r: string)
    requires l == StripLeft(s) && r == StripRight(l)
    ensures |r| == 0 || (!IsStripped(r[0]) && !IsStripped(r[|r| - 1]))
    ensures |r| == 0 <==> forall k | 0 <= k < |s| :: IsStripped(s[k])
    ensures (|s| == 0 || (!IsStripped(s[0]) && !IsStripped(s[|s| - 1]))) ==> r == s
  {
    if |r| > 0 {
      assert r[0] == l[0];
    }
  }

  /** Dropping a strippable prefix and then a strippable suffix cuts an
      infix out of `s` with only strippable characters around it. */
  lemma StripInfix(s: string, l: string, r: string)
    requires |l| <= |s| && l == s[|s| - |l|..] && forall k | 0 <= k < |s| - |l| :: IsStripped(s[k])
    requires r <= l && forall k | |r| <= k < |l| :: IsStripped(l[k])
    ensures StrippedAround(s, r)
  {
    var i, n := |s| - |l|, |r|;
    DropSlices(s, i, n);
    assert r == l[..n];
    SuffixStripped(l, n);
    assert r == s[i..i + n] && AllStripped(s[..i]) && AllStripped(s[i + n..]);
  }

  lemma DropSlices<T>(s: seq<T>, i: nat, n: nat)
    requires i + n <= |s|
    ensures s[i..][..n] == s[i..i + n] && s[i..][n..] == s[i + n..]
  {
  }

  lemma SuffixStripped(l: string, n: nat)
    requires n <= |l| && forall k | n <= k < |l| :: IsStripped(l[k])
    ensures AllStripped(l[n..])
  {
    assert forall k | 0 <= k < |l| - n :: l[n..][k] == l[n + k];
  }

  /** `r` sits in `s` with only strippable characters before and after it. */
  predicate StrippedAround(s: string, r: string) {
    exists i | 0 <= i <= |s| - |r| :: r == s[i..i + |r|] && AllStripped(s[..i]) && AllStripped(s[i + |r|..])
  }

  /** Every character of `s` is one `strip` removes. */
  predicate AllStripped(s: string) {
    forall k | 0 <= k < |s| :: IsStripped(s[k])
  }

  /** `strip` removes the "\n" of a line of digits and nothing else. */
  lemma StripDigitLine(d: string)
    requires AllDigits(d)
    ensures Strip(d + "\n") == d
  {
    var s := d + "\n";
    if d == [] {
      assert StripLeft(s) == StripLeft(s[1..]);
    } else {
      assert !IsStripped(s[0]);
      assert StripRight(s) == StripRight(d) by {
        assert s[..|s| - 1] == d;
      }
      assert !IsStripped(d[|d| - 1]);
    }
  }

  /** `strip` on a line whose text neither starts nor ends with a strippable
      character removes exactly the "\n". */
  lemma StripLine(w: string)
    requires |w| > 0 && !IsStripped(w[0]) && !IsStripped(w[|w| - 1])
    ensures Strip(w + "\n") == w
  {
    var s := w + "\n";
    assert !IsStripped(s[0]);
    assert StripRight(s) == StripRight(w) by {
      assert s[..|s| - 1] == w;
    }
  }

  // ---------------------------------------------------------------------------
  // split

  /** Index of the first character at or after `i` whose `IsSpace` differs
      from `space`; `|s|` when there is none. */
  function SkipWhile(s: string, i: nat, space: bool): (j: nat)
    requires i <= |s|
    ensures i <= j <= |s|
    ensures forall k | i <= k < j :: IsSpace(s[k]) == space
    ensures j < |s| ==> IsSpace(s[j]) != space
    decreases |s| - i
  {
    if i == |s| || IsSpace(s[i]) != space then i else SkipWhile(s, i + 1, space)
  }

  function FieldsFrom(s: string, i: nat): (fs: seq<string>)
    requires i <= |s|
    ensures forall f | f in fs :: |f| > 0 && forall k | 0 <= k < |f| :: !IsSpace(f[k])
    decreases |s| - i
  {
    var a := SkipWhile(s, i, true);
    if a == |s| then []
    else
      var b := SkipWhile(s, a, false);
      [s[a..b]] + FieldsFrom(s, b)
  }

  /** `split` with no argument: the maximal runs of non-whitespace, in order. */
  function Fields(s: string): (fs: seq<string>)
    ensures forall f | f in fs :: |f| > 0 && forall k | 0 <= k < |f| :: !IsSpace(f[k])
    ensures (forall k | 0 <= k < |s| :: IsSpace(s[k])) ==> fs == []
  {
    FieldsFrom(s, 0)
  }

  /** Every character of `s` is whitespace. */
  predicate AllSpace(s: string) {
    forall k | 0 <= k < |s| :: IsSpace(s[k])
  }

  /** A field: non-empty, with no whitespace in it. */
  predicate IsField(w: string) {
    |w| > 0 && forall k | 0 <= k < |w| :: !IsSpace(w[k])
  }

  /** Text laid out as `gaps[0] + ws[0] + gaps[1] + … + ws[n - 1] + gaps[n]`. */
  function Layout(gaps: seq<string>, ws: seq<string>): (t: string)
    requires |gaps| == |ws| + 1
    decreases |ws|
  {
    if ws == [] then gaps[0] else gaps[0] + ws[0] + Layout(gaps[1..], ws[1..])
  }

  /** The gaps are whitespace and only the outer two may be empty; the
      fields are fields. Every string has exactly one such layout. */
  predicate IsFieldLayout(gaps: seq<string>, ws: seq<string>)
    decreases |ws|
  {
    && |gaps| == |ws| + 1
    && AllSpace(gaps[0])
    && (ws != [] ==> IsField(ws[0]) && (|ws| > 1 ==> |gaps[1]| > 0) && IsFieldLayout(gaps[1..], ws[1..]))
  }

  /** `SkipWhile` stops at the first character of the other kind. */
  lemma SkipWhileTo(s: string, i: nat, j: nat, space: bool)
    requires i <= j <= |s|
    requires forall k | i <= k < j :: IsSpace(s[k]) == space
    requires j < |s| ==> IsSpace(s[j]) != space
    ensures SkipWhile(s, i, space) == j
  {
  }

  /** Whitespace `split` of a laid-out text gives back its fields: the
      fields are the maximal runs without whitespace, in order. */
  lemma FieldsOfLayout(gaps: seq<string>, ws: seq<string>)
    requires IsFieldLayout(gaps, ws)
    ensures Fields(Layout(gaps, ws)) == ws
  {
    FieldsFromLayout([], gaps, ws);
    assert [] + Layout(gaps, ws) == Layout(gaps, ws);
  }

  lemma {:induction false} FieldsFromLayout(pre: string, gaps: seq<string>, ws: seq<string>)
    requires IsFieldLayout(gaps, ws)
    ensures FieldsFrom(pre + Layout(gaps, ws), |pre|) == ws
    decreases |ws|
  {
    if ws == [] {
      FieldsFromGap(pre, gaps[0]);
    } else {
      var g, w, tail := gaps[0], ws[0], Layout(gaps[1..], ws[1..]);
      if tail != [] {
        TailStartsWithSpace(gaps[1..], ws[1..]);
      }
      var pre' := pre + g + w;
      LayoutCons(gaps, ws);
      AppendAssoc(pre, g + w, tail);
      AppendAssoc(pre, g, w);
      FieldsFromField(pre, g, w, tail);
      FieldsFromLayout(pre', gaps[1..], ws[1..]);
    }
  }

  lemma LayoutCons(gaps: seq<string>, ws: seq<string>)
    requires |gaps| == |ws| + 1 && ws != []
    ensures Layout(gaps, ws) == gaps[0] + ws[0] + Layout(gaps[1..], ws[1..])
  {
  }

  /** Whitespace to the end holds no field. */
  lemma FieldsFromGap(pre: string, g: string)
    requires AllSpace(g)
    ensures FieldsFrom(pre + g, |pre|) == []
  {
    var s := pre + g;
    assert forall k | |pre| <= k < |s| :: s[k] == g[k - |pre|];
    SkipWhileTo(s, |pre|, |s|, true);
  }

  /** Whitespace, then a field that whitespace or the end closes: the field
      comes first, and the fields after it follow. */
  lemma FieldsFromField(pre: string, g: string, w: string, tail: string)
    requires AllSpace(g) && IsField(w) && (tail == [] || IsSpace(tail[0]))
    ensures FieldsFrom(pre + g + w + tail, |pre|) == [w] + FieldsFrom(pre + g + w + tail, |pre + g + w|)
  {
    var s := pre + g + w + tail;
    var a := |pre| + |g|;
    var b := a + |w|;
    assert forall k | |pre| <= k < a :: s[k] == g[k - |pre|];
    assert forall k | a <= k < b :: s[k] == w[k - a];
    assert b < |s| ==> s[b] == tail[0];
    SkipWhileTo(s, |pre|, a, true);
    SkipWhileTo(s, a, b, false);
    assert s[a..b] == w;
  }

  /** After a field, a layout goes on with whitespace or ends. */
  lemma TailStartsWithSpace(gaps: seq<string>, ws: seq<string>)
    requires IsFieldLayout(gaps, ws) && |Layout(gaps, ws)| > 0
    requires ws != [] ==> |gaps[0]| > 0
    ensures IsSpace(Layout(gaps, ws)[0])
  {
    if ws != [] {
      assert Layout(gaps, ws)[0] == gaps[0][0];
    }
  }

  /** `split(" ", 2)` read as `first, rest = …`: the first whitespace-free
      field and the remainder after the whitespace that follows it. Ruby
      yields no second element (so `rest` is nil) when the first field runs
      to the end of the string or when there is no field at all. */
  function SplitFirst(s: string): (r: Option<(string, string)>)
    ensures r.Some? ==> |r.value.0| > 0 && r.value.0 <= s[SkipWhile(s, 0, true)..]
    ensures r.Some? ==> forall k | 0 <= k < |r.value.0| :: !IsSpace(r.value.0[k])
    ensures r.Some? ==> |r.value.1| < |s| && r.value.1 == s[|s| - |r.value.1|..]
    ensures r.None? <==> SkipWhile(s, SkipWhile(s, 0, true), false) == |s|
  {
    var a := SkipWhile(s, 0, true);
    var b := SkipWhile(s, a, false);
    if b == |s| then None
    else
      var c := SkipWhile(s, b, true);
      Some((s[a..b], s[c..]))
  }

  /** `split(" ", 2)` of a field, one space and a remainder that does not
      start with whitespace gives the field and the remainder back. */
  lemma SplitFirstOf(w: string, rest: string)
    requires |w| > 0 && forall k | 0 <= k < |w| :: !IsSpace(w[k])
    requires |rest| > 0 && !IsSpace(rest[0])
    ensures SplitFirst(w + " " + rest) == Some((w, rest))
  {
    var s := w + " " + rest;
    assert s[|w|] == ' ' && s[|w| + 1] == rest[0];
    assert SkipWhile(s, 0, true) == 0 by {
      assert s[0] == w[0];
    }
    var b := SkipWhile(s, 0, false);
    assert b == |w|;
    assert SkipWhile(s, b, true) == |w| + 1;
    assert s[0..b] == w && s[|w| + 1..] == rest;
  }

  /** `split(" ", 2)` of leading whitespace, a field, whitespace and a
      remainder that does not start with whitespace gives back the field
      and the remainder, whole. */
  lemma SplitFirstOfLayout(g: string, w: string, h: string, rest: string)
    requires AllSpace(g) && IsField(w) && |h| > 0 && AllSpace(h)
    requires rest == [] || !IsSpace(rest[0])
    ensures SplitFirst(g + w + h + rest) == Some((w, rest))
  {
    var s := g + w + h + rest;
    var a, b := |g|, |g| + |w|;
    var c := b + |h|;
    assert forall k | 0 <= k < a :: s[k] == g[k];
    assert forall k | a <= k < b :: s[k] == w[k - a];
    assert forall k | b <= k < c :: s[k] == h[k - b];
    assert c < |s| ==> s[c] == rest[0];
    SkipWhileTo(s, 0, a, true);
    SkipWhileTo(s, a, b, false);
    SkipWhileTo(s, b, c, true);
    assert s[a..b] == w && s[c..] == rest;
  }

  /** `split(" ", 2)` of at most one field yields no second element. */
  lemma SplitFirstOfOneField(g: string, w: string)
    requires AllSpace(g) && forall k | 0 <= k < |w| :: !IsSpace(w[k])
    ensures SplitFirst(g + w) == None
  {
    var s := g + w;
    assert forall k | 0 <= k < |g| :: s[k] == g[k];
    assert forall k | |g| <= k < |s| :: s[k] == w[k - |g|];
    SkipWhileTo(s, 0, |g|, true);
    SkipWhileTo(s, |g|, |s|, false);
  }

  /** Index of the first `sep` at or after `i`, or `|s|`. */
  function FindChar(s: string, sep: char, i: nat): (j: nat)
    requires i <= |s|
    ensures i <= j <= |s|
    ensures forall k | i <= k < j :: s[k] != sep
    ensures j < |s| ==> s[j] == sep
    decreases |s| - i
  {
    if i == |s| || s[i] == sep then i else FindChar(s, sep, i + 1)
  }

  /** Every piece between separators, empty ones included. */
  function Pieces(s: string, sep: char): (ps: seq<string>)
    ensures |ps| > 0
    ensures forall p | p in ps :: sep !in p
    decreases |s|
  {
    var j := FindChar(s, sep, 0);
    if j == |s| then [s] else [s[..j]] + Pieces(s[j + 1..], sep)
  }

  function DropTrailingEmpty(ps: seq<string>): (r: seq<string>)
    ensures r <= ps
    ensures |r| == 0 || |r[|r| - 1]| > 0
    ensures forall k | |r| <= k < |ps| :: ps[k] == []
  {
    if |ps| > 0 && ps[|ps| - 1] == [] then DropTrailingEmpty(ps[..|ps| - 1]) else ps
  }

  /** `join(sep)`: the pieces with one separator between neighbours. */
  function Join(ps: seq<string>, sep: char): (s: string)
    decreases |ps|
  {
    if ps == [] then [] else if |ps| == 1 then ps[0] else ps[0] + [sep] + Join(ps[1..], sep)
  }

  /** Joining the pieces restores the text they were cut from. */
  lemma {:induction false} JoinPieces(s: string, sep: char)
    ensures Join(Pieces(s, sep), sep) == s
    decreases |s|
  {
    var j := FindChar(s, sep, 0);
    if j < |s| {
      var rest := s[j + 1..];
      JoinPieces(rest, sep);
      assert Pieces(s, sep) == [s[..j]] + Pieces(rest, sep);
      assert s == s[..j] + [sep] + rest;
    }
  }

  /** Joining a list whose last piece is empty ends in a separator. */
  lemma {:induction false} JoinSnocEmpty(ps: seq<string>, sep: char)
    requires |ps| >= 2 && ps[|ps| - 1] == []
    ensures Join(ps, sep) == Join(ps[..|ps| - 1], sep) + [sep]
    decreases |ps|
  {
    if |ps| > 2 {
      JoinSnocEmpty(ps[1..], sep);
      assert ps[1..][..|ps| - 2] == ps[..|ps| - 1][1..];
      AppendAssoc(ps[0] + [sep], Join(ps[..|ps| - 1][1..], sep), [sep]);
    }
  }

  /** Dropping trailing empty pieces drops only separators from the join. */
  lemma {:induction false} JoinDropTrailing(ps: seq<string>, sep: char)
    requires ps != []
    ensures var r := DropTrailingEmpty(ps);
      && Join(r, sep) <= Join(ps, sep)
      && forall k | |Join(r, sep)| <= k < |Join(ps, sep)| :: Join(ps, sep)[k] == sep
    decreases |ps|
  {
    var r := DropTrailingEmpty(ps);
    if r != ps {
      var q := ps[..|ps| - 1];
      if q == [] {
        assert ps == [[]];
      } else {
        JoinDropTrailing(q, sep);
        JoinSnocEmpty(ps, sep);
      }
    }
  }

  /** `split(sep)` for a one-character, non-blank separator: the pieces
      between separators with trailing empty pieces removed. */
  function SplitOn(s: string, sep: char): (ps: seq<string>)
    ensures forall p | p in ps :: sep !in p
    ensures sep !in s && |s| > 0 ==> ps == [s]
    ensures ps == [] <==> forall k | 0 <= k < |s| :: s[k] == sep
    ensures ps != [] ==> |ps[|ps| - 1]| > 0 && Join(ps, sep) <= s
    ensures forall k | |Join(ps, sep)| <= k < |s| :: s[k] == sep
  {
    var pieces := Pieces(s, sep);
    JoinPieces(s, sep);
    JoinDropTrailing(pieces, sep);
    var ps := DropTrailingEmpty(pieces);
    assert ps == [] ==> |Join(ps, sep)| == 0;
    assert ps != [] ==> s[|Join(ps, sep)| - 1] != sep by {
      if ps != [] {
        var j, last := Join(ps, sep), ps[|ps| - 1];
        JoinLast(ps, sep);
        assert s[|j| - 1] == last[|last| - 1];
        assert sep !in last;
      }
    }
    ps
  }

  /** A join ends with its last piece. */
  lemma {:induction false} JoinLast(ps: seq<string>, sep: char)
    requires ps != []
    ensures var j, last := Join(ps, sep), ps[|ps| - 1]; |last| <= |j| && j[|j| - |last|..] == last
    decreases |ps|
  {
    if |ps| > 1 {
      JoinLast(ps[1..], sep);
      var j, t := Join(ps, sep), Join(ps[1..], sep);
      assert j == ps[0] + [sep] + t;
      assert j[|j| - |t|..] == t;
    }
  }

  /** The first separator of `a + [sep] + b` is the one after `a`. */
  lemma PiecesOfJoin(a: string, sep: char, b: string)
    requires sep !in a
    ensures Pieces(a + [sep] + b, sep) == [a] + Pieces(b, sep)
  {
    var s := a + [sep] + b;
    assert s[|a|] == sep;
    assert forall k | 0 <= k < |a| :: s[k] == a[k];
    assert FindChar(s, sep, 0) == |a|;
    assert s[..|a|] == a && s[|a| + 1..] == b;
  }

  lemma PiecesOfPlain(a: string, sep: char)
    requires sep !in a
    ensures Pieces(a, sep) == [a]
  {
  }

  /** Cutting joined pieces at the separator gives the pieces back. */
  lemma {:induction false} PiecesOfJoinAll(ps: seq<string>, sep: char)
    requires ps != [] && forall k | 0 <= k < |ps| :: sep !in ps[k]
    ensures Pieces(Join(ps, sep), sep) == ps
    decreases |ps|
  {
    if |ps| == 1 {
      PiecesOfPlain(ps[0], sep);
    } else {
      PiecesOfJoinAll(ps[1..], sep);
      PiecesOfJoin(ps[0], sep, Join(ps[1..], sep));
    }
  }

  /** `split` undoes `join` when no piece holds the separator and the last
      one is not empty. */
  lemma SplitOnOfJoin(ps: seq<string>, sep: char)
    requires ps != [] && forall k | 0 <= k < |ps| :: sep !in ps[k]
    requires |ps[|ps| - 1]| > 0
    ensures SplitOn(Join(ps, sep), sep) == ps
  {
    PiecesOfJoinAll(ps, sep);
  }

  /** `split` cuts a two-field string back into its fields. */
  lemma SplitOnPair(a: string, sep: char, b: string)
    requires sep !in a && sep !in b && |b| > 0
    ensures SplitOn(a + [sep] + b, sep) == [a, b]
  {
    PiecesOfJoin(a, sep, b);
    PiecesOfPlain(b, sep);
  }

  // ---------------------------------------------------------------------------
  // Searching

  predicate Contains(s: string, sub: string)
  {
    exists i | 0 <= i <= |s| - |sub| :: sub <= s[i..]
  }

  // ---------------------------------------------------------------------------
  // Numbers

  /** Value of a string of decimal digits, most significant first. */
  function NumberValue(ds: string): (n: nat)
    requires AllDigits(ds)
    ensures |ds| == 0 ==> n == 0
  {
    if ds == [] then 0
    else NumberValue(ds[..|ds| - 1]) * 10 + ((ds[|ds| - 1] as int) - ('0' as int))
  }

  /** Length of the run of digits that starts `s`. */
  function DigitRun(s: string): (n: nat)
    ensures n <= |s| && AllDigits(s[..n])
    ensures n < |s| ==> !IsDigit(s[n])
  {
    if |s| > 0 && IsDigit(s[0]) then
      var m := DigitRun(s[1..]);
      assert s[..1 + m] == [s[0]] + s[1..][..m];
      1 + m
    else 0
  }

  /** `to_i` on strings that begin with a plain decimal number: the value of
      the leading digits, 0 when there are none. Ruby's `to_i` also skips
      leading whitespace and reads a sign; this one does not, so `ToI(" 6")`
      is 0. */
  function ToI(s: string): (n: nat)
    ensures AllDigits(s) ==> n == NumberValue(s)
  {
    var d := DigitRun(s);
    assert AllDigits(s) ==> d == |s| && s[..d] == s;
    NumberValue(s[..d])
  }

  lemma {:induction false} DigitRunOf(d: string, rest: string)
    requires AllDigits(d) && (rest == [] || !IsDigit(rest[0]))
    ensures DigitRun(d + rest) == |d|
  {
    if d != [] {
      assert (d + rest)[1..] == d[1..] + rest;
      DigitRunOf(d[1..], rest);
    }
  }

  /** `to_i` reads the digits that lead the string and stops at the first
      other character. */
  lemma ToIOfDigitsThen(d: string, rest: string)
    requires AllDigits(d) && (rest == [] || !IsDigit(rest[0]))
    ensures ToI(d + rest) == NumberValue(d)
  {
    DigitRunOf(d, rest);
    assert (d + rest)[..|d|] == d;
  }

  /** `Integer(s)` for decimal strings: a non-empty digit string without a
      leading zero (or "0" itself); anything else is an error. */
  function ParseInteger(s: string): (r: Option<nat>)
    ensures r.Some? <==> |s| > 0 && AllDigits(s) && (s[0] != '0' || |s| == 1)
    ensures r.Some? ==> r.value == NumberValue(s)
    ensures r.Some? <==> exists n: nat :: s == ShowNat(n)
    ensures r.Some? ==> s == ShowNat(r.value)
  {
    if |s| > 0 && AllDigits(s) && (s[0] != '0' || |s| == 1) then
      ShowNatOfCanonical(s);
      Some(NumberValue(s))
    else
      assert forall n: nat :: s != ShowNat(n) by {
        forall n: nat
          ensures s != ShowNat(n)
        {
          ShowNatCanonical(n);
        }
      }
      None
  }

  /** A decimal rendering has no leading zero unless it is "0". */
  lemma ShowNatCanonical(n: nat)
    ensures var s := ShowNat(n); s[0] != '0' || |s| == 1
  {
  }

  /** A non-empty digit string that starts with a digit other than 0 has a
      positive value. */
  lemma {:induction false} PositiveValue(s: string)
    requires |s| > 0 && AllDigits(s) && s[0] != '0'
    ensures NumberValue(s) > 0
    decreases |s|
  {
    if |s| > 1 {
      PositiveValue(s[..|s| - 1]);
    }
  }

  /** A digit string without a leading zero is the rendering of its value:
      the converse of `ShowNatRoundTrip`. */
  lemma {:induction false} ShowNatOfCanonical(s: string)
    requires |s| > 0 && AllDigits(s) && (s[0] != '0' || |s| == 1)
    ensures ShowNat(NumberValue(s)) == s
    decreases |s|
  {
    var n := NumberValue(s);
    var d := s[|s| - 1] as int - '0' as int;
    if |s| > 1 {
      var p := s[..|s| - 1];
      var m := NumberValue(p);
      PositiveValue(p);
      ShowNatOfCanonical(p);
      assert n == m * 10 + d && 0 <= d < 10;
      assert n / 10 == m && n % 10 == d;
      ShowNatLast(n);
      assert s == p + [s[|s| - 1]];
    }
  }

  /** Decimal rendering of a natural number, the inverse of `NumberValue`. */
  function ShowNat(n: nat): (s: string)
    ensures |s| > 0 && AllDigits(s)
    ensures s[0] != '0' || n == 0
    decreases n
  {
    var d := ['0' + (n % 10) as char];
    if n < 10 then d else ShowNat(n / 10) + d
  }

  lemma AppendAssoc<T>(a: seq<T>, b: seq<T>, c: seq<T>)
    ensures a + (b + c) == a + b + c
  {
  }

  /** A short sequence is the display of its elements. */
  lemma TwoOf<T>(s: seq<T>, a: T, b: T)
    requires |s| == 2 && s[0] == a && s[1] == b
    ensures s == [a, b]
  {
  }

  lemma ThreeOf<T>(s: seq<T>, a: T, b: T, c: T)
    requires |s| == 3 && s[0] == a && s[1] == b && s[2] == c
    ensures s == [a, b, c]
  {
  }

  lemma FourOf<T>(s: seq<T>, a: T, b: T, c: T, d: T)
    requires |s| == 4 && s[0] == a && s[1] == b && s[2] == c && s[3] == d
    ensures s == [a, b, c, d]
  {
  }

  lemma FiveOf<T>(s: seq<T>, a: T, b: T, c: T, d: T, e: T)
    requires |s| == 5 && s[0] == a && s[1] == b && s[2] == c && s[3] == d && s[4] == e
    ensures s == [a, b, c, d, e]
  {
  }

  /** `ShowNat` writes the last digit after the others. */
  lemma ShowNatLast(n: nat)
    requires n >= 10
    ensures ShowNat(n) == ShowNat(n / 10) + ['0' + (n % 10) as char]
  {
  }

  lemma {:induction false} ShowNatRoundTrip(n: nat)
    ensures NumberValue(ShowNat(n)) == n
    ensures ParseInteger(ShowNat(n)) == Some(n)
    decreases n
  {
    var s := ShowNat(n);
    if n >= 10 {
      ShowNatRoundTrip(n / 10);
      assert s[..|s| - 1] == ShowNat(n / 10);
    }
  }

  lemma ToIOfShowNat(n: nat)
    ensures ToI(ShowNat(n)) == n
  {
    ShowNatRoundTrip(n);
  }
}

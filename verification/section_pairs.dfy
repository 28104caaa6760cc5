/** Day 4: each line names the sections two elves clean, as two inclusive
    ranges "a-b,c-d"; a pair counts when one range covers the other. */
module SectionPairs {
  import opened Wrappers
  import opened Text

  /** `Range.new(start, stop)`: the sections `start..stop`, both ends
      included. */
  datatype Span = Span(start: nat, stop: nat)

  datatype Pair = Pair(left: Span, right: Span)

  predicate Ordered(r: Span) {
    r.start <= r.stop
  }

  /** Whether section `i` is one the range names. */
  predicate Names(r: Span, i: nat) {
    r.start <= i <= r.stop
  }

  /** Every section `inner` names, `outer` names too. */
  ghost predicate Includes(outer: Span, inner: Span) {
    forall i: nat :: Names(inner, i) ==> Names(outer, i)
  }

  // ---------------------------------------------------------------------------
  // Parsing

  /** The `k`-th field of a split, or "" where Ruby's destructuring yields
      nil; both read as 0 under `to_i`. */
  function Field(fields: seq<string>, k: nat): string {
    if k < |fields| then fields[k] else ""
  }

  /** `parse_range`: `start, stop = elf.split("-")`, each read by `to_i`. */
  function ParseSpan(elf: string): (r: Span)
    ensures r.start == ToI(Field(SplitOn(elf, '-'), 0))
    ensures r.stop == ToI(Field(SplitOn(elf, '-'), 1))
  {
    var fields := SplitOn(elf, '-');
    Span(ToI(Field(fields, 0)), ToI(Field(fields, 1)))
  }

  /** `left` and `right`: the first and the last comma-separated part. A
      line with no part at all leaves `parts.first` nil, and `split` on nil
      fails. */
  function ParsePair(line: string): (r: Option<Pair>)
    ensures r.None? <==> SplitOn(line, ',') == []
  {
    var parts := SplitOn(line, ',');
    if parts == [] then None
    else Some(Pair(ParseSpan(parts[0]), ParseSpan(parts[|parts| - 1])))
  }

  // ---------------------------------------------------------------------------
  // Overlap

  /** `outer.cover?(inner)` with a range argument: the inner range is not
      reversed, its first section lies in `outer`, and it ends no later
      than `outer`. */
  predicate Covers(outer: Span, inner: Span) {
    Ordered(inner) && outer.start <= inner.start <= outer.stop && inner.stop <= outer.stop
  }

  /** `complete_overlap?`. */
  predicate CompleteOverlap(p: Pair) {
    Covers(p.left, p.right) || Covers(p.right, p.left)
  }

  /** Covering is containment of the sections named, for an inner range
      that names any section; a reversed inner range is never covered. */
  lemma CoversIsSubset(outer: Span, inner: Span)
    ensures Covers(outer, inner) <==> Ordered(inner) && Includes(outer, inner)
  {
    if Ordered(inner) && Includes(outer, inner) {
      assert Names(inner, inner.start) && Names(inner, inner.stop);
    }
  }

  /** A pair overlaps completely iff one elf's range is not reversed and
      the other's sections include it. */
  lemma CompleteOverlapIsContainment(p: Pair)
    ensures CompleteOverlap(p) <==>
      (Ordered(p.right) && Includes(p.left, p.right)) || (Ordered(p.left) && Includes(p.right, p.left))
  {
    CoversIsSubset(p.left, p.right);
    CoversIsSubset(p.right, p.left);
  }

  /** Swapping the two elves does not change the answer, and an elf paired
      with the same range overlaps completely. */
  lemma CompleteOverlapSymmetric(a: Span, b: Span)
    ensures CompleteOverlap(Pair(a, b)) == CompleteOverlap(Pair(b, a))
    ensures Ordered(a) && Ordered(b) && (a.start == b.start || a.stop == b.stop) ==>
      CompleteOverlap(Pair(a, b))
  {
  }

  // ---------------------------------------------------------------------------
  // Counting

  /** Every line of the input, parsed; a line without parts fails. */
  function ParseAll(lines: seq<string>): (r: Option<seq<Pair>>)
    ensures r.Some? ==> |r.value| == |lines|
    ensures r.Some? ==> forall k | 0 <= k < |lines| :: ParsePair(lines[k]) == Some(r.value[k])
    ensures r.None? <==> exists k | 0 <= k < |lines| :: ParsePair(lines[k]).None?
  {
    var parsed := seq(|lines|, k requires 0 <= k < |lines| => ParsePair(lines[k]));
    var r := AllSome(parsed);
    assert r.None? ==> exists k | 0 <= k < |lines| :: ParsePair(lines[k]).None? by {
      if r.None? {
        var k :| 0 <= k < |parsed| && parsed[k].None?;
        assert ParsePair(lines[k]).None?;
      }
    }
    r
  }

  /** `count(&:complete_overlap?)` over the first `n` pairs. */
  function CountPairs(ps: seq<Pair>, n: nat): (c: nat)
    requires n <= |ps|
    ensures c <= n
  {
    if n == 0 then 0
    else CountPairs(ps, n - 1) + if CompleteOverlap(ps[n - 1]) then 1 else 0
  }

  /** `CountOverlaps.call` over the lines `each_line` yields. */
  function CountOverlaps(lines: seq<string>): (r: Option<nat>)
    ensures r.Some? ==> r.value <= |lines|
    ensures r.None? <==> exists k | 0 <= k < |lines| :: ParsePair(lines[k]).None?
  {
    var ps :- ParseAll(lines);
    Some(CountPairs(ps, |ps|))
  }

  /** The positions of the pairs that overlap completely. */
  function OverlapIndices(ps: seq<Pair>, n: nat): set<nat>
    requires n <= |ps|
  {
    set k: nat | k < n && CompleteOverlap(ps[k])
  }

  /** The count is the number of pairs that overlap completely. */
  lemma {:induction false} CountIsOverlapIndices(ps: seq<Pair>, n: nat)
    requires n <= |ps|
    ensures CountPairs(ps, n) == |OverlapIndices(ps, n)|
  {
    if n == 0 {
      assert OverlapIndices(ps, n) == {};
    } else {
      CountIsOverlapIndices(ps, n - 1);
      if CompleteOverlap(ps[n - 1]) {
        assert OverlapIndices(ps, n) == OverlapIndices(ps, n - 1) + {n - 1};
      } else {
        assert OverlapIndices(ps, n) == OverlapIndices(ps, n - 1);
      }
    }
  }

  // ---------------------------------------------------------------------------
  // Writing a pair back

  function ShowSpan(r: Span): string {
    ShowNat(r.start) + "-" + ShowNat(r.stop)
  }

  /** The line a pair is written as. */
  function ShowPair(p: Pair): string {
    ShowSpan(p.left) + "," + ShowSpan(p.right) + "\n"
  }

  lemma ShowNatHasNoSeparator(n: nat, c: char)
    requires !IsDigit(c)
    ensures c !in ShowNat(n)
  {
  }

  lemma ParseSpanOfShow(r: Span, rest: string)
    requires rest == [] || rest == "\n"
    ensures ParseSpan(ShowSpan(r) + rest) == r
  {
    var a, b := ShowNat(r.start), ShowNat(r.stop) + rest;
    ShowNatHasNoSeparator(r.start, '-');
    ShowNatHasNoSeparator(r.stop, '-');
    assert '-' !in b;
    SplitOnPair(a, '-', b);
    assert ShowSpan(r) + rest == a + ['-'] + b;
    ShowNatRoundTrip(r.start);
    ShowNatRoundTrip(r.stop);
    assert ToI(a) == r.start;
    ToIOfDigitsThen(ShowNat(r.stop), rest);
  }

  /** A range written without its "-" and second number reads as ending at
      0, since `stop` is nil and `nil.to_i` is 0. */
  lemma ParseSpanOfOneField(n: nat, rest: string)
    requires rest == [] || rest == "\n"
    ensures ParseSpan(ShowNat(n) + rest) == Span(n, 0)
  {
    var a := ShowNat(n) + rest;
    ShowNatHasNoSeparator(n, '-');
    assert '-' !in a;
    assert SplitOn(a, '-') == [a];
    ShowNatRoundTrip(n);
    ToIOfDigitsThen(ShowNat(n), rest);
  }

  /** Parsing a written pair gives the pair back, with or without the
      line's "\n". */
  lemma ParsePairOfShow(p: Pair)
    ensures ParsePair(ShowPair(p)) == Some(p)
    ensures ParsePair(ShowSpan(p.left) + "," + ShowSpan(p.right)) == Some(p)
  {
    ParsePairOfShowWith(p, "\n");
    ParsePairOfShowWith(p, []);
    assert ShowSpan(p.left) + "," + ShowSpan(p.right) + [] == ShowSpan(p.left) + "," + ShowSpan(p.right);
  }

  lemma ParsePairOfShowWith(p: Pair, rest: string)
    requires rest == [] || rest == "\n"
    ensures ParsePair(ShowSpan(p.left) + "," + ShowSpan(p.right) + rest) == Some(p)
  {
    var a, b := ShowSpan(p.left), ShowSpan(p.right) + rest;
    ShowNatHasNoSeparator(p.left.start, ',');
    ShowNatHasNoSeparator(p.left.stop, ',');
    ShowNatHasNoSeparator(p.right.start, ',');
    ShowNatHasNoSeparator(p.right.stop, ',');
    assert ',' !in a && ',' !in b;
    SplitOnPair(a, ',', b);
    assert ShowSpan(p.left) + "," + ShowSpan(p.right) + rest == a + [','] + b;
    ParseSpanOfShow(p.left, []);
    assert a + [] == a;
    ParseSpanOfShow(p.right, rest);
  }

  // ---------------------------------------------------------------------------
  // Fixtures

  lemma ShowFixture()
    ensures ShowSpan(Span(2, 4)) + "," + ShowSpan(Span(6, 8)) == "2-4,6-8"
  {
  }

  lemma ParseFixture(line: string)
    requires line == "2-4,6-8"
    ensures ParsePair(line) == Some(Pair(Span(2, 4), Span(6, 8)))
  {
    ShowFixture();
    ParsePairOfShow(Pair(Span(2, 4), Span(6, 8)));
  }

  lemma OverlapFixtures()
    ensures CompleteOverlap(Pair(Span(2, 6), Span(3, 4)))
    ensures CompleteOverlap(Pair(Span(3, 4), Span(2, 6)))
    ensures !CompleteOverlap(Pair(Span(2, 6), Span(4, 8)))
  {
  }

  /** The pairs of the six example lines. */
  function ExamplePairs(): seq<Pair> {
    [ Pair(Span(2, 4), Span(6, 8)), Pair(Span(2, 3), Span(4, 5)), Pair(Span(5, 7), Span(7, 9)),
      Pair(Span(2, 8), Span(3, 7)), Pair(Span(6, 6), Span(4, 6)), Pair(Span(2, 6), Span(4, 8)) ]
  }

  lemma ExampleLinesShown(lines: seq<string>)
    requires |lines| == 6
    requires lines[0] == "2-4,6-8\n" && lines[1] == "2-3,4-5\n" && lines[2] == "5-7,7-9\n"
    requires lines[3] == "2-8,3-7\n" && lines[4] == "6-6,4-6\n" && lines[5] == "2-6,4-8\n"
    ensures forall k | 0 <= k < 6 :: lines[k] == ShowPair(ExamplePairs()[k])
  {
  }

  lemma ParseExample(lines: seq<string>)
    requires |lines| == 6
    requires forall k | 0 <= k < 6 :: lines[k] == ShowPair(ExamplePairs()[k])
    ensures forall k | 0 <= k < 6 :: ParsePair(lines[k]) == Some(ExamplePairs()[k])
    ensures ParseAll(lines) == Some(ExamplePairs())
  {
    var ps := ExamplePairs();
    forall k | 0 <= k < 6
      ensures ParsePair(lines[k]) == Some(ps[k])
    {
      ParsePairOfShow(ps[k]);
    }
    assert ParseAll(lines).value == ps;
  }

  lemma CountExamplePairs()
    ensures CountPairs(ExamplePairs(), 6) == 2
  {
  }

  /** Two of the six example pairs overlap completely. */
  lemma CountFixture(lines: seq<string>)
    requires |lines| == 6
    requires lines[0] == "2-4,6-8\n" && lines[1] == "2-3,4-5\n" && lines[2] == "5-7,7-9\n"
    requires lines[3] == "2-8,3-7\n" && lines[4] == "6-6,4-6\n" && lines[5] == "2-6,4-8\n"
    ensures forall k | 0 <= k < 6 :: ParsePair(lines[k]) == Some(ExamplePairs()[k])
    ensures CountOverlaps(lines) == Some(2)
  {
    ExampleLinesShown(lines);
    ParseExample(lines);
    CountExamplePairs();
  }
}

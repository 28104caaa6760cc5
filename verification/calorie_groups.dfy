/** Calorie counting as `day1/code.rb` does it: the input's lines are cut
    into one group per elf after every blank line, each group's numbers are
    added up, and the totals are searched for the largest and the three
    largest. */
module CalorieGroups {
  import opened Wrappers
  import opened Text
  import opened Sums

  /** `input.lines(chomp: true)`. */
  function Lines(input: string): seq<string> {
    var ls := EachLine(input);
    seq(|ls|, k requires 0 <= k < |ls| => Chomp(ls[k]))
  }

  /** Text written as one "\n"-terminated line per entry, none ending in
      "\r\n", reads back as those entries without their "\n". */
  lemma LinesOfJoin(ls: seq<string>)
    requires Terminated(ls)
    requires forall i | 0 <= i < |ls| :: |ls[i]| < 2 || ls[i][|ls[i]| - 2] != '\r'
    ensures |Lines(Concat(ls))| == |ls|
    ensures forall k | 0 <= k < |ls| :: Lines(Concat(ls))[k] == ls[k][..|ls[k]| - 1]
  {
    EachLineOfConcat(ls);
  }

  function Flatten(gs: seq<seq<string>>): (ls: seq<string>)
    ensures gs != [] ==> |ls| >= |gs[0]|
  {
    if gs == [] then [] else gs[0] + Flatten(gs[1..])
  }

  /** What `slice_when { |line, _| line.empty? }` promises of its result:
      the groups put back together give the lines, no group is empty, a
      blank line only ever closes a group, and every group but the last is
      closed by one. */
  predicate IsSlicing(lines: seq<string>, gs: seq<seq<string>>) {
    && Flatten(gs) == lines
    && (forall i | 0 <= i < |gs| :: |gs[i]| > 0)
    && (forall i, k | 0 <= i < |gs| && 0 <= k < |gs[i]| - 1 :: gs[i][k] != "")
    && (forall i | 0 <= i < |gs| - 1 :: gs[i][|gs[i]| - 1] == "")
  }

  /** `slice_when { |line, _| line.empty? }`: a new group starts after each
      blank line. */
  function SliceAfterBlank(lines: seq<string>): (gs: seq<seq<string>>)
    ensures IsSlicing(lines, gs)
  {
    if lines == [] then []
    else if |lines| == 1 then [lines]
    else
      var rest := SliceAfterBlank(lines[1..]);
      if lines[0] == "" then
        SlicingAfterBlank(lines, rest);
        [[lines[0]]] + rest
      else
        SlicingJoins(lines, rest);
        [[lines[0]] + rest[0]] + rest[1..]
  }

  /** A blank first line is a group of its own. */
  lemma SlicingAfterBlank(lines: seq<string>, rest: seq<seq<string>>)
    requires |lines| > 1 && lines[0] == "" && IsSlicing(lines[1..], rest)
    ensures IsSlicing(lines, [[lines[0]]] + rest)
  {
    var gs := [[lines[0]]] + rest;
    assert gs[1..] == rest;
    assert lines == [lines[0]] + lines[1..];
  }

  /** Any other first line opens the group that follows it. */
  lemma SlicingJoins(lines: seq<string>, rest: seq<seq<string>>)
    requires |lines| > 1 && lines[0] != "" && IsSlicing(lines[1..], rest)
    ensures rest != [] && IsSlicing(lines, [[lines[0]] + rest[0]] + rest[1..])
  {
    var gs := [[lines[0]] + rest[0]] + rest[1..];
    assert Flatten(rest) == rest[0] + Flatten(rest[1..]);
    assert gs[1..] == rest[1..];
    assert lines == [lines[0]] + lines[1..];
    assert forall i | 1 <= i < |gs| :: gs[i] == rest[i];
  }

  /** A slicing of the lines is unique: whatever grouping meets the promise
      is the one `slice_when` builds. */
  lemma {:induction false} SlicingIsUnique(lines: seq<string>, gs: seq<seq<string>>)
    requires IsSlicing(lines, gs)
    ensures gs == SliceAfterBlank(lines)
    decreases |lines|
  {
    if lines != [] {
      var g := gs[0];
      assert lines == g + Flatten(gs[1..]);
      assert g[0] == lines[0];
      if |g| == 1 && |gs| > 1 {
        assert |Flatten(gs[1..])| >= |gs[1]| > 0;
        assert Flatten(gs[1..]) == lines[1..];
        assert IsSlicing(lines[1..], gs[1..]);
        SlicingIsUnique(lines[1..], gs[1..]);
        assert gs == [g] + gs[1..];
      } else if |g| > 1 {
        var gs' := [g[1..]] + gs[1..];
        assert gs'[1..] == gs[1..];
        assert Flatten(gs') == lines[1..];
        assert IsSlicing(lines[1..], gs');
        SlicingIsUnique(lines[1..], gs');
        assert g == [g[0]] + g[1..];
        assert gs == [g] + gs[1..];
      }
    }
  }

  /** Blank lines that are followed by another line. */
  function Separators(lines: seq<string>): nat {
    if |lines| <= 1 then 0
    else (if lines[0] == "" then 1 else 0) + Separators(lines[1..])
  }

  /** There is one group more than there are blank lines inside the input. */
  lemma {:induction false} GroupCount(lines: seq<string>)
    ensures |SliceAfterBlank(lines)| == if lines == [] then 0 else 1 + Separators(lines)
  {
    if |lines| > 1 {
      GroupCount(lines[1..]);
    }
  }

  /** `map(&:to_i)`. */
  function Numbers(ls: seq<string>): (ns: seq<int>)
    ensures |ns| == |ls|
  {
    seq(|ls|, k requires 0 <= k < |ls| => ToI(ls[k]) as int)
  }

  /** One total per group, `foods.map(&:to_i).sum`. */
  function Totals(gs: seq<seq<string>>): (ts: seq<int>)
    ensures |ts| == |gs|
    ensures forall i | 0 <= i < |gs| :: ts[i] == Sum(Numbers(gs[i]))
  {
    seq(|gs|, i requires 0 <= i < |gs| => Sum(Numbers(gs[i])))
  }

  /** `CountCalories.call`. */
  function CountCalories(input: string): seq<int> {
    Totals(SliceAfterBlank(Lines(input)))
  }

  /** Grouping neither loses nor counts twice: the group totals add up to the
      sum over every line. */
  lemma {:induction false} TotalsAddUp(gs: seq<seq<string>>)
    ensures Sum(Totals(gs)) == Sum(Numbers(Flatten(gs)))
    decreases |gs|
  {
    if gs != [] {
      var front, last := gs[..|gs| - 1], gs[|gs| - 1];
      assert gs == front + [last];
      calc {
        Sum(Totals(gs));
        { assert Totals(gs)[..|gs| - 1] == Totals(front); }
        Sum(Totals(front)) + Sum(Numbers(last));
        { TotalsAddUp(front); }
        Sum(Numbers(Flatten(front))) + Sum(Numbers(last));
        { SumAppend(Numbers(Flatten(front)), Numbers(last)); NumbersAppend(Flatten(front), last); }
        Sum(Numbers(Flatten(front) + last));
        { FlattenSnoc(front, last); }
        Sum(Numbers(Flatten(gs)));
      }
    }
  }

  lemma NumbersAppend(a: seq<string>, b: seq<string>)
    ensures Numbers(a + b) == Numbers(a) + Numbers(b)
  {
    assert forall k | 0 <= k < |a| + |b| :: Numbers(a + b)[k] == (Numbers(a) + Numbers(b))[k];
  }

  lemma {:induction false} FlattenSnoc(gs: seq<seq<string>>, g: seq<string>)
    ensures Flatten(gs + [g]) == Flatten(gs) + g
    decreases |gs|
  {
    if gs == [] {
      assert Flatten([g][1..]) == [];
    } else {
      assert (gs + [g])[1..] == gs[1..] + [g];
      FlattenSnoc(gs[1..], g);
    }
  }

  /** Every elf's calories are counted: the totals add up to the sum of every
      number in the input, and there is one total per elf. */
  lemma CountCaloriesAccounts(input: string)
    ensures Sum(CountCalories(input)) == Sum(Numbers(Lines(input)))
    ensures |CountCalories(input)| ==
      if Lines(input) == [] then 0 else 1 + Separators(Lines(input))
  {
    TotalsAddUp(SliceAfterBlank(Lines(input)));
    GroupCount(Lines(input));
  }

  /** `FindMax.call`: nil when there are no totals. */
  function FindMax(totals: seq<int>): (r: Option<int>)
    ensures r.None? <==> totals == []
    ensures r.Some? ==> r.value in totals && forall k | 0 <= k < |totals| :: totals[k] <= r.value
  {
    Max(totals)
  }

  /** `FindTopThree.call`. */
  function FindTopThree(totals: seq<int>): (r: int)
    ensures exists top: seq<int> ::
      && |top| == (if |totals| < 3 then |totals| else 3)
      && multiset(top) <= multiset(totals)
      && r == Sum(top)
      && forall a, b | a in multiset(totals) - multiset(top) && b in top :: a <= b
  {
    TopThreeIsLargest(totals);
    TopThree(totals)
  }

  /** Calorie totals are never negative, so the three largest together hold
      at least as much as the largest. */
  lemma TopThreeHoldsTheMost(input: string)
    requires CountCalories(input) != []
    ensures FindTopThree(CountCalories(input)) >= FindMax(CountCalories(input)).value
  {
    var ts := CountCalories(input);
    forall i | 0 <= i < |ts|
      ensures ts[i] >= 0
    {
      var g := SliceAfterBlank(Lines(input))[i];
      SumNonNegative(Numbers(g));
    }
    TopThreeAtLeastMax(ts);
  }

  // ---------------------------------------------------------------------------
  // The worked example

  function ExampleGroups(): seq<seq<string>> {
    [["1000", "2000", "3000", ""], ["4000", ""], ["5000", "6000", ""],
     ["7000", "8000", "9000", ""], ["10000"]]
  }

  lemma SliceExample(lines: seq<string>)
    requires lines == ["1000", "2000", "3000", "", "4000", "", "5000", "6000", "",
                       "7000", "8000", "9000", "", "10000"]
    ensures SliceAfterBlank(lines) == ExampleGroups()
  {
    assert IsSlicing(lines, ExampleGroups());
    SlicingIsUnique(lines, ExampleGroups());
  }

  lemma ReadsAs(s: string, n: nat)
    requires s == ShowNat(n)
    ensures ToI(s) == n
  {
    ToIOfShowNat(n);
  }

  lemma NumbersOf(g: seq<string>, ns: seq<int>)
    requires |g| == |ns| && forall k | 0 <= k < |g| :: ToI(g[k]) == ns[k]
    ensures Numbers(g) == ns
  {
  }

  lemma GroupOne(g: seq<string>)
    requires |g| == 4 && g[0] == "1000" && g[1] == "2000" && g[2] == "3000" && g[3] == ""
    ensures Sum(Numbers(g)) == 6000
  {
    ReadsAs(g[0], 1000);
    ReadsAs(g[1], 2000);
    ReadsAs(g[2], 3000);
    NumbersOf(g, [1000, 2000, 3000, 0]);
    SumOfFour(1000, 2000, 3000, 0);
  }

  lemma GroupTwo(g: seq<string>)
    requires |g| == 2 && g[0] == "4000" && g[1] == ""
    ensures Sum(Numbers(g)) == 4000
  {
    ReadsAs(g[0], 4000);
    NumbersOf(g, [4000, 0]);
    SumOfThree(0, 4000, 0);
    assert [0, 4000, 0][..2] == [0, 4000];
  }

  lemma GroupThree(g: seq<string>)
    requires |g| == 3 && g[0] == "5000" && g[1] == "6000" && g[2] == ""
    ensures Sum(Numbers(g)) == 11000
  {
    ReadsAs(g[0], 5000);
    ReadsAs(g[1], 6000);
    NumbersOf(g, [5000, 6000, 0]);
    SumOfThree(5000, 6000, 0);
  }

  lemma GroupFour(g: seq<string>)
    requires |g| == 4 && g[0] == "7000" && g[1] == "8000" && g[2] == "9000" && g[3] == ""
    ensures Sum(Numbers(g)) == 24000
  {
    ReadsAs(g[0], 7000);
    ReadsAs(g[1], 8000);
    ReadsAs(g[2], 9000);
    NumbersOf(g, [7000, 8000, 9000, 0]);
    SumOfFour(7000, 8000, 9000, 0);
  }

  lemma GroupFive(g: seq<string>)
    requires |g| == 1 && g[0] == "10000"
    ensures Sum(Numbers(g)) == 10000
  {
    ReadsAs(g[0], 10000);
    NumbersOf(g, [10000]);
  }

  lemma ExampleTotals(gs: seq<seq<string>>)
    requires gs == ExampleGroups()
    ensures Totals(gs) == [6000, 4000, 11000, 24000, 10000]
  {
    GroupOne(gs[0]);
    GroupTwo(gs[1]);
    GroupThree(gs[2]);
    GroupFour(gs[3]);
    GroupFive(gs[4]);
    FiveOf(Totals(gs), 6000, 4000, 11000, 24000, 10000);
  }

  /** The example's fourteen lines, as `lines(chomp: true)` gives them. */
  lemma ExampleLines(ls: seq<string>)
    requires |ls| == 14
    requires ls[0] == "1000\n" && ls[1] == "2000\n" && ls[2] == "3000\n" && ls[3] == "\n"
    requires ls[4] == "4000\n" && ls[5] == "\n" && ls[6] == "5000\n" && ls[7] == "6000\n"
    requires ls[8] == "\n" && ls[9] == "7000\n" && ls[10] == "8000\n" && ls[11] == "9000\n"
    requires ls[12] == "\n" && ls[13] == "10000\n"
    ensures var lines := Lines(Concat(ls));
      && |lines| == 14
      && lines[0] == "1000" && lines[1] == "2000" && lines[2] == "3000" && lines[3] == ""
      && lines[4] == "4000" && lines[5] == "" && lines[6] == "5000" && lines[7] == "6000"
      && lines[8] == "" && lines[9] == "7000" && lines[10] == "8000" && lines[11] == "9000"
      && lines[12] == "" && lines[13] == "10000"
  {
    ExampleLinesTerminated(ls);
    LinesOfJoin(ls);
    ExampleBodies(ls, Lines(Concat(ls)));
  }

  /** Each example line without its final character. */
  lemma ExampleBodies(ls: seq<string>, lines: seq<string>)
    requires |ls| == 14
    requires ls[0] == "1000\n" && ls[1] == "2000\n" && ls[2] == "3000\n" && ls[3] == "\n"
    requires ls[4] == "4000\n" && ls[5] == "\n" && ls[6] == "5000\n" && ls[7] == "6000\n"
    requires ls[8] == "\n" && ls[9] == "7000\n" && ls[10] == "8000\n" && ls[11] == "9000\n"
    requires ls[12] == "\n" && ls[13] == "10000\n"
    requires |lines| == 14
    requires forall k | 0 <= k < 14 :: lines[k] == ls[k][..|ls[k]| - 1]
    ensures lines[0] == "1000" && lines[1] == "2000" && lines[2] == "3000" && lines[3] == ""
    ensures lines[4] == "4000" && lines[5] == "" && lines[6] == "5000" && lines[7] == "6000"
    ensures lines[8] == "" && lines[9] == "7000" && lines[10] == "8000" && lines[11] == "9000"
    ensures lines[12] == "" && lines[13] == "10000"
  {
  }

  lemma ExampleChomped(lines: seq<string>)
    requires |lines| == 14
    requires lines[0] == "1000" && lines[1] == "2000" && lines[2] == "3000" && lines[3] == ""
    requires lines[4] == "4000" && lines[5] == "" && lines[6] == "5000" && lines[7] == "6000"
    requires lines[8] == "" && lines[9] == "7000" && lines[10] == "8000" && lines[11] == "9000"
    requires lines[12] == "" && lines[13] == "10000"
    ensures SliceAfterBlank(lines) == ExampleGroups()
  {
    SliceExample(lines);
  }

  lemma ExampleLinesTerminated(ls: seq<string>)
    requires |ls| == 14
    requires ls[0] == "1000\n" && ls[1] == "2000\n" && ls[2] == "3000\n" && ls[3] == "\n"
    requires ls[4] == "4000\n" && ls[5] == "\n" && ls[6] == "5000\n" && ls[7] == "6000\n"
    requires ls[8] == "\n" && ls[9] == "7000\n" && ls[10] == "8000\n" && ls[11] == "9000\n"
    requires ls[12] == "\n" && ls[13] == "10000\n"
    ensures Terminated(ls)
    ensures forall i | 0 <= i < |ls| :: |ls[i]| < 2 || ls[i][|ls[i]| - 2] != '\r'
  {
  }

  /** The calorie totals of the worked example. */
  lemma CountExample(ls: seq<string>)
    requires |ls| == 14
    requires ls[0] == "1000\n" && ls[1] == "2000\n" && ls[2] == "3000\n" && ls[3] == "\n"
    requires ls[4] == "4000\n" && ls[5] == "\n" && ls[6] == "5000\n" && ls[7] == "6000\n"
    requires ls[8] == "\n" && ls[9] == "7000\n" && ls[10] == "8000\n" && ls[11] == "9000\n"
    requires ls[12] == "\n" && ls[13] == "10000\n"
    ensures CountCalories(Concat(ls)) == [6000, 4000, 11000, 24000, 10000]
  {
    ExampleLines(ls);
    ExampleChomped(Lines(Concat(ls)));
    ExampleTotals(SliceAfterBlank(Lines(Concat(ls))));
  }

  lemma FindMaxExample()
    ensures FindMax([6000, 4000, 11000, 24000, 10000]) == Some(24000)
  {
  }

  lemma SortExample(xs: seq<int>)
    requires xs == [6000, 4000, 11000, 24000, 10000]
    ensures Sort(xs) == [4000, 6000, 10000, 11000, 24000]
  {
    var s := [4000, 6000, 10000, 11000, 24000];
    ExamplePermutation(xs, s);
    assert Sorted(s);
    SortIs(xs, s);
  }

  /** The example's totals in order are the same totals. */
  lemma ExamplePermutation(xs: seq<int>, s: seq<int>)
    requires xs == [6000, 4000, 11000, 24000, 10000]
    requires s == [4000, 6000, 10000, 11000, 24000]
    ensures multiset(s) == multiset(xs)
  {
  }

  lemma TopOfSorted(s: seq<int>)
    requires s == [4000, 6000, 10000, 11000, 24000]
    ensures Sum(Last(s, 3)) == 45000
  {
    assert Last(s, 3) == [10000, 11000, 24000];
    SumOfThree(10000, 11000, 24000);
  }

  lemma FindTopThreeExample(xs: seq<int>)
    requires xs == [6000, 4000, 11000, 24000, 10000]
    ensures FindTopThree(xs) == 45000
  {
    SortExample(xs);
    TopOfSorted(Sort(xs));
  }
}

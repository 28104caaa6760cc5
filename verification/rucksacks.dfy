/** Day 3: every rucksack line splits into two equal compartments; the item
    type both compartments share is found by an ordered intersection, and
    its priority comes from a fixed table over the 52 letters. */
module Rucksacks {
  import opened Wrappers
  import opened Text
  import Sums

  // ---------------------------------------------------------------------------
  // Compartments

  /** `compartment_size`: half the contents, rounded down. */
  function CompartmentSize(contents: string): (n: nat)
    ensures 2 * n <= |contents| <= 2 * n + 1
  {
    |contents| / 2
  }

  function CompartmentOne(contents: string): (c: string)
    ensures |c| == CompartmentSize(contents)
  {
    contents[..CompartmentSize(contents)]
  }

  function CompartmentTwo(contents: string): (c: string)
    ensures |CompartmentOne(contents)| <= |c| <= |CompartmentOne(contents)| + 1
  {
    contents[CompartmentSize(contents)..]
  }

  /** The two compartments are the contents, cut once, with nothing lost. */
  lemma CompartmentsPartition(contents: string)
    ensures CompartmentOne(contents) + CompartmentTwo(contents) == contents
  {
    assert contents == contents[..CompartmentSize(contents)] + contents[CompartmentSize(contents)..];
  }

  // ---------------------------------------------------------------------------
  // The shared item

  /** Ruby's `a & b` on arrays: the elements of `a` that occur in `b`, in the
      order of their first occurrence in `a`, without repetitions. */
  function Intersection(a: seq<char>, b: seq<char>): (r: seq<char>)
    ensures forall k | 0 <= k < |r| :: r[k] in a && r[k] in b
    ensures forall k | 0 <= k < |a| :: a[k] in b ==> a[k] in r
    ensures forall j, k | 0 <= j < k < |r| :: r[j] != r[k]
    ensures forall j, k, i | 0 <= j < k < |r| && 0 <= i < |a| && a[i] == r[k] :: r[j] in a[..i]
  {
    if a == [] then []
    else
      var p := a[..|a| - 1];
      var rest := Intersection(p, b);
      var c := a[|a| - 1];
      assert forall k | 0 <= k < |a| - 1 :: a[k] == p[k];
      IntersectionOrderStep(a, p, b, rest, c);
      if c in b && c !in rest then rest + [c] else rest
  }

  /** Adding the last item of `a` keeps the result in the order of first
      occurrence in `a`. */
  lemma IntersectionOrderStep(a: seq<char>, p: seq<char>, b: seq<char>, rest: seq<char>, c: char)
    requires a != [] && p == a[..|a| - 1] && c == a[|a| - 1]
    requires forall k | 0 <= k < |rest| :: rest[k] in p
    requires forall j, k, i | 0 <= j < k < |rest| && 0 <= i < |p| && p[i] == rest[k] :: rest[j] in p[..i]
    requires c in p && c in b ==> c in rest
    ensures forall j, k, i | 0 <= j < k < |rest| && 0 <= i < |a| && a[i] == rest[k] :: rest[j] in a[..i]
    ensures c in b && c !in rest ==>
      forall j, k, i | 0 <= j < k < |rest| + 1 && 0 <= i < |a| && a[i] == (rest + [c])[k] :: (rest + [c])[j] in a[..i]
  {
    forall j, k, i | 0 <= j < k < |rest| && 0 <= i < |a| && a[i] == rest[k]
      ensures rest[j] in a[..i]
    {
      if i < |p| {
        assert p[i] == a[i];
        assert p[..i] == a[..i];
      } else {
        assert rest[j] in p;
        assert p == a[..i];
      }
    }
    if c in b && c !in rest {
      var r := rest + [c];
      forall j, k, i | 0 <= j < k < |r| && 0 <= i < |a| && a[i] == r[k]
        ensures r[j] in a[..i]
      {
        if k < |rest| {
          assert r[k] == rest[k] && r[j] == rest[j];
        } else {
          assert r[k] == c && r[j] == rest[j];
          assert c !in p;
          assert i == |p|;
          assert rest[j] in p;
          assert p == a[..i];
        }
      }
    }
  }

  /** `FindDuplicateItem`: the first element of the intersection, if any. */
  function FindDuplicate(contents: string): (r: Option<char>)
  {
    var common := Intersection(CompartmentOne(contents), CompartmentTwo(contents));
    if common == [] then None else Some(common[0])
  }

  /** Index of the first element of `a` that occurs in `b`; the reference
      reading of "the first item of compartment one also in compartment two". */
  function FirstShared(a: seq<char>, b: seq<char>): (r: Option<nat>)
    ensures r.Some? ==> r.value < |a| && a[r.value] in b
    ensures r.Some? ==> forall j | 0 <= j < r.value :: a[j] !in b
    ensures r.None? <==> forall k | 0 <= k < |a| :: a[k] !in b
  {
    if a == [] then None
    else if a[0] in b then Some(0)
    else
      var r := FirstShared(a[1..], b);
      if r.None? then None else Some(r.value + 1)
  }

  /** Dropping the last element of `a` keeps the intersection's head when that
      head is earlier in `a`. */
  lemma {:induction false} IntersectionHead(a: seq<char>, b: seq<char>)
    ensures FirstShared(a, b).None? <==> Intersection(a, b) == []
    ensures FirstShared(a, b).Some? ==> Intersection(a, b)[0] == a[FirstShared(a, b).value]
  {
    if a != [] {
      var p := a[..|a| - 1];
      IntersectionHead(p, b);
      var f, g := FirstShared(a, b), FirstShared(p, b);
      assert forall k | 0 <= k < |p| :: p[k] == a[k];
      if g.Some? {
        assert f.Some? && f.value <= g.value;
        assert f.value == g.value;
      } else {
        assert Intersection(p, b) == [];
      }
    }
  }

  /** The duplicate item is the first item of compartment one that also lies
      in compartment two, and there is none exactly when the two compartments
      share nothing. */
  lemma FindDuplicateIsFirstShared(contents: string)
    ensures var one, two := CompartmentOne(contents), CompartmentTwo(contents);
      && (FindDuplicate(contents).None? <==> forall k | 0 <= k < |one| :: one[k] !in two)
      && (FindDuplicate(contents).Some? ==>
            exists i | 0 <= i < |one| :: one[i] == FindDuplicate(contents).value
              && one[i] in two && forall j | 0 <= j < i :: one[j] !in two)
  {
    var one, two := CompartmentOne(contents), CompartmentTwo(contents);
    IntersectionHead(one, two);
    var f := FirstShared(one, two);
    if f.Some? {
      assert one[f.value] == FindDuplicate(contents).value;
    }
  }

  // ---------------------------------------------------------------------------
  // Priorities

  /** `(first..last).to_a` for a run of 26 letters: `first` and the 25
      characters after it. */
  function Alphabet(first: char): (s: string)
    requires first as int + 26 <= 0xD800
    ensures |s| == 26 && forall i | 0 <= i < 26 :: s[i] as int == first as int + i
  {
    seq(26, i requires 0 <= i < 26 => (first as int + i) as char)
  }

  /** The keys of `PRIORITIES`, in the order they are zipped with 1..52. */
  function Letters(): (s: string)
    ensures |s| == 52
    ensures forall i | 0 <= i < 26 :: s[i] as int == 'a' as int + i
    ensures forall i | 26 <= i < 52 :: s[i] as int == 'A' as int + i - 26
  {
    Alphabet('a') + Alphabet('A')
  }

  function IndexOf(s: string, c: char): (r: Option<nat>)
    ensures r.Some? ==> r.value < |s| && s[r.value] == c
    ensures r.Some? ==> forall j | 0 <= j < r.value :: s[j] != c
    ensures r.None? <==> c !in s
  {
    if s == [] then None
    else if s[0] == c then Some(0)
    else
      var r := IndexOf(s[1..], c);
      if r.None? then None else Some(r.value + 1)
  }

  /** `DeterminePriority`: the number zipped with the item's letter; `fetch`
      fails for any other item. */
  function Priority(c: char): (r: Option<nat>)
    ensures r.Some? <==> c in Letters()
  {
    var i := IndexOf(Letters(), c);
    if i.None? then None else Some(i.value + 1)
  }

  predicate IsLower(c: char) { 'a' <= c <= 'z' }
  predicate IsUpper(c: char) { 'A' <= c <= 'Z' }

  /** The table read as arithmetic: a..z are 1..26, A..Z are 27..52, and
      nothing else has a priority. */
  lemma PriorityOfLetter(c: char)
    ensures IsLower(c) ==> Priority(c) == Some(c as int - 'a' as int + 1)
    ensures IsUpper(c) ==> Priority(c) == Some(c as int - 'A' as int + 27)
    ensures !IsLower(c) && !IsUpper(c) ==> Priority(c) == None
  {
    var s := Letters();
    if IsLower(c) {
      var i := c as int - 'a' as int;
      assert s[i] == c;
    } else if IsUpper(c) {
      var i := c as int - 'A' as int + 26;
      assert s[i] == c;
    } else {
      assert forall k | 0 <= k < 52 :: s[k] != c;
    }
  }

  /** Every priority lies in 1..52 and no two items share one. */
  lemma PriorityRangeAndInjective(c: char, d: char)
    ensures Priority(c).Some? ==> 1 <= Priority(c).value <= 52
    ensures Priority(c).Some? && Priority(c) == Priority(d) ==> c == d
  {
    PriorityOfLetter(c);
    PriorityOfLetter(d);
  }

  // ---------------------------------------------------------------------------
  // The sum over all rucksacks

  /** The priority of one line's duplicate; a line without a duplicate hands
      `nil` to `fetch`, which fails. */
  function LinePriority(line: string): (r: Option<nat>)
    ensures r.Some? ==> 1 <= r.value <= 52
  {
    var item :- FindDuplicate(line);
    PriorityRangeAndInjective(item, item);
    Priority(item)
  }

  /** Each line's priority, in order. */
  function Priorities(lines: seq<string>): (os: seq<Option<nat>>)
    ensures |os| == |lines| && forall k | 0 <= k < |lines| :: os[k] == LinePriority(lines[k])
  {
    seq(|lines|, k requires 0 <= k < |lines| => LinePriority(lines[k]))
  }

  /** `SumDuplicateItemPriorities` over the lines `each_line` yields. */
  function SumPriorities(lines: seq<string>): Option<int> {
    Sums.SumAll(Priorities(lines))
  }

  function SumDuplicateItemPriorities(input: string): Option<int> {
    SumPriorities(EachLine(input))
  }

  /** The sum fails exactly when some line has no priority; otherwise each
      line adds between 1 and 52. */
  lemma SumPrioritiesMeans(lines: seq<string>)
    ensures SumPriorities(lines).None? <==> exists k | 0 <= k < |lines| :: LinePriority(lines[k]).None?
    ensures SumPriorities(lines).Some? ==> |lines| <= SumPriorities(lines).value <= 52 * |lines|
  {
    var os := Priorities(lines);
    Sums.SumAllMeans(os, 1, 52);
    if SumPriorities(lines).None? {
      var k :| 0 <= k < |os| && os[k].None?;
      assert LinePriority(lines[k]).None?;
    }
  }

  /** The sum splits over any cut of the input lines. */
  lemma SumPrioritiesAppend(a: seq<string>, b: seq<string>)
    ensures SumPriorities(a + b).Some? <==> SumPriorities(a).Some? && SumPriorities(b).Some?
    ensures SumPriorities(a + b).Some? ==>
      SumPriorities(a + b).value == SumPriorities(a).value + SumPriorities(b).value
  {
    assert Priorities(a + b) == Priorities(a) + Priorities(b);
    Sums.SumAllAppend(Priorities(a), Priorities(b));
  }

  // ---------------------------------------------------------------------------
  // Fixtures

  lemma CompartmentsFixture()
    ensures CompartmentSize("aBcdBe") == 3
    ensures CompartmentOne("aBcdBe") == "aBc"
    ensures CompartmentTwo("aBcdBe") == "dBe"
    ensures FindDuplicate("aBcdBe") == Some('B')
  {
  }

  lemma PriorityFixture()
    ensures Priority('a') == Some(1) && Priority('p') == Some(16)
    ensures Priority('v') == Some(22) && Priority('z') == Some(26)
    ensures Priority('A') == Some(27) && Priority('L') == Some(38)
    ensures Priority('P') == Some(42) && Priority('Z') == Some(52)
  {
    PriorityOfLetter('a');
    PriorityOfLetter('p');
    PriorityOfLetter('v');
    PriorityOfLetter('z');
    PriorityOfLetter('A');
    PriorityOfLetter('L');
    PriorityOfLetter('P');
    PriorityOfLetter('Z');
  }
  /** A line's priority, read off from the first item of compartment one
      that compartment two also holds. */
  lemma LinePriorityAt(line: string, one: string, two: string, i: nat)
    requires one == CompartmentOne(line) && two == CompartmentTwo(line)
    requires i < |one| && one[i] in two && forall c | c in one[..i] :: c !in two
    ensures LinePriority(line) == Priority(one[i])
  {
    assert forall j | 0 <= j < i :: one[j] in one[..i];
    FindDuplicateIsFirstShared(line);
  }

  lemma LineOneParts(line: string, one: string, two: string)
    requires line == "vJrwpWtwJgWrhcsFMMfFFhFp\n" && one == "vJrwpWtwJgWr" && two == "hcsFMMfFFhFp\n"
    ensures one == CompartmentOne(line) && two == CompartmentTwo(line)
    ensures one[4] == 'p' && one[4] in two
  {
    assert line[..12] == one && line[12..] == two;
  }

  lemma LineOneUnshared(one: string, two: string)
    requires one == "vJrwpWtwJgWr" && two == "hcsFMMfFFhFp\n"
    ensures forall c | c in one[..4] :: c !in two
  {
    assert one[..4] == "vJrw";
    assert forall c | c in "vJrw" :: c !in two;
  }

  lemma LineOneFixture(line: string)
    requires line == "vJrwpWtwJgWrhcsFMMfFFhFp\n"
    ensures LinePriority(line) == Some(16)
  {
    var one, two := "vJrwpWtwJgWr", "hcsFMMfFFhFp\n";
    LineOneParts(line, one, two);
    LineOneUnshared(one, two);
    LinePriorityAt(line, one, two, 4);
    PriorityOfLetter('p');
  }

  lemma LineTwoParts(line: string, one: string, two: string)
    requires line == "jqHRNqRjqzjGDLGLrsFMfFZSrLrFZsSL\n" && one == "jqHRNqRjqzjGDLGL" && two == "rsFMfFZSrLrFZsSL\n"
    ensures one == CompartmentOne(line) && two == CompartmentTwo(line)
    ensures one[13] == 'L' && one[13] in two
  {
    assert line[..16] == one && line[16..] == two;
  }

  lemma LineTwoUnshared(one: string, two: string)
    requires one == "jqHRNqRjqzjGDLGL" && two == "rsFMfFZSrLrFZsSL\n"
    ensures forall c | c in one[..13] :: c !in two
  {
    assert one[..13] == "jqHRNqRjqzjGD";
    assert forall c | c in "jqHRNzGD" :: c !in two;
  }

  lemma LineTwoFixture(line: string)
    requires line == "jqHRNqRjqzjGDLGLrsFMfFZSrLrFZsSL\n"
    ensures LinePriority(line) == Some(38)
  {
    var one, two := "jqHRNqRjqzjGDLGL", "rsFMfFZSrLrFZsSL\n";
    LineTwoParts(line, one, two);
    LineTwoUnshared(one, two);
    LinePriorityAt(line, one, two, 13);
    PriorityOfLetter('L');
  }

  lemma LineThreeParts(line: string, one: string, two: string)
    requires line == "PmmdzqPrVvPwwTWBwg\n" && one == "PmmdzqPrV" && two == "vPwwTWBwg\n"
    ensures one == CompartmentOne(line) && two == CompartmentTwo(line)
    ensures one[0] == 'P' && one[0] in two
  {
    assert line[..9] == one && line[9..] == two;
  }

  lemma LineThreeFixture(line: string)
    requires line == "PmmdzqPrVvPwwTWBwg\n"
    ensures LinePriority(line) == Some(42)
  {
    var one, two := "PmmdzqPrV", "vPwwTWBwg\n";
    LineThreeParts(line, one, two);
    LinePriorityAt(line, one, two, 0);
    PriorityOfLetter('P');
  }

  lemma LineFourParts(line: string, one: string, two: string)
    requires line == "wMqvLMZHhHMvwLHjbvcjnnSBnvTQFn\n" && one == "wMqvLMZHhHMvwLH" && two == "jbvcjnnSBnvTQFn\n"
    ensures one == CompartmentOne(line) && two == CompartmentTwo(line)
    ensures one[3] == 'v' && one[3] in two
  {
    assert line[..15] == one && line[15..] == two;
  }

  lemma LineFourUnshared(one: string, two: string)
    requires one == "wMqvLMZHhHMvwLH" && two == "jbvcjnnSBnvTQFn\n"
    ensures forall c | c in one[..3] :: c !in two
  {
    assert one[..3] == "wMq";
    assert forall c | c in "wMq" :: c !in two;
  }

  lemma LineFourFixture(line: string)
    requires line == "wMqvLMZHhHMvwLHjbvcjnnSBnvTQFn\n"
    ensures LinePriority(line) == Some(22)
  {
    var one, two := "wMqvLMZHhHMvwLH", "jbvcjnnSBnvTQFn\n";
    LineFourParts(line, one, two);
    LineFourUnshared(one, two);
    LinePriorityAt(line, one, two, 3);
    PriorityOfLetter('v');
  }

  lemma LineFiveParts(line: string, one: string, two: string)
    requires line == "ttgJtRGJQctTZtZT\n" && one == "ttgJtRGJ" && two == "QctTZtZT\n"
    ensures one == CompartmentOne(line) && two == CompartmentTwo(line)
    ensures one[0] == 't' && one[0] in two
  {
    assert line[..8] == one && line[8..] == two;
  }

  lemma LineFiveFixture(line: string)
    requires line == "ttgJtRGJQctTZtZT\n"
    ensures LinePriority(line) == Some(20)
  {
    var one, two := "ttgJtRGJ", "QctTZtZT\n";
    LineFiveParts(line, one, two);
    LinePriorityAt(line, one, two, 0);
    PriorityOfLetter('t');
  }

  lemma LineSixParts(line: string, one: string, two: string)
    requires line == "CrZsJsPPZsGzwwsLwLmpwMDw\n" && one == "CrZsJsPPZsGz" && two == "wwsLwLmpwMDw\n"
    ensures one == CompartmentOne(line) && two == CompartmentTwo(line)
    ensures one[3] == 's' && one[3] in two
  {
    assert line[..12] == one && line[12..] == two;
  }

  lemma LineSixUnshared(one: string, two: string)
    requires one == "CrZsJsPPZsGz" && two == "wwsLwLmpwMDw\n"
    ensures forall c | c in one[..3] :: c !in two
  {
    assert one[..3] == "CrZ";
    assert forall c | c in "CrZ" :: c !in two;
  }

  lemma LineSixFixture(line: string)
    requires line == "CrZsJsPPZsGzwwsLwLmpwMDw\n"
    ensures LinePriority(line) == Some(19)
  {
    var one, two := "CrZsJsPPZsGz", "wwsLwLmpwMDw\n";
    LineSixParts(line, one, two);
    LineSixUnshared(one, two);
    LinePriorityAt(line, one, two, 3);
    PriorityOfLetter('s');
  }

  lemma SumOfThreeLines(lines: seq<string>, a: nat, b: nat, c: nat)
    requires |lines| == 3
    requires LinePriority(lines[0]) == Some(a) && LinePriority(lines[1]) == Some(b)
    requires LinePriority(lines[2]) == Some(c)
    ensures SumPriorities(lines) == Some(a + b + c)
  {
    assert Priorities(lines) == [Some(a), Some(b), Some(c)];
    Sums.SumAllOfThree(Priorities(lines), a, b, c);
  }

  lemma SumFixtureFront(lines: seq<string>)
    requires |lines| == 3
    requires lines[0] == "vJrwpWtwJgWrhcsFMMfFFhFp\n" && lines[1] == "jqHRNqRjqzjGDLGLrsFMfFZSrLrFZsSL\n"
    requires lines[2] == "PmmdzqPrVvPwwTWBwg\n"
    ensures SumPriorities(lines) == Some(96)
  {
    LineOneFixture(lines[0]);
    LineTwoFixture(lines[1]);
    LineThreeFixture(lines[2]);
    SumOfThreeLines(lines, 16, 38, 42);
  }

  lemma SumFixtureBack(lines: seq<string>)
    requires |lines| == 3
    requires lines[0] == "wMqvLMZHhHMvwLHjbvcjnnSBnvTQFn\n" && lines[1] == "ttgJtRGJQctTZtZT\n"
    requires lines[2] == "CrZsJsPPZsGzwwsLwLmpwMDw\n"
    ensures SumPriorities(lines) == Some(61)
  {
    LineFourFixture(lines[0]);
    LineFiveFixture(lines[1]);
    LineSixFixture(lines[2]);
    SumOfThreeLines(lines, 22, 20, 19);
  }

  /** The six-rucksack example sums to 157. */
  lemma SumFixture(lines: seq<string>)
    requires |lines| == 6
    requires lines[0] == "vJrwpWtwJgWrhcsFMMfFFhFp\n" && lines[1] == "jqHRNqRjqzjGDLGLrsFMfFZSrLrFZsSL\n"
    requires lines[2] == "PmmdzqPrVvPwwTWBwg\n" && lines[3] == "wMqvLMZHhHMvwLHjbvcjnnSBnvTQFn\n"
    requires lines[4] == "ttgJtRGJQctTZtZT\n" && lines[5] == "CrZsJsPPZsGzwwsLwLmpwMDw\n"
    ensures SumPriorities(lines) == Some(157)
  {
    SumFixtureFront(lines[..3]);
    SumFixtureBack(lines[3..]);
    TakeDrop(lines, 3);
    SumOfHalves(lines[..3], lines[3..], 96, 61);
  }

  /** Lines whose two halves sum to `a` and `b` sum to `a + b`. */
  lemma SumOfHalves(front: seq<string>, back: seq<string>, a: int, b: int)
    requires SumPriorities(front) == Some(a) && SumPriorities(back) == Some(b)
    ensures SumPriorities(front + back) == Some(a + b)
  {
    SumPrioritiesAppend(front, back);
    var t := SumPriorities(front + back);
    assert t.Some?;
    assert t.value == a + b;
  }

  lemma TakeDrop<T>(s: seq<T>, n: nat)
    requires n <= |s|
    ensures s == s[..n] + s[n..]
  {
  }
}

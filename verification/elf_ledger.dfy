/** The first calorie counter, `day1/1.rb`: a running elf number and a hash
    from elf number to calories, filled one line at a time. A blank line
    moves on to the next elf; any other line must be an integer literal,
    which is added to the current elf's entry.

    The model reads every line first (`ReadAll`) and then runs the loop over
    what was read (`Run`). `Integer` raising on a line ends the whole call
    with an exception, so reading everything first fails on exactly the same
    inputs, and on every other input the loop sees the same entries in the
    same order. */
module ElfLedger {
  import opened Wrappers
  import opened Text
  import opened Sums

  /** The loop's two variables: `elf` and `elves`. */
  datatype Ledger = Ledger(elf: nat, elves: map<nat, nat>)

  /** A line once `strip!` has run: empty, or an integer literal. */
  datatype Entry = Gap | Amount(n: nat)

  /** `Hash.new(0)` reads a missing elf as 0. */
  function Held(elves: map<nat, nat>, k: nat): nat {
    if k in elves then elves[k] else 0
  }

  /** `strip!`, then `Integer(line)` unless the line is empty; nil where
      `Integer` raises. */
  function Read(line: string): Option<Entry> {
    if Strip(line) == "" then Some(Gap)
    else
      var v :- ParseInteger(Strip(line));
      Some(Amount(v))
  }

  /** Every line read in turn; nil when some line cannot be read. */
  function ReadAll(lines: seq<string>): Option<seq<Entry>> {
    AllSome(seq(|lines|, i requires 0 <= i < |lines| => Read(lines[i])))
  }

  /** One pass of the `each_line` block. */
  function Apply(l: Ledger, e: Entry): Ledger {
    match e
    case Gap => l.(elf := l.elf + 1)
    case Amount(v) => l.(elves := l.elves[l.elf := Held(l.elves, l.elf) + v])
  }

  /** The loop over every entry, from elf 1 and an empty hash. */
  function Run(es: seq<Entry>): Ledger {
    if es == [] then Ledger(1, map[]) else Apply(Run(es[..|es| - 1]), es[|es| - 1])
  }

  /** The hash after the loop over `lines`; nil where `Integer` raises. */
  function Count(lines: seq<string>): Option<map<nat, nat>> {
    var es :- ReadAll(lines);
    Some(Run(es).elves)
  }

  /** `CountCalories.call`: the loop over `input.each_line`. */
  function CountCalories(input: string): Option<map<nat, nat>> {
    Count(EachLine(input))
  }

  // ---------------------------------------------------------------------------
  // Reading

  /** Reading fails exactly when some line cannot be read, and otherwise
      turns line `i` into entry `i`. */
  lemma ReadAllMeans(lines: seq<string>)
    ensures ReadAll(lines).Some? <==> forall i | 0 <= i < |lines| :: Read(lines[i]).Some?
    ensures ReadAll(lines).Some? ==>
      && |ReadAll(lines).value| == |lines|
      && forall i | 0 <= i < |lines| :: Read(lines[i]) == Some(ReadAll(lines).value[i])
  {
    var os := seq(|lines|, i requires 0 <= i < |lines| => Read(lines[i]));
    assert forall i | 0 <= i < |lines| :: os[i] == Read(lines[i]);
  }

  /** A line is read as a gap exactly when it holds nothing but whitespace
      and NUL, and as the amount `n` exactly when stripping it leaves `n`
      written in decimal; any other line cannot be read. */
  lemma ReadGap(line: string, n: nat)
    ensures Read(line) == Some(Gap) <==> forall k | 0 <= k < |line| :: IsStripped(line[k])
    ensures Read(line) == Some(Amount(n)) <==> Strip(line) == ShowNat(n)
  {
    var t := Strip(line);
    if t == ShowNat(n) {
      ShowNatRoundTrip(n);
    }
  }

  /** No other line can be read: a line fails exactly when something
      survives stripping and what survives is not a number written in
      decimal. */
  lemma ReadFails(line: string)
    ensures Read(line).None? ==> exists k | 0 <= k < |line| :: !IsStripped(line[k])
    ensures Read(line).None? ==> forall m: nat :: Strip(line) != ShowNat(m)
    ensures (exists k | 0 <= k < |line| :: !IsStripped(line[k])) && (forall m: nat :: Strip(line) != ShowNat(m)) ==> Read(line).None?
  {
    var t := Strip(line);
    assert (exists k | 0 <= k < |line| :: !IsStripped(line[k])) <==> t != "";
    if t == "" {
      assert Read(line) == Some(Gap);
    } else if ParseInteger(t).None? {
      assert Read(line).None?;
      forall m: nat
        ensures t != ShowNat(m)
      {
        if t == ShowNat(m) {
          ShowNatRoundTrip(m);
        }
      }
    } else {
      assert Read(line) == Some(Amount(ParseInteger(t).value));
      assert t == ShowNat(ParseInteger(t).value);
    }
  }

  /** The lines are counted unless one of them cannot be read, and then the
      hash is the loop's over the lines read one by one. */
  lemma CountMeans(lines: seq<string>)
    ensures Count(lines).None? <==> exists i | 0 <= i < |lines| :: Read(lines[i]).None?
    ensures Count(lines).Some? ==>
      exists es: seq<Entry> | |es| == |lines| ::
        && (forall i | 0 <= i < |lines| :: Read(lines[i]) == Some(es[i]))
        && Count(lines).value == Run(es).elves
  {
    ReadAllMeans(lines);
    if Count(lines).Some? {
      var es := ReadAll(lines).value;
      assert forall i | 0 <= i < |lines| :: Read(lines[i]) == Some(es[i]);
    }
  }

  // ---------------------------------------------------------------------------
  // What the loop computes

  function Gaps(es: seq<Entry>): nat {
    if es == [] then 0 else Gaps(es[..|es| - 1]) + (if es[|es| - 1].Gap? then 1 else 0)
  }

  /** The elf an entry is counted for: one more than the gaps before it. */
  function ElfOf(es: seq<Entry>, i: nat): nat
    requires i <= |es|
  {
    1 + Gaps(es[..i])
  }

  /** The amounts read while `k` was the current elf. */
  function Share(es: seq<Entry>, k: nat): nat {
    if es == [] then 0
    else
      var last := es[|es| - 1];
      Share(es[..|es| - 1], k) + (if last.Amount? && 1 + Gaps(es[..|es| - 1]) == k then last.n else 0)
  }

  /** The sum of every amount, regardless of elf. */
  function Everything(es: seq<Entry>): nat {
    if es == [] then 0
    else
      var last := es[|es| - 1];
      Everything(es[..|es| - 1]) + (if last.Amount? then last.n else 0)
  }

  /** The calories held by elves `1` to `n`. */
  function Total(elves: map<nat, nat>, n: nat): nat {
    if n == 0 then 0 else Total(elves, n - 1) + Held(elves, n)
  }

  /** The elf number starts at 1 and goes up by one on every blank line, and
      only elves up to the current one have an entry. */
  lemma {:induction false} RunElf(es: seq<Entry>)
    ensures Run(es).elf == 1 + Gaps(es)
    ensures forall k | k in Run(es).elves :: 1 <= k <= Run(es).elf
  {
    if es != [] {
      RunElf(es[..|es| - 1]);
    }
  }

  /** Each elf holds exactly the amounts read while it was the current elf. */
  lemma {:induction false} RunShares(es: seq<Entry>, k: nat)
    ensures Held(Run(es).elves, k) == Share(es, k)
  {
    if es != [] {
      var front := es[..|es| - 1];
      RunShares(front, k);
      RunElf(front);
    }
  }

  lemma {:induction false} TotalUpdate(elves: map<nat, nat>, n: nat, k: nat, v: nat)
    requires 1 <= k <= n
    ensures Total(elves[k := Held(elves, k) + v], n) == Total(elves, n) + v
  {
    if n > k {
      TotalUpdate(elves, n - 1, k, v);
    } else {
      TotalUnchanged(elves, elves[k := Held(elves, k) + v], n - 1);
    }
  }

  lemma {:induction false} TotalUnchanged(a: map<nat, nat>, b: map<nat, nat>, n: nat)
    requires forall k | 1 <= k <= n :: Held(a, k) == Held(b, k)
    ensures Total(a, n) == Total(b, n)
  {
    if n > 0 {
      TotalUnchanged(a, b, n - 1);
    }
  }

  /** No calorie is lost or counted twice: the elves' entries add up to the
      sum of every amount in the input. */
  lemma {:induction false} RunAccounts(es: seq<Entry>)
    ensures Total(Run(es).elves, Run(es).elf) == Everything(es)
  {
    if es != [] {
      var front, last := es[..|es| - 1], es[|es| - 1];
      var l := Run(front);
      RunAccounts(front);
      RunElf(front);
      match last
      case Gap =>
        assert l.elf + 1 !in l.elves;
      case Amount(v) =>
        TotalUpdate(l.elves, l.elf, l.elf, v);
    }
  }

  /** Some amount was read while `k` was the current elf. */
  ghost predicate AmountFor(es: seq<Entry>, k: nat) {
    exists i | 0 <= i < |es| :: es[i].Amount? && ElfOf(es, i) == k
  }

  /** Entries keep their elf as more entries follow. */
  lemma ElfOfPrefix(es: seq<Entry>, i: nat)
    requires i < |es|
    ensures ElfOf(es, i) == ElfOf(es[..|es| - 1], i)
  {
    assert es[..i] == es[..|es| - 1][..i];
  }

  lemma AmountForSnoc(es: seq<Entry>, k: nat)
    requires es != []
    ensures AmountFor(es, k) <==>
      AmountFor(es[..|es| - 1], k) || (es[|es| - 1].Amount? && 1 + Gaps(es[..|es| - 1]) == k)
  {
    var front := es[..|es| - 1];
    assert ElfOf(es, |front|) == 1 + Gaps(front) by {
      assert es[..|front|] == front;
    }
    if AmountFor(es, k) {
      var i :| 0 <= i < |es| && es[i].Amount? && ElfOf(es, i) == k;
      if i < |front| {
        AmountForEarlier(es, k, i);
      }
    }
    if AmountFor(front, k) {
      var i :| 0 <= i < |front| && front[i].Amount? && ElfOf(front, i) == k;
      AmountForLater(es, k, i);
    }
    if es[|front|].Amount? && 1 + Gaps(front) == k {
      assert es[|front|].Amount? && ElfOf(es, |front|) == k;
    }
  }

  lemma AmountForEarlier(es: seq<Entry>, k: nat, i: nat)
    requires i < |es| - 1 && es[i].Amount? && ElfOf(es, i) == k
    ensures AmountFor(es[..|es| - 1], k)
  {
    ElfOfPrefix(es, i);
    assert es[..|es| - 1][i] == es[i];
  }

  lemma AmountForLater(es: seq<Entry>, k: nat, i: nat)
    requires es != [] && i < |es| - 1
    requires es[..|es| - 1][i].Amount? && ElfOf(es[..|es| - 1], i) == k
    ensures AmountFor(es, k)
  {
    ElfOfPrefix(es, i);
    assert es[..|es| - 1][i] == es[i];
  }

  /** Elf `k` has an entry exactly when some amount was read while `k` was
      the current elf; an elf with only blank lines gets none. */
  lemma {:induction false} RunKeys(es: seq<Entry>, k: nat)
    ensures k in Run(es).elves <==> AmountFor(es, k)
  {
    if es != [] {
      var front := es[..|es| - 1];
      RunKeys(front, k);
      RunElf(front);
      AmountForSnoc(es, k);
    }
  }

  /** `FindMax.call`: the largest value, nil for an empty hash. */
  function FindMax(elves: map<nat, nat>): (r: Option<nat>)
    ensures r.None? <==> elves == map[]
    ensures r.Some? ==> (exists k | k in elves :: elves[k] == r.value) &&
                        forall k | k in elves :: elves[k] <= r.value
  {
    if elves == map[] then None
    else
      var k0 :| k0 in elves;
      assert elves[k0] in elves.Values;
      var top := Largest(elves.Values);
      assert forall k | k in elves :: elves[k] in elves.Values;
      Some(top)
  }

  // ---------------------------------------------------------------------------
  // The worked example

  lemma FindMaxExample(elves: map<nat, nat>)
    requires elves == map[1 := 6000, 2 := 4000, 3 := 11000, 4 := 24000, 5 := 10000]
    ensures FindMax(elves) == Some(24000)
  {
    assert elves[4] == 24000;
  }

  /** A line holding the number `n` reads as `n`. */
  lemma ReadsNumber(line: string, n: nat)
    requires line == ShowNat(n) + "\n"
    ensures Read(line) == Some(Amount(n))
  {
    StripDigitLine(ShowNat(n));
    ShowNatRoundTrip(n);
  }

  /** An empty line is a gap. */
  lemma ReadsBlank(line: string)
    requires line == "\n"
    ensures Read(line) == Some(Gap)
  {
    assert IsStripped(line[0]);
  }

  /** The example's fourteen lines as the loop sees them. */
  function ExampleEntries(): seq<Entry> {
    [Amount(1000), Amount(2000), Amount(3000), Gap, Amount(4000), Gap, Amount(5000), Amount(6000),
     Gap, Amount(7000), Amount(8000), Amount(9000), Gap, Amount(10000)]
  }

  lemma RunSnoc(es: seq<Entry>, e: Entry)
    ensures Run(es + [e]) == Apply(Run(es), e)
  {
    assert (es + [e])[..|es|] == es;
  }

  /** The loop over the example's first three elves. */
  lemma RunFirstElves(es: seq<Entry>)
    requires es == ExampleEntries()[..8]
    ensures Run(es) == Ledger(3, map[1 := 6000, 2 := 4000, 3 := 11000])
  {
    var e := ExampleEntries();
    assert e[..1] == [] + [Amount(1000)];
    RunSnoc([], Amount(1000));
    assert e[..2] == e[..1] + [Amount(2000)];
    RunSnoc(e[..1], Amount(2000));
    assert map[1 := 1000][1 := 1000 + 2000] == map[1 := 3000];
    assert e[..3] == e[..2] + [Amount(3000)];
    RunSnoc(e[..2], Amount(3000));
    assert map[1 := 3000][1 := 3000 + 3000] == map[1 := 6000];
    assert e[..4] == e[..3] + [Gap];
    RunSnoc(e[..3], Gap);
    assert e[..5] == e[..4] + [Amount(4000)];
    RunSnoc(e[..4], Amount(4000));
    assert e[..6] == e[..5] + [Gap];
    RunSnoc(e[..5], Gap);
    assert e[..7] == e[..6] + [Amount(5000)];
    RunSnoc(e[..6], Amount(5000));
    assert e[..8] == e[..7] + [Amount(6000)];
    RunSnoc(e[..7], Amount(6000));
    assert map[1 := 6000, 2 := 4000, 3 := 5000][3 := 5000 + 6000] == map[1 := 6000, 2 := 4000, 3 := 11000];
  }

  /** The loop over the example's first four elves. */
  lemma RunFourElves(es: seq<Entry>)
    requires es == ExampleEntries()[..12]
    ensures Run(es) == Ledger(4, map[1 := 6000, 2 := 4000, 3 := 11000, 4 := 24000])
  {
    var e := ExampleEntries();
    var m3: map<nat, nat> := map[1 := 6000, 2 := 4000, 3 := 11000];
    RunFirstElves(e[..8]);
    assert e[..9] == e[..8] + [Gap];
    RunSnoc(e[..8], Gap);
    assert e[..10] == e[..9] + [Amount(7000)];
    RunSnoc(e[..9], Amount(7000));
    assert e[..11] == e[..10] + [Amount(8000)];
    RunSnoc(e[..10], Amount(8000));
    assert m3[4 := 7000][4 := 7000 + 8000] == m3[4 := 15000];
    assert e[..12] == e[..11] + [Amount(9000)];
    RunSnoc(e[..11], Amount(9000));
    assert m3[4 := 15000][4 := 15000 + 9000] == m3[4 := 24000];
    assert m3[4 := 24000] == map[1 := 6000, 2 := 4000, 3 := 11000, 4 := 24000];
  }

  /** The loop over the whole example. */
  lemma RunExample(es: seq<Entry>)
    requires es == ExampleEntries()
    ensures Run(es) == Ledger(5, map[1 := 6000, 2 := 4000, 3 := 11000, 4 := 24000, 5 := 10000])
  {
    var e := ExampleEntries();
    var m4: map<nat, nat> := map[1 := 6000, 2 := 4000, 3 := 11000, 4 := 24000];
    RunFourElves(e[..12]);
    assert e[..13] == e[..12] + [Gap];
    RunSnoc(e[..12], Gap);
    assert e == e[..13] + [Amount(10000)];
    RunSnoc(e[..13], Amount(10000));
    assert m4[5 := 10000] == map[1 := 6000, 2 := 4000, 3 := 11000, 4 := 24000, 5 := 10000];
  }
}

/** Day 2: each line of the strategy guide names the opponent's shape
    ("A", "B", "C") and the reply ("X", "Y", "Z"); a round scores the
    reply's points plus the points of its outcome, and the tournament adds
    up the rounds. */
module RockPaperScissors {
  import opened Wrappers
  import opened Text
  import opened Sums

  const Win: nat := 6
  const Draw: nat := 3
  const Lose: nat := 0

  // ---------------------------------------------------------------------------
  // The tables, as the program writes them

  /** `CHOICE_POINTS.fetch(right)`: `fetch` fails on a symbol the table
      does not hold. */
  function ChoicePoints(right: string): Option<nat> {
    if right == "X" then Some(1)
    else if right == "Y" then Some(2)
    else if right == "Z" then Some(3)
    else None
  }

  /** `OUTCOMES.fetch([left, right])`. */
  function Outcome(left: string, right: string): Option<nat> {
    if left == "A" then
      (if right == "X" then Some(Draw) else if right == "Y" then Some(Win)
       else if right == "Z" then Some(Lose) else None)
    else if left == "B" then
      (if right == "X" then Some(Lose) else if right == "Y" then Some(Draw)
       else if right == "Z" then Some(Win) else None)
    else if left == "C" then
      (if right == "X" then Some(Win) else if right == "Y" then Some(Lose)
       else if right == "Z" then Some(Draw) else None)
    else None
  }

  // ---------------------------------------------------------------------------
  // The game the tables encode

  datatype Shape = Rock | Paper | Scissors

  /** The opponent's column: A, B and C are rock, paper and scissors. */
  function Theirs(left: string): Option<Shape> {
    if left == "A" then Some(Rock)
    else if left == "B" then Some(Paper)
    else if left == "C" then Some(Scissors)
    else None
  }

  /** The reply's column: X, Y and Z are rock, paper and scissors. */
  function Mine(right: string): Option<Shape> {
    if right == "X" then Some(Rock)
    else if right == "Y" then Some(Paper)
    else if right == "Z" then Some(Scissors)
    else None
  }

  /** Rock blunts scissors, scissors cut paper, paper wraps rock. */
  predicate Beats(a: Shape, b: Shape) {
    match (a, b)
    case (Rock, Scissors) => true
    case (Scissors, Paper) => true
    case (Paper, Rock) => true
    case _ => false
  }

  /** A shape's points: rock 1, paper 2, scissors 3. */
  function Value(s: Shape): nat {
    match s
    case Rock => 1
    case Paper => 2
    case Scissors => 3
  }

  /** What the reply earns for the outcome of the round. */
  function Result(theirs: Shape, mine: Shape): nat {
    if Beats(mine, theirs) then Win
    else if mine == theirs then Draw
    else Lose
  }

  /** Every pair of shapes is a draw, or exactly one of them wins. */
  lemma OneWinner(a: Shape, b: Shape)
    ensures a == b ==> !Beats(a, b) && !Beats(b, a)
    ensures a != b ==> Beats(a, b) != Beats(b, a)
  {
  }

  /** The choice-points table gives each reply its shape's value. */
  lemma ChoicePointsAreValues(right: string)
    ensures ChoicePoints(right).Some? <==> Mine(right).Some?
    ensures Mine(right).Some? ==> ChoicePoints(right) == Some(Value(Mine(right).value))
  {
  }

  /** The outcomes table holds exactly the pairs of known symbols, and it
      says win when the reply beats the opponent, draw when the shapes
      agree, lose when the opponent's shape beats the reply. */
  lemma OutcomeIsGame(left: string, right: string)
    ensures Outcome(left, right).Some? <==> Theirs(left).Some? && Mine(right).Some?
    ensures Outcome(left, right) == Some(Win) <==>
      Theirs(left).Some? && Mine(right).Some? && Beats(Mine(right).value, Theirs(left).value)
    ensures Outcome(left, right) == Some(Draw) <==>
      Theirs(left).Some? && Mine(right).Some? && Mine(right).value == Theirs(left).value
    ensures Outcome(left, right) == Some(Lose) <==>
      Theirs(left).Some? && Mine(right).Some? && Beats(Theirs(left).value, Mine(right).value)
  {
  }

  // ---------------------------------------------------------------------------
  // Rounds

  /** `CalculateScore.call(left, right)`: the outcome's points plus the
      reply's points; an unknown symbol on either side is an error. */
  function Score(left: string, right: string): (r: Option<nat>)
    ensures r.Some? <==> Theirs(left).Some? && Mine(right).Some?
    ensures r.Some? ==>
      r.value == Result(Theirs(left).value, Mine(right).value) + Value(Mine(right).value)
    ensures r.Some? ==> 1 <= r.value <= 9
  {
    OutcomeIsGame(left, right);
    ChoicePointsAreValues(right);
    var outcome, points := Outcome(left, right), ChoicePoints(right);
    if outcome.Some? && points.Some? then Some(outcome.value + points.value) else None
  }

  /** The three rounds of the worked example. */
  lemma ScoreExamples()
    ensures Score("A", "Y") == Some(8)
    ensures Score("B", "X") == Some(1)
    ensures Score("C", "Z") == Some(6)
  {
  }

  /** `left, right = line.split`: a line with fewer than two fields leaves
      `right` nil, and no table holds nil. Fields after the second are
      ignored. */
  function Round(line: string): (r: Option<nat>)
    ensures r.Some? ==> 1 <= r.value <= 9
  {
    var fs := Fields(line);
    if |fs| < 2 then None else Score(fs[0], fs[1])
  }

  /** A round is scored exactly when its first two fields are known
      symbols, and it scores them as `Score` does. */
  lemma RoundMeans(line: string)
    ensures Round(line).Some? <==>
      |Fields(line)| >= 2 && Theirs(Fields(line)[0]).Some? && Mine(Fields(line)[1]).Some?
    ensures Round(line).Some? ==> Round(line) == Score(Fields(line)[0], Fields(line)[1])
  {
  }

  /** The two fields of a line "a b\n" are the two one-character symbols. */
  lemma FieldsOfPair(a: char, b: char)
    requires !IsSpace(a) && !IsSpace(b)
    ensures Fields([a, ' ', b, '\n']) == [[a], [b]]
  {
    var s := [a, ' ', b, '\n'];
    assert SkipWhile(s, 0, true) == 0;
    assert SkipWhile(s, 1, false) == 1;
    assert SkipWhile(s, 0, false) == 1;
    assert SkipWhile(s, 2, true) == 2;
    assert SkipWhile(s, 1, true) == 2;
    assert SkipWhile(s, 3, false) == 3;
    assert SkipWhile(s, 2, false) == 3;
    assert SkipWhile(s, 4, true) == 4;
    assert SkipWhile(s, 3, true) == 4;
    assert FieldsFrom(s, 3) == [];
    assert s[2..3] == [b] && s[0..1] == [a];
    assert FieldsFrom(s, 1) == [[b]];
  }

  // ---------------------------------------------------------------------------
  // The tournament

  /** Each line's round, in order. */
  function Rounds(lines: seq<string>): (os: seq<Option<nat>>)
    ensures |os| == |lines| && forall i | 0 <= i < |lines| :: os[i] == Round(lines[i])
  {
    seq(|lines|, i requires 0 <= i < |lines| => Round(lines[i]))
  }

  /** `CalculateTournament.call(input)`: `input.each_line.sum`, one round a
      line. */
  function Tournament(input: string): Option<int> {
    Play(EachLine(input))
  }

  /** The tournament over lines already cut apart. */
  function Play(lines: seq<string>): Option<int> {
    SumAll(Rounds(lines))
  }

  /** The tournament fails exactly when one of its lines does; otherwise
      it scores between 1 and 9 a line. */
  lemma PlayMeans(lines: seq<string>)
    ensures Play(lines).None? <==> exists i | 0 <= i < |lines| :: Round(lines[i]).None?
    ensures Play(lines).Some? ==> |lines| <= Play(lines).value <= 9 * |lines|
  {
    var os := Rounds(lines);
    SumAllMeans(os, 1, 9);
    if Play(lines).None? {
      var k :| 0 <= k < |os| && os[k].None?;
      assert Round(lines[k]).None?;
    }
  }

  /** A line "a b\n" is the round `Score([a], [b])`. */
  lemma RoundOfPair(line: string, a: char, b: char)
    requires line == [a, ' ', b, '\n'] && !IsSpace(a) && !IsSpace(b)
    ensures Round(line) == Score([a], [b])
  {
    FieldsOfPair(a, b);
  }

  lemma RoundsOfThree(lines: seq<string>, x: nat, y: nat, z: nat)
    requires |lines| == 3
    requires Round(lines[0]) == Some(x) && Round(lines[1]) == Some(y) && Round(lines[2]) == Some(z)
    ensures Rounds(lines) == [Some(x), Some(y), Some(z)]
  {
    var os := Rounds(lines);
    ThreeOf(os, Some(x), Some(y), Some(z));
  }

  /** The rounds of the worked example score 8, 1 and 6. */
  lemma RoundOne()
    ensures Round("A Y\n") == Some(8)
  {
    RoundIs("A Y\n", 'A', 'Y', 8);
  }

  lemma RoundTwo()
    ensures Round("B X\n") == Some(1)
  {
    RoundIs("B X\n", 'B', 'X', 1);
  }

  lemma RoundThree()
    ensures Round("C Z\n") == Some(6)
  {
    RoundIs("C Z\n", 'C', 'Z', 6);
  }

  /** A line "a b\n" scores what the table gives the pair. */
  lemma RoundIs(line: string, a: char, b: char, n: nat)
    requires line == [a, ' ', b, '\n'] && !IsSpace(a) && !IsSpace(b) && Score([a], [b]) == Some(n)
    ensures Round(line) == Some(n)
  {
    RoundOfPair(line, a, b);
  }

  /** The worked example's lines score 15 in all. */
  lemma PlayExample(lines: seq<string>)
    requires lines == ["A Y\n", "B X\n", "C Z\n"]
    ensures Play(lines) == Some(15)
  {
    RoundOne();
    RoundTwo();
    RoundThree();
    RoundsOfThree(lines, 8, 1, 6);
    SumAllOfThree(Rounds(lines), 8, 1, 6);
  }

  /** The worked example's text is those three lines. */
  lemma TournamentExample(input: string)
    requires input == "A Y\nB X\nC Z\n"
    ensures Tournament(input) == Some(15)
  {
    var lines := ["A Y\n", "B X\n", "C Z\n"];
    assert input == Concat(lines);
    EachLineOfConcat(lines);
    PlayExample(lines);
  }
}

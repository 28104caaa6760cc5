/** Day 8: a forest of tree heights, and how many trees can be seen from
    outside the grid. A tree is visible from a direction when every tree
    between it and that edge is strictly shorter.

    The source guards each direction with an early-out that compares the row
    index with the number of columns and the column index with the number
    of rows. `Reading` keeps both readings: `AsWritten` with those guards,
    `Intended` with the guards on the matching coordinate, where they never
    change the answer. The two agree on every square forest and differ on
    others. */
module TreeVisibility {
  import opened Text

  /** Rows of heights; `forest[x][y]` is the tree in row `x`, column `y`. */
  type Forest = seq<seq<nat>>

  predicate Rectangular(f: Forest) {
    forall x | 0 <= x < |f| :: |f[x]| == |f[0]|
  }

  /** `length`: the size of the first row. */
  function Width(f: Forest): nat
    requires |f| > 0
  {
    |f[0]|
  }

  /** A position inside a rectangular forest. */
  predicate At(f: Forest, x: nat, y: nat) {
    Rectangular(f) && x < |f| && y < |f[x]|
  }

  // ---------------------------------------------------------------------------
  // Lines of sight

  predicate ClearLeft(f: Forest, x: nat, y: nat)
    requires At(f, x, y)
  {
    forall k | 0 <= k < y :: f[x][k] < f[x][y]
  }

  predicate ClearRight(f: Forest, x: nat, y: nat)
    requires At(f, x, y)
  {
    forall k | y < k < |f[x]| :: f[x][k] < f[x][y]
  }

  predicate ClearUp(f: Forest, x: nat, y: nat)
    requires At(f, x, y)
  {
    forall i | 0 <= i < x :: f[i][y] < f[x][y]
  }

  predicate ClearDown(f: Forest, x: nat, y: nat)
    requires At(f, x, y)
  {
    forall i | x < i < |f| :: f[i][y] < f[x][y]
  }

  datatype Reading = AsWritten | Intended

  /** `visible?`: visible from the left, the right, above or below. Under
      `AsWritten` each direction first returns true on the source's guard:
      row 0 (left), row `length - 1` (right), column 0 (up) and column
      `height - 1` (down). */
  predicate Visible(reading: Reading, f: Forest, x: nat, y: nat)
    requires At(f, x, y)
  {
    match reading
    case Intended =>
      ClearLeft(f, x, y) || ClearRight(f, x, y) || ClearUp(f, x, y) || ClearDown(f, x, y)
    case AsWritten =>
      || (x == 0 || ClearLeft(f, x, y))
      || (x == Width(f) - 1 || ClearRight(f, x, y))
      || (y == 0 || ClearUp(f, x, y))
      || (y == |f| - 1 || ClearDown(f, x, y))
  }

  /** The guards that test the row index against row 0 and the column index
      against column 0 never matter; the other two make every tree of row
      `length - 1` and of column `height - 1` visible. */
  lemma ShortcutEffect(f: Forest, x: nat, y: nat)
    requires At(f, x, y)
    ensures Visible(AsWritten, f, x, y)
        <==> Visible(Intended, f, x, y) || x == Width(f) - 1 || y == |f| - 1
  {
    if x == 0 {
      assert ClearUp(f, x, y);
    }
    if y == 0 {
      assert ClearLeft(f, x, y);
    }
  }

  /** Every tree on the border of the forest is visible. */
  lemma BorderVisible(f: Forest, x: nat, y: nat)
    requires At(f, x, y)
    requires x == 0 || x == |f| - 1 || y == 0 || y == Width(f) - 1
    ensures Visible(Intended, f, x, y)
  {
    if x == 0 {
      assert ClearUp(f, x, y);
    } else if x == |f| - 1 {
      assert ClearDown(f, x, y);
    } else if y == 0 {
      assert ClearLeft(f, x, y);
    } else {
      assert ClearRight(f, x, y);
    }
  }

  /** On a square forest the guards coincide with the border, so both
      readings agree. */
  lemma SquareReadingsAgree(f: Forest, x: nat, y: nat)
    requires At(f, x, y) && Width(f) == |f|
    ensures Visible(AsWritten, f, x, y) == Visible(Intended, f, x, y)
  {
    ShortcutEffect(f, x, y);
    if x == Width(f) - 1 || y == |f| - 1 {
      BorderVisible(f, x, y);
    }
  }

  // ---------------------------------------------------------------------------
  // Counting

  /** `row.each_with_index.count { … }` over the first `n` columns of row `x`. */
  function CountRow(reading: Reading, f: Forest, x: nat, n: nat): (c: nat)
    requires Rectangular(f) && x < |f| && n <= |f[x]|
    ensures c <= n
  {
    if n == 0 then 0
    else CountRow(reading, f, x, n - 1) + (if Visible(reading, f, x, n - 1) then 1 else 0)
  }

  /** `forest.each_with_index.sum { … }` over the first `n` rows. */
  function CountRows(reading: Reading, f: Forest, n: nat): (c: nat)
    requires Rectangular(f) && n <= |f|
  {
    if n == 0 then 0
    else CountRows(reading, f, n - 1) + CountRow(reading, f, n - 1, |f[n - 1]|)
  }

  /** Each row contributes at most its width. */
  lemma {:induction false} CountRowsBounded(reading: Reading, f: Forest, n: nat)
    requires Rectangular(f) && 0 < n <= |f|
    ensures CountRows(reading, f, n) <= n * Width(f)
  {
    if n > 1 {
      CountRowsBounded(reading, f, n - 1);
      assert (n - 1) * Width(f) + Width(f) == n * Width(f);
    }
  }

  /** `CountVisibleTrees.call` as the source computes it. */
  function CountVisibleAsWritten(f: Forest): (c: nat)
    requires Rectangular(f)
  {
    CountRows(AsWritten, f, |f|)
  }

  /** `CountVisibleTrees.call` with the guards on the matching coordinate. */
  function CountVisibleTrees(f: Forest): (c: nat)
    requires Rectangular(f)
  {
    CountRows(Intended, f, |f|)
  }

  /** Which trees are visible, row by row. */
  function Sightings(reading: Reading, f: Forest): (m: seq<seq<bool>>)
    requires Rectangular(f)
    ensures |m| == |f|
    ensures forall x | 0 <= x < |f| :: |m[x]| == |f[x]|
    ensures forall x, y | 0 <= x < |f| && 0 <= y < |f[x]| :: m[x][y] == Visible(reading, f, x, y)
  {
    seq(|f|, x requires 0 <= x < |f| =>
      seq(|f[x]|, y requires 0 <= y < |f[x]| => Visible(reading, f, x, y)))
  }

  /** The positions of the visible trees. */
  function VisibleSet(reading: Reading, f: Forest): set<(nat, nat)>
    requires Rectangular(f)
  {
    Marked(Sightings(reading, f), |f|)
  }

  /** The positions marked true in the first `n` rows of `m`. */
  function Marked(m: seq<seq<bool>>, n: nat): set<(nat, nat)>
    requires n <= |m|
  {
    set x: nat, y: nat | x < n && y < |m[x]| && m[x][y] :: (x, y)
  }

  function MarkedInRow(m: seq<seq<bool>>, x: nat, n: nat): set<(nat, nat)>
    requires x < |m| && n <= |m[x]|
  {
    set y: nat | y < n && m[x][y] :: (x, y)
  }

  function CountMarks(bs: seq<bool>, n: nat): nat
    requires n <= |bs|
  {
    if n == 0 then 0 else CountMarks(bs, n - 1) + (if bs[n - 1] then 1 else 0)
  }

  lemma {:induction false} CountMarksIsCard(m: seq<seq<bool>>, x: nat, n: nat)
    requires x < |m| && n <= |m[x]|
    ensures CountMarks(m[x], n) == |MarkedInRow(m, x, n)|
  {
    if n == 0 {
      assert MarkedInRow(m, x, n) == {};
    } else {
      CountMarksIsCard(m, x, n - 1);
      var before := MarkedInRow(m, x, n - 1);
      if m[x][n - 1] {
        assert MarkedInRow(m, x, n) == before + {(x, n - 1)};
        assert (x, n - 1) !in before;
      } else {
        assert MarkedInRow(m, x, n) == before;
      }
    }
  }

  lemma {:induction false} CountRowMarks(reading: Reading, f: Forest, x: nat, n: nat)
    requires Rectangular(f) && x < |f| && n <= |f[x]|
    ensures CountRow(reading, f, x, n) == CountMarks(Sightings(reading, f)[x], n)
  {
    if n > 0 {
      CountRowMarks(reading, f, x, n - 1);
    }
  }

  /** One more row adds exactly the marks of that row. */
  lemma MarkedStep(m: seq<seq<bool>>, n: nat)
    requires n < |m|
    ensures |Marked(m, n + 1)| == |Marked(m, n)| + |MarkedInRow(m, n, |m[n]|)|
  {
    var before, row := Marked(m, n), MarkedInRow(m, n, |m[n]|);
    assert Marked(m, n + 1) == before + row;
    assert before * row == {};
  }

  lemma {:induction false} CountRowsIsCard(reading: Reading, f: Forest, n: nat)
    requires Rectangular(f) && n <= |f|
    ensures CountRows(reading, f, n) == |Marked(Sightings(reading, f), n)|
  {
    var m := Sightings(reading, f);
    if n == 0 {
      assert Marked(m, n) == {};
    } else {
      var x := n - 1;
      var w := |f[x]|;
      assert |m[x]| == w;
      CountRowsIsCard(reading, f, x);
      CountRowMarks(reading, f, x, w);
      CountMarksIsCard(m, x, w);
      MarkedStep(m, x);
      assert CountRows(reading, f, n) == CountRows(reading, f, x) + CountRow(reading, f, x, w);
    }
  }

  /** The count is the number of positions whose tree is visible. */
  lemma CountIsVisiblePositions(reading: Reading, f: Forest)
    requires Rectangular(f)
    ensures CountRows(reading, f, |f|) == |VisibleSet(reading, f)|
    ensures forall x, y | 0 <= x < |f| && 0 <= y < |f[x]| ::
      (x, y) in VisibleSet(reading, f) <==> Visible(reading, f, x, y)
  {
    CountRowsIsCard(reading, f, |f|);
  }

  /** No more trees are visible than the forest holds. */
  lemma CountBounded(f: Forest)
    requires Rectangular(f)
    ensures |f| > 0 ==> CountVisibleTrees(f) <= |f| * Width(f)
    ensures |f| > 0 ==> CountVisibleAsWritten(f) <= |f| * Width(f)
    ensures |f| == 0 ==> CountVisibleTrees(f) == 0 && CountVisibleAsWritten(f) == 0
  {
    if |f| > 0 {
      CountRowsBounded(Intended, f, |f|);
      CountRowsBounded(AsWritten, f, |f|);
    }
  }

  lemma {:induction false} SquareRowCountsAgree(f: Forest, x: nat, n: nat)
    requires Rectangular(f) && |f| > 0 && Width(f) == |f| && x < |f| && n <= |f[x]|
    ensures CountRow(AsWritten, f, x, n) == CountRow(Intended, f, x, n)
  {
    if n > 0 {
      SquareRowCountsAgree(f, x, n - 1);
      SquareReadingsAgree(f, x, n - 1);
    }
  }

  lemma {:induction false} SquareCountsAgree(f: Forest, n: nat)
    requires Rectangular(f) && |f| > 0 && Width(f) == |f| && n <= |f|
    ensures CountRows(AsWritten, f, n) == CountRows(Intended, f, n)
  {
    if n > 0 {
      SquareCountsAgree(f, n - 1);
      SquareRowCountsAgree(f, n - 1, |f[n - 1]|);
    }
  }

  /** On a square forest the source's count is the intended one. */
  lemma SquareCountAsWrittenIsIntended(f: Forest)
    requires Rectangular(f) && (|f| == 0 || Width(f) == |f|)
    ensures CountVisibleAsWritten(f) == CountVisibleTrees(f)
  {
    if |f| > 0 {
      SquareCountsAgree(f, |f|);
    }
  }

  // ---------------------------------------------------------------------------
  // Parsing

  /** `line.strip.chars.map(&:to_i)`: a digit reads as its value and any
      other character as 0. */
  function ParseRow(line: string): (row: seq<nat>)
    ensures |row| == |Strip(line)|
    ensures forall k | 0 <= k < |row| && IsDigit(Strip(line)[k]) ::
      row[k] == Strip(line)[k] as int - '0' as int
    ensures forall k | 0 <= k < |row| && !IsDigit(Strip(line)[k]) :: row[k] == 0
  {
    var s := Strip(line);
    seq(|s|, k requires 0 <= k < |s| => ToI([s[k]]))
  }

  /** `ParseForest.call`: one row per line of the input. */
  function ParseForest(input: string): (f: Forest)
    ensures |f| == |EachLine(input)|
    ensures forall x | 0 <= x < |f| :: f[x] == ParseRow(EachLine(input)[x])
  {
    var ls := EachLine(input);
    seq(|ls|, x requires 0 <= x < |ls| => ParseRow(ls[x]))
  }

  predicate SingleDigits(f: Forest) {
    forall x, y | 0 <= x < |f| && 0 <= y < |f[x]| :: f[x][y] < 10
  }

  function DigitChar(h: nat): (c: char)
    requires h < 10
    ensures IsDigit(c) && c as int - '0' as int == h
  {
    ('0' as int + h) as char
  }

  /** The text a forest is written as: each row's digits and a "\n". */
  function RowLine(row: seq<nat>): (line: string)
    requires forall k | 0 <= k < |row| :: row[k] < 10
    ensures |line| == |row| + 1 && line[|row|] == '\n'
    ensures forall k | 0 <= k < |row| :: line[k] == DigitChar(row[k])
    ensures AllDigits(line[..|row|])
  {
    seq(|row|, k requires 0 <= k < |row| => DigitChar(row[k])) + "\n"
  }

  function Render(f: Forest): (ls: seq<string>)
    requires SingleDigits(f)
    ensures |ls| == |f|
    ensures forall x | 0 <= x < |f| :: ls[x] == RowLine(f[x])
  {
    seq(|f|, x requires 0 <= x < |f| => RowLine(f[x]))
  }

  lemma ParseRowOfRowLine(row: seq<nat>)
    requires forall k | 0 <= k < |row| :: row[k] < 10
    ensures ParseRow(RowLine(row)) == row
  {
    var line := RowLine(row);
    var d := line[..|row|];
    assert line == d + "\n";
    StripDigitLine(d);
    forall k | 0 <= k < |row|
      ensures ParseRow(line)[k] == row[k]
    {
      assert Strip(line)[k] == line[k];
    }
  }

  /** Reading back a written forest gives the same forest. */
  lemma ParseForestOfRender(f: Forest)
    requires SingleDigits(f)
    ensures ParseForest(Concat(Render(f))) == f
  {
    var ls := Render(f);
    assert Terminated(ls) by {
      forall x | 0 <= x < |ls|
        ensures '\n' !in ls[x][..|ls[x]| - 1]
      {
        assert ls[x][..|ls[x]| - 1] == ls[x][..|f[x]|];
      }
    }
    EachLineOfConcat(ls);
    forall x | 0 <= x < |f|
      ensures ParseForest(Concat(ls))[x] == f[x]
    {
      ParseRowOfRowLine(f[x]);
    }
  }

  /** The part-one answer the script prints: the count as written. It is
      the number of visible trees whenever the forest is square. */
  function SolvePartOne(input: string): (c: nat)
    requires Rectangular(ParseForest(input))
    ensures AnswerFor(ParseForest(input), c)
  {
    var f := ParseForest(input);
    AnswerForAsWritten(f);
    CountVisibleAsWritten(f)
  }

  /** What the printed count promises: no more than the trees there are, and
      the visible ones exactly when the forest is square. */
  predicate AnswerFor(f: Forest, c: nat)
    requires Rectangular(f)
  {
    && (|f| > 0 ==> c <= |f| * Width(f))
    && (|f| == 0 || Width(f) == |f| ==> c == CountVisibleTrees(f))
  }

  lemma AnswerForAsWritten(f: Forest)
    requires Rectangular(f)
    ensures AnswerFor(f, CountVisibleAsWritten(f))
  {
    CountBounded(f);
    if |f| == 0 || Width(f) == |f| {
      SquareCountAsWrittenIsIntended(f);
    }
  }

  // ---------------------------------------------------------------------------
  // The guards on a forest that is not square

  /** Three rows of four equal trees: the ten border trees are visible and
      the two inner ones are not, but the source's guard on column
      `height - 1 = 2` also counts the inner tree in that column. */
  lemma NonSquareCounterexample(f: Forest)
    requires f == [[5, 5, 5, 5], [5, 5, 5, 5], [5, 5, 5, 5]]
    ensures CountVisibleTrees(f) == 10
    ensures CountVisibleAsWritten(f) == 11
  {
    forall x, y | 0 <= x < 3 && 0 <= y < 4 && (x == 0 || x == 2 || y == 0 || y == 3)
      ensures Visible(Intended, f, x, y) && Visible(AsWritten, f, x, y)
    {
      BorderVisible(f, x, y);
      ShortcutEffect(f, x, y);
    }
    forall y | 1 <= y < 3
      ensures !ClearLeft(f, 1, y) && !ClearRight(f, 1, y) && !ClearUp(f, 1, y) && !ClearDown(f, 1, y)
    {
      assert f[1][0] == f[1][y] && f[1][3] == f[1][y] && f[0][y] == f[1][y] && f[2][y] == f[1][y];
    }
    assert !Visible(AsWritten, f, 1, 1);
    assert Visible(AsWritten, f, 1, 2);
    forall r: Reading, x | x == 0 || x == 2
      ensures CountRow(r, f, x, 4) == 4
    {
      assert CountRow(r, f, x, 1) == 1;
      assert CountRow(r, f, x, 2) == 2;
      assert CountRow(r, f, x, 3) == 3;
    }
    assert CountRow(Intended, f, 1, 1) == 1;
    assert CountRow(Intended, f, 1, 2) == 1;
    assert CountRow(Intended, f, 1, 3) == 1;
    assert CountRow(Intended, f, 1, 4) == 2;
    assert CountRow(AsWritten, f, 1, 2) == 1;
    assert CountRow(AsWritten, f, 1, 3) == 2;
    assert CountRow(AsWritten, f, 1, 4) == 3;
    assert CountRows(Intended, f, 1) == 4;
    assert CountRows(AsWritten, f, 1) == 4;
    assert CountRows(Intended, f, 2) == 6;
    assert CountRows(AsWritten, f, 2) == 7;
  }

  // ---------------------------------------------------------------------------
  // The example forest

  /** A tree is hidden when each direction holds a tree at least as tall. */
  lemma Hidden(f: Forest, x: nat, y: nat, l: nat, r: nat, u: nat, d: nat)
    requires At(f, x, y)
    requires l < y && f[x][l] >= f[x][y]
    requires y < r < |f[x]| && f[x][r] >= f[x][y]
    requires u < x && f[u][y] >= f[x][y]
    requires x < d < |f| && f[d][y] >= f[x][y]
    ensures !Visible(Intended, f, x, y)
  {
  }

  /** A row's count read off a list of which of its trees are visible. */
  lemma {:induction false} CountRowOf(reading: Reading, f: Forest, x: nat, seen: seq<bool>, n: nat)
    requires Rectangular(f) && x < |f| && |seen| == |f[x]| && n <= |seen|
    requires forall y | 0 <= y < |seen| :: Visible(reading, f, x, y) == seen[y]
    ensures CountRow(reading, f, x, n) == CountMarks(seen, n)
  {
    if n > 0 {
      CountRowOf(reading, f, x, seen, n - 1);
    }
  }

  /** The example of the puzzle statement. */
  predicate IsExample(f: Forest) {
    f == [[3, 0, 3, 7, 3], [2, 5, 5, 1, 2], [6, 5, 3, 3, 2], [3, 3, 5, 4, 9], [3, 5, 3, 9, 0]]
  }

  lemma ExampleBorder(f: Forest, x: nat, y: nat)
    requires IsExample(f) && x < 5 && y < 5 && (x == 0 || x == 4 || y == 0 || y == 4)
    ensures Visible(Intended, f, x, y)
  {
    BorderVisible(f, x, y);
  }

  lemma ExampleOuterRows(f: Forest)
    requires IsExample(f)
    ensures CountRow(Intended, f, 0, 5) == 5 && CountRow(Intended, f, 4, 5) == 5
  {
    forall x, y | (x == 0 || x == 4) && 0 <= y < 5
      ensures Visible(Intended, f, x, y)
    {
      ExampleBorder(f, x, y);
    }
    CountRowOf(Intended, f, 0, [true, true, true, true, true], 5);
    CountRowOf(Intended, f, 4, [true, true, true, true, true], 5);
  }

  lemma ExampleRowOne(f: Forest)
    requires IsExample(f)
    ensures CountRow(Intended, f, 1, 5) == 4
  {
    ExampleBorder(f, 1, 0);
    ExampleBorder(f, 1, 4);
    assert ClearLeft(f, 1, 1) && ClearRight(f, 1, 2);
    Hidden(f, 1, 3, 1, 4, 0, 2);
    CountRowOf(Intended, f, 1, [true, true, true, false, true], 5);
  }

  lemma ExampleRowTwo(f: Forest)
    requires IsExample(f)
    ensures CountRow(Intended, f, 2, 5) == 4
  {
    ExampleBorder(f, 2, 0);
    ExampleBorder(f, 2, 4);
    assert ClearRight(f, 2, 1) && ClearRight(f, 2, 3);
    Hidden(f, 2, 2, 1, 3, 1, 3);
    CountRowOf(Intended, f, 2, [true, true, false, true, true], 5);
  }

  lemma ExampleRowThree(f: Forest)
    requires IsExample(f)
    ensures CountRow(Intended, f, 3, 5) == 3
  {
    ExampleBorder(f, 3, 0);
    ExampleBorder(f, 3, 4);
    assert ClearDown(f, 3, 2);
    Hidden(f, 3, 1, 0, 2, 2, 4);
    Hidden(f, 3, 3, 2, 4, 0, 4);
    CountRowOf(Intended, f, 3, [true, false, true, false, true], 5);
  }

  /** The example forest has 21 visible trees, under either reading. */
  lemma ExampleCount(f: Forest)
    requires IsExample(f)
    ensures CountVisibleTrees(f) == 21 && CountVisibleAsWritten(f) == 21
  {
    ExampleOuterRows(f);
    ExampleRowOne(f);
    ExampleRowTwo(f);
    ExampleRowThree(f);
    assert CountRows(Intended, f, 1) == 5;
    assert CountRows(Intended, f, 2) == 9;
    assert CountRows(Intended, f, 3) == 13;
    assert CountRows(Intended, f, 4) == 16;
    SquareCountAsWrittenIsIntended(f);
  }

  lemma RowLineOf(row: seq<nat>, digits: string)
    requires |digits| == |row|
    requires forall k | 0 <= k < |row| :: row[k] < 10 && digits[k] as int == '0' as int + row[k]
    ensures RowLine(row) == digits + "\n"
  {
  }

  lemma RenderExampleRows(f: Forest)
    requires IsExample(f)
    ensures SingleDigits(f)
    ensures |Render(f)| == 5
    ensures Render(f)[0] == "30373\n" && Render(f)[1] == "25512\n" && Render(f)[2] == "65332\n"
    ensures Render(f)[3] == "33549\n" && Render(f)[4] == "35390\n"
  {
    RowLineOne(f[0]);
    RowLineTwo(f[1]);
    RowLineThree(f[2]);
    RowLineFour(f[3]);
    RowLineFive(f[4]);
  }

  /** Each row of the example is written as its digits. */
  lemma RowLineOne(row: seq<nat>)
    requires row == [3, 0, 3, 7, 3]
    ensures RowLine(row) == "30373\n"
  {
    RowLineOf(row, "30373");
  }

  lemma RowLineTwo(row: seq<nat>)
    requires row == [2, 5, 5, 1, 2]
    ensures RowLine(row) == "25512\n"
  {
    RowLineOf(row, "25512");
  }

  lemma RowLineThree(row: seq<nat>)
    requires row == [6, 5, 3, 3, 2]
    ensures RowLine(row) == "65332\n"
  {
    RowLineOf(row, "65332");
  }

  lemma RowLineFour(row: seq<nat>)
    requires row == [3, 3, 5, 4, 9]
    ensures RowLine(row) == "33549\n"
  {
    RowLineOf(row, "33549");
  }

  lemma RowLineFive(row: seq<nat>)
    requires row == [3, 5, 3, 9, 0]
    ensures RowLine(row) == "35390\n"
  {
    RowLineOf(row, "35390");
  }

  lemma ConcatExample(ls: seq<string>)
    requires |ls| == 5 && ls[0] == "30373\n" && ls[1] == "25512\n" && ls[2] == "65332\n"
    requires ls[3] == "33549\n" && ls[4] == "35390\n"
    ensures Concat(ls) == "30373\n25512\n65332\n33549\n35390\n"
  {
    ConcatOfFive(ls);
  }

  /** Five rows joined are the rows one after another. */
  lemma ConcatOfFive(ls: seq<string>)
    requires |ls| == 5
    ensures Concat(ls) == ls[0] + (ls[1] + (ls[2] + (ls[3] + ls[4])))
  {
    assert ls[4..][1..] == [];
    assert ls[3..][1..] == ls[4..];
    assert ls[2..][1..] == ls[3..];
    assert ls[1..][1..] == ls[2..];
    assert Concat(ls[4..]) == ls[4] by { assert ls[4] + [] == ls[4]; }
    assert Concat(ls[3..]) == ls[3] + ls[4];
    assert Concat(ls[2..]) == ls[2] + (ls[3] + ls[4]);
    assert Concat(ls[1..]) == ls[1] + (ls[2] + (ls[3] + ls[4]));
  }

  lemma RenderExample(f: Forest)
    requires IsExample(f)
    ensures SingleDigits(f)
    ensures Concat(Render(f)) == "30373\n25512\n65332\n33549\n35390\n"
  {
    RenderExampleRows(f);
    ConcatExample(Render(f));
  }

  /** The example's text parses to the example forest. */
  lemma ParseExample(input: string, f: Forest)
    requires IsExample(f) && input == "30373\n25512\n65332\n33549\n35390\n"
    ensures ParseForest(input) == f
  {
    RenderExample(f);
    ParseForestOfRender(f);
  }
}

/** Day 5: crate stacks. `ParseStacks` reads the drawing into a hash from
    stack number to crates (bottom first), `ExecuteMoveOrder` moves the top
    crates of one stack onto another keeping their order, `UnloadCrates`
    runs every `move` line, and `ObserveTopCrates` reads the top crates in
    stack order. */
module CrateStacks {
  import opened Wrappers
  import opened Text
  import opened Sums

  /** The hash of stacks; each stack lists its crates bottom first. */
  type Stacks = map<nat, seq<char>>

  /** `stacks[k]` on the hash `ParseStacks` builds, whose default block
      yields an empty stack for a missing key. */
  function Get(m: Stacks, k: nat): seq<char> {
    if k in m then m[k] else []
  }

  // ---------------------------------------------------------------------------
  // The drawing

  /** The regex class `\w`. */
  predicate IsWord(c: char) {
    'a' <= c <= 'z' || 'A' <= c <= 'Z' || '0' <= c <= '9' || c == '_'
  }

  predicate CrateAt(s: string, p: nat) {
    p + 3 <= |s| && s[p] == '[' && IsWord(s[p + 1]) && s[p + 2] == ']'
  }

  predicate GapAt(s: string, p: nat) {
    p + 4 <= |s| && IsSpace(s[p]) && IsSpace(s[p + 1]) && IsSpace(s[p + 2]) && IsSpace(s[p + 3])
  }

  /** `line.scan(/\s{4}|\[\w\]/)` from position `p`: each match in order,
      `None` for four blanks and the letter for a bracketed crate; between
      matches the scan moves on one character at a time. */
  function Scan(s: string, p: nat): (items: seq<Option<char>>)
    requires p <= |s|
    ensures forall k | 0 <= k < |items| :: items[k].Some? ==> IsWord(items[k].value)
    ensures |items| <= |s| - p
    decreases |s| - p
  {
    if GapAt(s, p) then [None] + Scan(s, p + 4)
    else if CrateAt(s, p) then [Some(s[p + 1])] + Scan(s, p + 3)
    else if p < |s| then Scan(s, p + 1)
    else []
  }

  /** How a drawing shows one slot: a bracketed crate, or three blanks. */
  function Cell(item: Option<char>): (c: string)
    ensures |c| == 3
  {
    if item.Some? then ['[', item.value, ']'] else "   "
  }

  /** A drawing row: the cells, one blank between neighbours, and a "\n". */
  function RenderRow(items: seq<Option<char>>): (line: string)
  {
    if items == [] then "\n" else Cell(items[0]) + CellsAfter(items[1..])
  }

  /** The text after a cell: a blank and the next cell for each item, then
      the "\n". */
  function CellsAfter(items: seq<Option<char>>): (t: string)
    ensures |t| > 0 && IsSpace(t[0])
    decreases |items|
  {
    if items == [] then "\n" else " " + Cell(items[0]) + CellsAfter(items[1..])
  }

  predicate Crates(items: seq<Option<char>>) {
    forall k | 0 <= k < |items| :: items[k].Some? ==> IsWord(items[k].value)
  }

  /** The scan looks only at the text from its position on. */
  lemma {:induction false} ScanShift(s: string, p: nat, q: nat)
    requires p + q <= |s|
    ensures Scan(s, p + q) == Scan(s[p..], q)
    decreases |s| - p - q
  {
    var t, i := s[p..], p + q;
    ShiftedShapes(s, p, q);
    if GapAt(s, i) {
      assert Scan(t, q) == [None] + Scan(t, q + 4);
      ScanShift(s, p, q + 4);
    } else if CrateAt(s, i) {
      assert Scan(t, q) == [Some(t[q + 1])] + Scan(t, q + 3);
      ScanShift(s, p, q + 3);
    } else if i < |s| {
      assert Scan(t, q) == Scan(t, q + 1);
      ScanShift(s, p, q + 1);
    }
  }

  lemma ShiftedShapes(s: string, p: nat, q: nat)
    requires p + q <= |s|
    ensures GapAt(s, p + q) == GapAt(s[p..], q)
    ensures CrateAt(s, p + q) == CrateAt(s[p..], q)
    ensures CrateAt(s, p + q) ==> s[p + q + 1] == s[p..][q + 1]
  {
    var t, i := s[p..], p + q;
    if i + 3 <= |s| {
      assert t[q] == s[i] && t[q + 1] == s[i + 1] && t[q + 2] == s[i + 2];
    }
    if i + 4 <= |s| {
      assert t[q + 3] == s[i + 3];
    }
  }

  /** Four blanks are an empty slot. */
  lemma ScanGapStep(s: string)
    requires GapAt(s, 0)
    ensures Scan(s, 0) == [None] + Scan(s[4..], 0)
  {
    ScanShift(s, 4, 0);
  }

  /** A bracketed crate is a crate. */
  lemma ScanCrateStep(s: string)
    requires !GapAt(s, 0) && CrateAt(s, 0)
    ensures Scan(s, 0) == [Some(s[1])] + Scan(s[3..], 0)
  {
    ScanShift(s, 3, 0);
  }

  /** Anything else is passed over one character at a time. */
  lemma ScanSkipStep(s: string)
    requires |s| > 0 && !GapAt(s, 0) && !CrateAt(s, 0)
    ensures Scan(s, 0) == Scan(s[1..], 0)
  {
    ScanShift(s, 1, 0);
  }

  /** From just after a cell, the scan finds the remaining cells. */
  lemma {:induction false} ScanCellsAfter(items: seq<Option<char>>)
    requires Crates(items)
    ensures Scan(CellsAfter(items), 0) == items
    decreases |items|
  {
    if items == [] {
      ScanSkipStep(CellsAfter(items));
    } else {
      ScanCellsAfter(items[1..]);
      ScanCellAfter(items);
    }
  }

  /** One blank and a cell: the scan reports the cell and goes on after it. */
  lemma ScanCellAfter(items: seq<Option<char>>)
    requires items != [] && (items[0].Some? ==> IsWord(items[0].value))
    ensures Scan(CellsAfter(items), 0) == [items[0]] + Scan(CellsAfter(items[1..]), 0)
  {
    var c, t := Cell(items[0]), CellsAfter(items[1..]);
    assert CellsAfter(items) == " " + c + t;
    if items[0].None? {
      ScanBlankGap(t);
    } else {
      ScanBlankCrate(items[0].value, t);
    }
  }

  lemma ScanBlankGap(t: string)
    ensures Scan(" " + "   " + t, 0) == [None] + Scan(t, 0)
  {
    var s := " " + "   " + t;
    assert GapAt(s, 0);
    ScanGapStep(s);
    assert s[4..] == t;
  }

  lemma ScanBlankCrate(x: char, t: string)
    requires IsWord(x)
    ensures Scan(" " + ['[', x, ']'] + t, 0) == [Some(x)] + Scan(t, 0)
  {
    var s := " " + ['[', x, ']'] + t;
    var u := s[1..];
    assert u == ['[', x, ']'] + t;
    ScanSkipStep(s);
    ScanCrateStep(u);
    assert u[3..] == t;
  }

  /** Scanning a drawn row gives back its slots: item `i` is what the cell
      at column `4 * i` shows. */
  lemma {:induction false} ScanRenderRow(items: seq<Option<char>>)
    requires Crates(items)
    ensures Scan(RenderRow(items), 0) == items
    decreases |items|, 1
  {
    var s := RenderRow(items);
    if items == [] {
      ScanSkipStep(s);
    } else {
      var c, t := Cell(items[0]), CellsAfter(items[1..]);
      assert s == c + t;
      if items[0].None? {
        assert s[3] == t[0];
        ScanGapStep(s);
        ScanRestOfRow(items[1..], t, s[4..]);
      } else {
        ScanCrateStep(s);
        assert s[3..] == t;
        ScanCellsAfter(items[1..]);
      }
    }
  }

  /** What follows the blank after an empty slot is the rest of the row. */
  lemma ScanRestOfRow(items: seq<Option<char>>, t: string, u: string)
    requires Crates(items) && t == CellsAfter(items) && u == t[1..]
    ensures Scan(u, 0) == items
    decreases |items| + 1, 0
  {
    if items == [] {
      assert u == [];
    } else {
      assert u == RenderRow(items);
      ScanRenderRow(items);
    }
  }

  /** `each_with_index`: the crate of item `j` goes onto stack `base + j + 1`,
      prepended, since rows are drawn top first. */
  function PlaceRow(m: Stacks, items: seq<Option<char>>, base: nat): (r: Stacks)
    decreases |items|
  {
    if items == [] then m
    else
      var m' := if items[0].Some? then m[base + 1 := [items[0].value] + Get(m, base + 1)] else m;
      PlaceRow(m', items[1..], base + 1)
  }

  /** The crate a row shows in slot `j`, if any. */
  function SlotCrate(items: seq<Option<char>>, j: nat): seq<char> {
    if j < |items| && items[j].Some? then [items[j].value] else []
  }

  /** The per-stack view of one row: stack `k` receives the row's crate in
      slot `k - 1` at its bottom, and nothing else changes. */
  lemma {:induction false} PlaceRowSlots(m: Stacks, items: seq<Option<char>>, base: nat, k: nat)
    ensures Get(PlaceRow(m, items, base), k)
         == (if k > base then SlotCrate(items, k - base - 1) else []) + Get(m, k)
    decreases |items|
  {
    if items != [] {
      var m' := if items[0].Some? then m[base + 1 := [items[0].value] + Get(m, base + 1)] else m;
      assert PlaceRow(m, items, base) == PlaceRow(m', items[1..], base + 1);
      var next := base + 1;
      PlaceRowSlots(m', items[1..], next, k);
      HeadSlot(m, items, base, k);
      if k > next {
        assert SlotCrate(items[1..], k - next - 1) == SlotCrate(items, k - base - 1);
      }
    }
  }

  /** Placing the first slot of a row touches stack `base + 1` only. */
  lemma HeadSlot(m: Stacks, items: seq<Option<char>>, base: nat, k: nat)
    requires items != []
    ensures var m' := if items[0].Some? then m[base + 1 := [items[0].value] + Get(m, base + 1)] else m;
      Get(m', k) == (if k == base + 1 then SlotCrate(items, 0) else []) + Get(m, k)
  {
  }

  /** A row adds stack `k` exactly when its slot `k - 1` holds a crate. */
  lemma {:induction false} PlaceRowKeys(m: Stacks, items: seq<Option<char>>, base: nat, k: nat)
    ensures k in PlaceRow(m, items, base) <==> k in m || (k > base && SlotCrate(items, k - base - 1) != [])
    decreases |items|
  {
    if items != [] {
      var m' := if items[0].Some? then m[base + 1 := [items[0].value] + Get(m, base + 1)] else m;
      assert PlaceRow(m, items, base) == PlaceRow(m', items[1..], base + 1);
      PlaceRowKeys(m', items[1..], base + 1, k);
      if k > base + 1 {
        assert SlotCrate(items[1..], k - (base + 1) - 1) == SlotCrate(items, k - base - 1);
      }
    }
  }

  lemma RowSlot(m: Stacks, items: seq<Option<char>>, k: nat)
    requires k >= 1
    ensures Get(PlaceRow(m, items, 0), k) == SlotCrate(items, k - 1) + Get(m, k)
  {
    PlaceRowSlots(m, items, 0, k);
  }

  /** A line that `strip` empties, which ends the drawing. */
  predicate IsBlank(line: string) {
    forall k | 0 <= k < |line| :: IsStripped(line[k])
  }

  lemma BlankMeansStripEmpty(line: string)
    ensures IsBlank(line) <==> Strip(line) == []
  {
  }

  /** The `each_line` loop of `ParseStacks` on the lines from `m` on, up to
      the first blank line. */
  function ParseFrom(m: Stacks, lines: seq<string>): (r: Stacks)
    decreases |lines|
  {
    if lines == [] || IsBlank(lines[0]) then m
    else ParseFrom(PlaceRow(m, Scan(lines[0], 0), 0), lines[1..])
  }

  function ParseStacks(lines: seq<string>): (r: Stacks) {
    ParseFrom(map[], lines)
  }

  /** The lines before the first blank one. */
  function Drawing(lines: seq<string>): (d: seq<string>)
    ensures d <= lines
    ensures forall i | 0 <= i < |d| :: !IsBlank(d[i])
    ensures |d| < |lines| ==> IsBlank(lines[|d|])
  {
    if lines == [] || IsBlank(lines[0]) then []
    else
      var rest := Drawing(lines[1..]);
      assert lines == [lines[0]] + lines[1..];
      [lines[0]] + rest
  }

  /** Column `k` of a drawing read top to bottom: the crate each row shows in
      slot `k - 1`. */
  function Column(d: seq<string>, k: nat): seq<char>
    requires k >= 1
  {
    if d == [] then [] else SlotCrate(Scan(d[0], 0), k - 1) + Column(d[1..], k)
  }

  function Reverse(s: seq<char>): (r: seq<char>)
    ensures |r| == |s|
    ensures forall i | 0 <= i < |s| :: r[i] == s[|s| - 1 - i]
  {
    if s == [] then [] else Reverse(s[1..]) + [s[0]]
  }

  lemma {:induction false} ParseFromColumns(m: Stacks, lines: seq<string>, k: nat)
    requires k >= 1
    ensures Get(ParseFrom(m, lines), k) == Reverse(Column(Drawing(lines), k)) + Get(m, k)
    decreases |lines|
  {
    if lines != [] && !IsBlank(lines[0]) {
      var items := Scan(lines[0], 0);
      var x := SlotCrate(items, k - 1);
      var c := Column(Drawing(lines[1..]), k);
      var m1 := PlaceRow(m, items, 0);
      assert ParseFrom(m, lines) == ParseFrom(m1, lines[1..]);
      RowSlot(m, items, k);
      ParseFromColumns(m1, lines[1..], k);
      ColumnStep(lines, k);
      ReverseAfterOne(x, c);
      AppendAssoc(Reverse(c), x, Get(m, k));
    }
  }

  lemma ColumnStep(lines: seq<string>, k: nat)
    requires k >= 1 && lines != [] && !IsBlank(lines[0])
    ensures Column(Drawing(lines), k) == SlotCrate(Scan(lines[0], 0), k - 1) + Column(Drawing(lines[1..]), k)
  {
    var d := Drawing(lines);
    assert d[0] == lines[0] && d[1..] == Drawing(lines[1..]);
  }

  lemma {:induction false} ParseFromKeys(m: Stacks, lines: seq<string>, k: nat)
    ensures k in ParseFrom(m, lines) <==> k in m || (k >= 1 && Column(Drawing(lines), k) != [])
    decreases |lines|
  {
    if lines != [] && !IsBlank(lines[0]) {
      var items := Scan(lines[0], 0);
      PlaceRowKeys(m, items, 0, k);
      ParseFromKeys(PlaceRow(m, items, 0), lines[1..], k);
      var d := Drawing(lines);
      assert d[0] == lines[0] && d[1..] == Drawing(lines[1..]);
    }
  }

  lemma ReverseAfterOne(x: seq<char>, c: seq<char>)
    requires |x| <= 1
    ensures Reverse(x + c) == Reverse(c) + x
  {
    if x == [] {
      assert x + c == c;
    } else {
      var xc := x + c;
      assert xc[0] == x[0] && xc[1..] == c;
      assert Reverse(xc) == Reverse(c) + [x[0]];
      assert x == [x[0]];
    }
  }

  /** Stack `k` is column `k` of the drawing turned upside down, so the top
      row's crate ends up last, on top; a stack exists only where the column
      shows a crate, and lines after the first blank one are never read. */
  lemma ParseStacksColumns(lines: seq<string>, k: nat)
    requires k >= 1
    ensures Get(ParseStacks(lines), k) == Reverse(Column(Drawing(lines), k))
    ensures k in ParseStacks(lines) <==> Column(Drawing(lines), k) != []
    ensures 0 !in ParseStacks(lines)
  {
    ParseFromColumns(map[], lines, k);
    ParseFromKeys(map[], lines, k);
    ParseFromKeys(map[], lines, 0);
  }

  // ---------------------------------------------------------------------------
  // Move orders

  datatype Move = Move(count: nat, source: nat, destination: nat)

  /** What follows the literal `lit` at the start of `s`. */
  function After(lit: string, s: string): (r: Option<string>)
    ensures r.Some? <==> lit <= s
    ensures r.Some? ==> s == lit + r.value
  {
    if lit <= s then Some(s[|lit|..]) else None
  }

  /** A greedy `\d+` at the start of `s`: its `to_i` value and what follows,
      which does not start with a digit. */
  function Number(s: string): (r: Option<(nat, string)>)
    ensures r.Some? ==> |r.value.1| < |s| && s[|s| - |r.value.1|..] == r.value.1
    ensures r.Some? ==> r.value.1 == [] || !IsDigit(r.value.1[0])
  {
    var n := DigitRun(s);
    if n == 0 then None else Some((NumberValue(s[..n]), s[n..]))
  }

  /** The regex `move (\d+) from (\d+) to (\d+)` anchored at the start of
      `s`. A greedy `\d+` followed by a space can only match the whole digit
      run, so no backtracking is needed; the last run may be followed by
      anything. */
  function MoveAt(s: string): (r: Option<Move>)
    ensures r.Some? ==> "move " <= s
  {
    var a :- After("move ", s);
    var x :- Number(a);
    var b :- After(" from ", x.1);
    var y :- Number(b);
    var c :- After(" to ", y.1);
    var z :- Number(c);
    Some(Move(x.0, y.0, z.0))
  }

  predicate MoveMatchesAt(s: string, q: nat) {
    q <= |s| && MoveAt(s[q..]).Some?
  }

  /** The leftmost position from `p` on where the pattern matches. */
  function FirstMove(s: string, p: nat): (r: Option<nat>)
    requires p <= |s|
    ensures r.Some? ==> p <= r.value <= |s| && MoveMatchesAt(s, r.value)
    ensures r.Some? ==> forall q | p <= q < r.value :: !MoveMatchesAt(s, q)
    ensures r.None? ==> forall q | p <= q <= |s| :: !MoveMatchesAt(s, q)
    decreases |s| - p
  {
    if MoveMatchesAt(s, p) then Some(p)
    else if p == |s| then None
    else FirstMove(s, p + 1)
  }

  /** `order.match(…)` with its three named captures converted by `to_i`;
      `None` for Ruby's nil match. */
  function ParseMove(order: string): (r: Option<Move>)
    ensures r.Some? <==> exists q | 0 <= q <= |order| :: MoveMatchesAt(order, q)
  {
    match FirstMove(order, 0)
    case None => None
    case Some(q) => MoveAt(order[q..])
  }

  /** The order as the puzzle writes it. */
  function ShowMove(mv: Move): string {
    "move " + ShowNat(mv.count) + " from " + ShowNat(mv.source) + " to " + ShowNat(mv.destination)
  }

  /** A literal followed by more text leaves that text after it. */
  lemma AfterLiteral(lit: string, rest: string)
    ensures After(lit, lit + rest) == Some(rest)
  {
    assert (lit + rest)[..|lit|] == lit;
    assert (lit + rest)[|lit|..] == rest;
  }

  /** A rendered number followed by a non-digit reads back as itself. */
  lemma NumberOfShowNat(n: nat, rest: string)
    requires rest == [] || !IsDigit(rest[0])
    ensures Number(ShowNat(n) + rest) == Some((n, rest))
  {
    var d := ShowNat(n);
    var s := d + rest;
    ShowNatRoundTrip(n);
    DigitRunOf(d, rest);
    assert s[..|d|] == d && s[|d|..] == rest;
    assert NumberValue(s[..|d|]) == n;
  }

  lemma MoveAtOfParts(c0: string, s0: string, d0: string, mv: Move)
    requires Number(c0 + (" from " + (s0 + (" to " + d0)))) == Some((mv.count, " from " + (s0 + (" to " + d0))))
    requires Number(s0 + (" to " + d0)) == Some((mv.source, " to " + d0))
    requires Number(d0).Some? && Number(d0).value.0 == mv.destination
    ensures MoveAt("move " + (c0 + (" from " + (s0 + (" to " + d0))))) == Some(mv)
  {
    AfterLiteral("move ", c0 + (" from " + (s0 + (" to " + d0))));
    AfterLiteral(" from ", s0 + (" to " + d0));
    AfterLiteral(" to ", d0);
  }

  lemma MoveAtShown(mv: Move, rest: string)
    requires rest == [] || !IsDigit(rest[0])
    ensures MoveAt(ShowMove(mv) + rest) == Some(mv)
  {
    var c0, s0, d0 := ShowNat(mv.count), ShowNat(mv.source), ShowNat(mv.destination) + rest;
    var tail := " to " + d0;
    var mid := " from " + (s0 + tail);
    NumberOfShowNat(mv.count, mid);
    NumberOfShowNat(mv.source, tail);
    NumberOfShowNat(mv.destination, rest);
    MoveAtOfParts(c0, s0, d0, mv);
    ShowMoveNested(mv, rest);
  }

  lemma ShowMoveNested(mv: Move, rest: string)
    ensures ShowMove(mv) + rest
         == "move " + (ShowNat(mv.count) + (" from " + (ShowNat(mv.source) + (" to " + (ShowNat(mv.destination) + rest)))))
  {
  }

  /** Printing an order, followed by anything that does not extend its last
      number, and matching it back gives the same order. */
  lemma MoveRoundTrip(mv: Move, rest: string)
    requires rest == [] || !IsDigit(rest[0])
    ensures ParseMove(ShowMove(mv) + rest) == Some(mv)
  {
    var s := ShowMove(mv) + rest;
    MoveAtShown(mv, rest);
    assert s[0..] == s;
    assert MoveMatchesAt(s, 0);
  }

  /** `source.pop(count)` then `destination.push(*popped)`: the top `count`
      crates (all of them when fewer remain) keep their order. */
  function Apply(m: Stacks, mv: Move): (r: Stacks)
    ensures r.Keys == m.Keys + {mv.source, mv.destination}
    ensures forall k | k in m && k != mv.source && k != mv.destination :: r[k] == m[k]
  {
    var src := Get(m, mv.source);
    var n := if mv.count <= |src| then mv.count else |src|;
    var m1 := m[mv.source := src[..|src| - n]];
    m1[mv.destination := Get(m1, mv.destination) + src[|src| - n..]]
  }

  /** What a move does to the two stacks it names. */
  lemma ApplyMoves(m: Stacks, mv: Move)
    ensures var src := Get(m, mv.source);
      var n := if mv.count <= |src| then mv.count else |src|;
      && (mv.source != mv.destination ==>
            && Get(Apply(m, mv), mv.source) == src[..|src| - n]
            && Get(Apply(m, mv), mv.destination) == Get(m, mv.destination) + src[|src| - n..])
      && (mv.source == mv.destination ==> Get(Apply(m, mv), mv.source) == src)
  {
    var src := Get(m, mv.source);
    var n := if mv.count <= |src| then mv.count else |src|;
    assert src[..|src| - n] + src[|src| - n..] == src;
  }

  /** `ExecuteMoveOrder.call`: `None` when the order does not match, where
      Ruby raises on the nil match. */
  function ExecuteMoveOrder(m: Stacks, order: string): (r: Option<Stacks>)
    ensures r.Some? <==> ParseMove(order).Some?
    ensures r.Some? ==> m.Keys <= r.value.Keys
  {
    match ParseMove(order)
    case None => None
    case Some(mv) => Some(Apply(m, mv))
  }

  /** Every key of `m` is below `n`. */
  predicate KeysBelow(m: Stacks, n: nat) {
    forall k | k in m :: k < n
  }

  /** Every crate on the stacks numbered below `n`. */
  function CratesBelow(m: Stacks, n: nat): multiset<char> {
    if n == 0 then multiset{} else CratesBelow(m, n - 1) + multiset(Get(m, n - 1))
  }

  /** Replacing one stack changes the crates below `n` by exactly the
      difference between the old and the new stack. */
  lemma {:induction false} CratesBelowUpdate(m: Stacks, k: nat, v: seq<char>, n: nat)
    requires k < n
    ensures CratesBelow(m[k := v], n) + multiset(Get(m, k)) == CratesBelow(m, n) + multiset(v)
  {
    var r := m[k := v];
    var a, b := multiset(Get(m, k)), multiset(v);
    if n - 1 != k {
      CratesBelowUpdate(m, k, v, n - 1);
      assert Get(r, n - 1) == Get(m, n - 1);
      AddBoth(CratesBelow(r, n - 1), CratesBelow(m, n - 1), multiset(Get(m, n - 1)), a, b);
    } else {
      CratesBelowUnchanged(m, r, k);
      assert Get(r, k) == v;
      assert CratesBelow(r, n) == CratesBelow(m, k) + b;
      assert CratesBelow(m, n) == CratesBelow(m, k) + a;
      SwapLast(CratesBelow(m, k), b, a);
    }
  }

  lemma SwapLast(x: multiset<char>, a: multiset<char>, b: multiset<char>)
    ensures x + a + b == x + b + a
  {
    assert forall o :: (x + a + b)[o] == (x + b + a)[o];
  }

  lemma AddBoth(x: multiset<char>, y: multiset<char>, c: multiset<char>, a: multiset<char>, b: multiset<char>)
    requires x + a == y + b
    ensures x + c + a == y + c + b
  {
    assert forall o :: (x + c + a)[o] == (x + a)[o] + c[o] == (y + b)[o] + c[o] == (y + c + b)[o];
  }

  lemma {:induction false} CratesBelowUnchanged(m: Stacks, r: Stacks, n: nat)
    requires forall k: nat | k < n :: Get(r, k) == Get(m, k)
    ensures CratesBelow(r, n) == CratesBelow(m, n)
  {
    if n > 0 {
      CratesBelowUnchanged(m, r, n - 1);
    }
  }

  lemma MultisetCancel(x: multiset<char>, y: multiset<char>, z: multiset<char>)
    requires x + z == y + z
    ensures x == y
  {
    assert forall o :: x[o] == (x + z)[o] - z[o] == (y + z)[o] - z[o] == y[o];
  }

  /** A move neither creates nor destroys crates. */
  lemma MoveConserves(m: Stacks, mv: Move, n: nat)
    requires KeysBelow(m, n) && mv.source < n && mv.destination < n
    ensures CratesBelow(Apply(m, mv), n) == CratesBelow(m, n)
  {
    var r := Apply(m, mv);
    var src := Get(m, mv.source);
    var k := if mv.count <= |src| then mv.count else |src|;
    var low, top := src[..|src| - k], src[|src| - k..];
    assert src == low + top;
    assert mv.source in r && mv.destination in r;
    if mv.source == mv.destination {
      ApplyMoves(m, mv);
      CratesBelowUnchanged(m, r, n);
    } else {
      var m1 := m[mv.source := low];
      var d := Get(m, mv.destination);
      assert Get(m1, mv.destination) == d;
      assert r == m1[mv.destination := d + top];
      CratesBelowUpdate(m, mv.source, low, n);
      CratesBelowUpdate(m1, mv.destination, d + top, n);
      var (cm, c1, cr) := (CratesBelow(m, n), CratesBelow(m1, n), CratesBelow(r, n));
      assert multiset(src) == multiset(low) + multiset(top);
      assert multiset(d + top) == multiset(d) + multiset(top);
      MultisetCancel(cr, c1 + multiset(top), multiset(d));
      MultisetCancel(c1 + multiset(top), cm, multiset(low));
    }
  }

  /** `UnloadCrates.call`: every line containing "move", in order; `None`
      once such a line fails to match the full pattern. */
  function UnloadCrates(m: Stacks, lines: seq<string>): (r: Option<Stacks>)
    ensures r.Some? ==> m.Keys <= r.value.Keys
    decreases |lines|
  {
    if lines == [] then Some(m)
    else if !Contains(lines[0], "move") then UnloadCrates(m, lines[1..])
    else match ExecuteMoveOrder(m, lines[0])
      case None => None
      case Some(m') => UnloadCrates(m', lines[1..])
  }

  lemma {:induction false} UnloadConserves(m: Stacks, lines: seq<string>, n: nat)
    requires UnloadCrates(m, lines).Some? && KeysBelow(UnloadCrates(m, lines).value, n)
    ensures CratesBelow(UnloadCrates(m, lines).value, n) == CratesBelow(m, n)
    decreases |lines|
  {
    if lines != [] && Contains(lines[0], "move") {
      var mv := ParseMove(lines[0]).value;
      UnloadConserves(Apply(m, mv), lines[1..], n);
      MoveConserves(m, mv, n);
    } else if lines != [] {
      UnloadConserves(m, lines[1..], n);
    }
  }

  // ---------------------------------------------------------------------------
  // Reading the tops

  /** The top crate of every stack numbered below `n`, in ascending order; an
      empty stack adds nothing, as `nil` joins to "". */
  function Tops(m: Stacks, n: nat): (s: string)
    ensures |s| <= n
  {
    if n == 0 then []
    else Tops(m, n - 1) + (if Get(m, n - 1) != [] then [Get(m, n - 1)[|Get(m, n - 1)| - 1]] else [])
  }

  function MaxKey(ks: set<nat>): (k: nat)
    requires ks != {}
    ensures k in ks && forall j | j in ks :: j <= k
  {
    Largest(ks)
  }

  /** `stacks.sort_by { |k, _| k }.map { |_, v| v.last }.join`. */
  function ObserveTopCrates(m: Stacks): (s: string)
  {
    if m == map[] then [] else Tops(m, MaxKey(m.Keys) + 1)
  }

  lemma {:induction false} TopsBeyondKeys(m: Stacks, n: nat, extra: nat)
    requires KeysBelow(m, n)
    ensures Tops(m, n + extra) == Tops(m, n)
    decreases extra
  {
    if extra > 0 {
      TopsBeyondKeys(m, n, extra - 1);
    }
  }

  /** The tops read in ascending key order under any bound above every key. */
  lemma ObserveTopCratesInKeyOrder(m: Stacks, n: nat)
    requires KeysBelow(m, n)
    ensures ObserveTopCrates(m) == Tops(m, n)
  {
    if m == map[] {
      TopsBeyondKeys(m, 0, n);
    } else {
      var b := MaxKey(m.Keys) + 1;
      assert b <= n;
      TopsBeyondKeys(m, b, n - b);
    }
  }

  // ---------------------------------------------------------------------------
  // The examples the solution is checked against

  lemma ParseOneFixture()
    ensures ParseMove("move 1 from 2 to 1") == Some(Move(1, 2, 1))
  {
    assert ShowNat(1) == "1" && ShowNat(2) == "2";
    assert ShowMove(Move(1, 2, 1)) + [] == "move 1 from 2 to 1";
    MoveRoundTrip(Move(1, 2, 1), []);
  }

  lemma ParseThreeFixture()
    ensures ParseMove("move 3 from 1 to 3") == Some(Move(3, 1, 3))
  {
    assert ShowNat(1) == "1" && ShowNat(3) == "3";
    assert ShowMove(Move(3, 1, 3)) + [] == "move 3 from 1 to 3";
    MoveRoundTrip(Move(3, 1, 3), []);
  }

  lemma ApplyOneFixture()
    ensures Apply(map[1 := "ZN", 2 := "MCD", 3 := "P"], Move(1, 2, 1)) == map[1 := "ZND", 2 := "MC", 3 := "P"]
  {
    var m := map[1 := "ZN", 2 := "MCD", 3 := "P"];
    assert Get(m, 2) == "MCD" && "MCD"[..2] == "MC" && "MCD"[2..] == "D";
    var m1 := m[2 := "MC"];
    assert Get(m1, 1) == "ZN" && "ZN" + "D" == "ZND";
    assert Apply(m, Move(1, 2, 1)) == m1[1 := "ZND"];
  }

  lemma ApplyThreeFixture()
    ensures Apply(map[1 := "ZND", 2 := "MC", 3 := "P"], Move(3, 1, 3)) == map[1 := "", 2 := "MC", 3 := "PZND"]
  {
    var m := map[1 := "ZND", 2 := "MC", 3 := "P"];
    assert Get(m, 1) == "ZND" && "ZND"[..0] == "" && "ZND"[0..] == "ZND";
    var m1 := m[1 := ""];
    assert Get(m1, 3) == "P" && "P" + "ZND" == "PZND";
    assert Apply(m, Move(3, 1, 3)) == m1[3 := "PZND"];
  }

  /** The single move orders of the example: one crate, then three that
      keep their order. */
  lemma MoveFixtures()
    ensures ExecuteMoveOrder(map[1 := "ZN", 2 := "MCD", 3 := "P"], "move 1 from 2 to 1")
         == Some(map[1 := "ZND", 2 := "MC", 3 := "P"])
    ensures ExecuteMoveOrder(map[1 := "ZND", 2 := "MC", 3 := "P"], "move 3 from 1 to 3")
         == Some(map[1 := "", 2 := "MC", 3 := "PZND"])
  {
    ParseOneFixture();
    ApplyOneFixture();
    ParseThreeFixture();
    ApplyThreeFixture();
  }

  lemma TopsFixture()
    ensures ObserveTopCrates(map[1 := "C", 2 := "M", 3 := "PDNZ"]) == "CMZ"
  {
    ObserveTopCratesInKeyOrder(map[1 := "C", 2 := "M", 3 := "PDNZ"], 4);
  }

  lemma OrderLine(mv: Move, line: string)
    requires mv.count < 10 && mv.source < 10 && mv.destination < 10
    requires line == ShowMove(mv) + "\n"
    ensures Contains(line, "move") && ParseMove(line) == Some(mv)
  {
    MoveRoundTrip(mv, "\n");
    assert "move" <= line[0..];
  }

  lemma UnloadStep(m: Stacks, mv: Move, lines: seq<string>)
    requires lines != [] && Contains(lines[0], "move") && ParseMove(lines[0]) == Some(mv)
    ensures UnloadCrates(m, lines) == UnloadCrates(Apply(m, mv), lines[1..])
  {
  }

  lemma ApplyTwoFixture()
    ensures Apply(map[1 := "", 2 := "MC", 3 := "PZND"], Move(2, 2, 1)) == map[1 := "MC", 2 := "", 3 := "PZND"]
  {
    var m := map[1 := "", 2 := "MC", 3 := "PZND"];
    assert Get(m, 2) == "MC" && "MC"[..0] == "" && "MC"[0..] == "MC";
    var m1 := m[2 := ""];
    assert Get(m1, 1) == "" && "" + "MC" == "MC";
    assert Apply(m, Move(2, 2, 1)) == m1[1 := "MC"];
  }

  lemma ApplyLastFixture()
    ensures Apply(map[1 := "MC", 2 := "", 3 := "PZND"], Move(1, 1, 2)) == map[1 := "M", 2 := "C", 3 := "PZND"]
  {
    var m := map[1 := "MC", 2 := "", 3 := "PZND"];
    assert Get(m, 1) == "MC" && "MC"[..1] == "M" && "MC"[1..] == "C";
    var m1 := m[1 := "M"];
    assert Get(m1, 2) == "" && "" + "C" == "C";
    assert Apply(m, Move(1, 1, 2)) == m1[2 := "C"];
  }

  lemma LineOneFixture()
    ensures Contains("move 1 from 2 to 1\n", "move") && ParseMove("move 1 from 2 to 1\n") == Some(Move(1, 2, 1))
  {
    assert ShowNat(1) == "1" && ShowNat(2) == "2";
    OrderLine(Move(1, 2, 1), "move 1 from 2 to 1\n");
  }

  lemma LineTwoFixture()
    ensures Contains("move 3 from 1 to 3\n", "move") && ParseMove("move 3 from 1 to 3\n") == Some(Move(3, 1, 3))
  {
    assert ShowNat(1) == "1" && ShowNat(3) == "3";
    OrderLine(Move(3, 1, 3), "move 3 from 1 to 3\n");
  }

  lemma LineThreeFixture()
    ensures Contains("move 2 from 2 to 1\n", "move") && ParseMove("move 2 from 2 to 1\n") == Some(Move(2, 2, 1))
  {
    assert ShowNat(1) == "1" && ShowNat(2) == "2";
    OrderLine(Move(2, 2, 1), "move 2 from 2 to 1\n");
  }

  lemma LineFourFixture()
    ensures Contains("move 1 from 1 to 2\n", "move") && ParseMove("move 1 from 1 to 2\n") == Some(Move(1, 1, 2))
  {
    assert ShowNat(1) == "1" && ShowNat(2) == "2";
    OrderLine(Move(1, 1, 2), "move 1 from 1 to 2\n");
  }

  /** The four orders of the example, run line by line. */
  lemma UnloadFixture()
    ensures UnloadCrates(map[1 := "ZN", 2 := "MCD", 3 := "P"],
              ["move 1 from 2 to 1\n", "move 3 from 1 to 3\n", "move 2 from 2 to 1\n", "move 1 from 1 to 2\n"])
         == Some(map[1 := "M", 2 := "C", 3 := "PZND"])
  {
    var l1, l2, l3, l4 := "move 1 from 2 to 1\n", "move 3 from 1 to 3\n", "move 2 from 2 to 1\n", "move 1 from 1 to 2\n";
    var m0 := map[1 := "ZN", 2 := "MCD", 3 := "P"];
    var m1 := map[1 := "ZND", 2 := "MC", 3 := "P"];
    var m2 := map[1 := "", 2 := "MC", 3 := "PZND"];
    var m3 := map[1 := "MC", 2 := "", 3 := "PZND"];
    var m4 := map[1 := "M", 2 := "C", 3 := "PZND"];
    LineFourFixture();
    ApplyLastFixture();
    UnloadStep(m3, Move(1, 1, 2), [l4]);
    assert UnloadCrates(m3, [l4]) == Some(m4);
    LineThreeFixture();
    ApplyTwoFixture();
    UnloadStep(m2, Move(2, 2, 1), [l3, l4]);
    assert [l3, l4][1..] == [l4];
    assert UnloadCrates(m2, [l3, l4]) == Some(m4);
    LineTwoFixture();
    ApplyThreeFixture();
    UnloadStep(m1, Move(3, 1, 3), [l2, l3, l4]);
    assert [l2, l3, l4][1..] == [l3, l4];
    assert UnloadCrates(m1, [l2, l3, l4]) == Some(m4);
    LineOneFixture();
    ApplyOneFixture();
    UnloadStep(m0, Move(1, 2, 1), [l1, l2, l3, l4]);
    assert [l1, l2, l3, l4][1..] == [l2, l3, l4];
  }

  lemma ScanFixtures()
    ensures Scan("    [D]    \n", 0) == [None, Some('D'), None]
    ensures Scan("[N] [C]    \n", 0) == [Some('N'), Some('C'), None]
    ensures Scan("[Z] [M] [P]\n", 0) == [Some('Z'), Some('M'), Some('P')]
    ensures Scan(" 1   2   3 \n", 0) == []
  {
    ScanRowOne();
    ScanRowTwo();
    ScanRowThree();
    ScanLabels();
  }

  lemma ScanRowOne()
    ensures Scan("    [D]    \n", 0) == [None, Some('D'), None]
  {
  }

  lemma ScanRowTwo()
    ensures Scan("[N] [C]    \n", 0) == [Some('N'), Some('C'), None]
  {
  }

  lemma ScanRowThree()
    ensures Scan("[Z] [M] [P]\n", 0) == [Some('Z'), Some('M'), Some('P')]
  {
  }

  lemma ScanLabels()
    ensures Scan(" 1   2   3 \n", 0) == []
  {
  }

  lemma PlaceRowIs(m: Stacks, items: seq<Option<char>>, r: Stacks)
    requires forall k: nat :: k in r <==> k in m || (k >= 1 && SlotCrate(items, k - 1) != [])
    requires forall k: nat | k in r :: r[k] == (if k >= 1 then SlotCrate(items, k - 1) else []) + Get(m, k)
    ensures PlaceRow(m, items, 0) == r
  {
    var p := PlaceRow(m, items, 0);
    forall k: nat
      ensures k in p <==> k in r
      ensures k in r ==> p[k] == r[k]
    {
      PlaceRowSlots(m, items, 0, k);
      PlaceRowKeys(m, items, 0, k);
    }
  }

  lemma RowOneFixture()
    ensures PlaceRow(map[], [None, Some('D'), None], 0) == map[2 := "D"]
  {
    PlaceRowIs(map[], [None, Some('D'), None], map[2 := "D"]);
  }

  lemma RowTwoFixture()
    ensures PlaceRow(map[2 := "D"], [Some('N'), Some('C'), None], 0) == map[1 := "N", 2 := "CD"]
  {
    PlaceRowIs(map[2 := "D"], [Some('N'), Some('C'), None], map[1 := "N", 2 := "CD"]);
  }

  lemma RowThreeFixture()
    ensures PlaceRow(map[1 := "N", 2 := "CD"], [Some('Z'), Some('M'), Some('P')], 0) == map[1 := "ZN", 2 := "MCD", 3 := "P"]
  {
    PlaceRowIs(map[1 := "N", 2 := "CD"], [Some('Z'), Some('M'), Some('P')], map[1 := "ZN", 2 := "MCD", 3 := "P"]);
  }

  /** One drawn row placed, the loop goes on with the rest. */
  lemma ParseFromStep(m: Stacks, lines: seq<string>, m': Stacks)
    requires lines != [] && !IsBlank(lines[0]) && PlaceRow(m, Scan(lines[0], 0), 0) == m'
    ensures ParseFrom(m, lines) == ParseFrom(m', lines[1..])
  {
  }

  /** None of the example's drawing lines is blank. */
  lemma FixtureNotBlank()
    ensures !IsBlank("    [D]    \n") && !IsBlank("[N] [C]    \n")
    ensures !IsBlank("[Z] [M] [P]\n") && !IsBlank(" 1   2   3 \n")
  {
    assert !IsStripped("    [D]    \n"[4]);
    assert !IsStripped("[N] [C]    \n"[0]);
    assert !IsStripped("[Z] [M] [P]\n"[0]);
    assert !IsStripped(" 1   2   3 \n"[1]);
  }

  /** The drawing of the example, label line included. */
  lemma ParseStacksFixture()
    ensures ParseStacks(["    [D]    \n", "[N] [C]    \n", "[Z] [M] [P]\n", " 1   2   3 \n"])
         == map[1 := "ZN", 2 := "MCD", 3 := "P"]
  {
    var l1, l2, l3, l4 := "    [D]    \n", "[N] [C]    \n", "[Z] [M] [P]\n", " 1   2   3 \n";
    var lines := [l1, l2, l3, l4];
    ScanFixtures();
    FixtureNotBlank();
    var m1 := map[2 := "D"];
    var m2 := map[1 := "N", 2 := "CD"];
    var m3 := map[1 := "ZN", 2 := "MCD", 3 := "P"];
    RowOneFixture();
    ParseFromStep(map[], lines, m1);
    RowTwoFixture();
    ParseFromStep(m1, lines[1..], m2);
    RowThreeFixture();
    ParseFromStep(m2, lines[2..], m3);
    assert PlaceRow(m3, [], 0) == m3;
    ParseFromStep(m3, lines[3..], m3);
    assert lines[1..][1..] == lines[2..] && lines[2..][1..] == lines[3..] && lines[3..][1..] == [];
  }
}

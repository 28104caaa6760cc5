/** Array arithmetic shared by the calorie counters: `sum`, `max`, `sort` and
    `last(n)` on arrays of integers. */
module Sums {
  import opened Wrappers

  /** `sum`. */
  function Sum(xs: seq<int>): int {
    if xs == [] then 0 else Sum(xs[..|xs| - 1]) + xs[|xs| - 1]
  }

  lemma {:induction false} SumAppend(a: seq<int>, b: seq<int>)
    ensures Sum(a + b) == Sum(a) + Sum(b)
    decreases |b|
  {
    if b == [] {
      assert a + b == a;
    } else {
      assert (a + b)[..|a + b| - 1] == a + b[..|b| - 1];
      SumAppend(a, b[..|b| - 1]);
    }
  }

  lemma {:induction false} SumNonNegative(xs: seq<int>)
    requires forall k | 0 <= k < |xs| :: xs[k] >= 0
    ensures Sum(xs) >= 0
  {
    if xs != [] {
      SumNonNegative(xs[..|xs| - 1]);
    }
  }

  lemma SumOfThree(a: int, b: int, c: int)
    ensures Sum([a, b, c]) == a + b + c
  {
    assert [a][..0] == [];
    assert Sum([a]) == a;
    assert [a, b][..1] == [a];
    assert Sum([a, b]) == a + b;
    assert [a, b, c][..2] == [a, b];
  }

  lemma SumOfFour(a: int, b: int, c: int, d: int)
    ensures Sum([a, b, c, d]) == a + b + c + d
  {
    SumOfThree(a, b, c);
    assert [a, b, c, d][..3] == [a, b, c];
  }

  lemma {:induction false} SumBounds(xs: seq<int>, lo: int, hi: int)
    requires forall k | 0 <= k < |xs| :: lo <= xs[k] <= hi
    ensures lo * |xs| <= Sum(xs) <= hi * |xs|
  {
    if xs != [] {
      var front, n := xs[..|xs| - 1], |xs| - 1;
      SumBounds(front, lo, hi);
      assert Sum(xs) == Sum(front) + xs[n];
      Distribute(lo, n);
      Distribute(hi, n);
    }
  }

  lemma Distribute(a: int, n: nat)
    ensures a * (n + 1) == a * n + a
  {
  }

  /** `sum` with a block that may raise: the first element that fails fails
      the whole sum. */
  function SumAll(os: seq<Option<nat>>): Option<int> {
    var xs :- AllSome(os);
    Some(Sum(xs))
  }

  /** The sum fails exactly when some element fails; otherwise it adds up
      all the values, and so lies between `lo` and `hi` times the count when
      each value does. */
  lemma SumAllMeans(os: seq<Option<nat>>, lo: int, hi: int)
    requires forall k | 0 <= k < |os| :: os[k].Some? ==> lo <= os[k].value <= hi
    ensures SumAll(os).None? <==> exists k | 0 <= k < |os| :: os[k].None?
    ensures SumAll(os).Some? ==> exists xs: seq<nat> ::
      && |xs| == |os|
      && (forall k | 0 <= k < |os| :: os[k] == Some(xs[k]))
      && SumAll(os).value == Sum(xs)
    ensures SumAll(os).Some? ==> lo * |os| <= SumAll(os).value <= hi * |os|
  {
    var all := AllSome(os);
    if all.Some? {
      SumBounds(all.value, lo, hi);
    }
  }

  lemma SumAllOfThree(os: seq<Option<nat>>, x: nat, y: nat, z: nat)
    requires os == [Some(x), Some(y), Some(z)]
    ensures SumAll(os) == Some(x + y + z)
  {
    var all := AllSome(os);
    assert forall k | 0 <= k < |os| :: os[k].Some?;
    assert all.value == [x, y, z];
    SumOfThree(x, y, z);
  }

  /** The sum splits over any cut of the elements. */
  lemma SumAllAppend(a: seq<Option<nat>>, b: seq<Option<nat>>)
    ensures SumAll(a + b).Some? <==> SumAll(a).Some? && SumAll(b).Some?
    ensures SumAll(a + b).Some? ==> SumAll(a + b).value == SumAll(a).value + SumAll(b).value
  {
    var ab := a + b;
    assert forall k | 0 <= k < |a| :: ab[k] == a[k];
    assert forall k | 0 <= k < |b| :: ab[|a| + k] == b[k];
    if AllSome(ab).Some? {
      var xa, xb := AllSome(a).value, AllSome(b).value;
      assert AllSome(ab).value == xa + xb;
      SumAppend(xa, xb);
    }
  }

  /** `max`: the largest element, nil for an empty array. */
  function Max(xs: seq<int>): (r: Option<int>)
    ensures r.None? <==> xs == []
    ensures r.Some? ==> r.value in xs && forall k | 0 <= k < |xs| :: xs[k] <= r.value
  {
    if xs == [] then None
    else
      var front, x := xs[..|xs| - 1], xs[|xs| - 1];
      assert xs == front + [x];
      var m := Max(front);
      if m.None? || m.value < x then Some(x) else m
  }

  lemma {:induction false} LargestExists(s: set<nat>)
    requires s != {}
    ensures exists x | x in s :: forall y | y in s :: y <= x
    decreases |s|
  {
    var x :| x in s;
    if s != {x} {
      LargestExists(s - {x});
      var m :| m in s - {x} && forall y | y in s - {x} :: y <= m;
      var top := if x > m then x else m;
      forall y | y in s
        ensures y <= top
      {
        if y != x {
          assert y in s - {x};
        }
      }
      assert top in s;
    } else {
      assert forall y | y in s :: y <= x;
    }
  }

  /** The largest member of a non-empty set. */
  function Largest(s: set<nat>): (x: nat)
    requires s != {}
    ensures x in s && forall y | y in s :: y <= x
  {
    LargestExists(s);
    var x :| x in s && forall y | y in s :: y <= x;
    x
  }

  predicate Sorted(s: seq<int>) {
    forall i, j | 0 <= i < j < |s| :: s[i] <= s[j]
  }

  function Insert(x: int, s: seq<int>): (r: seq<int>)
    requires Sorted(s)
    ensures Sorted(r) && multiset(r) == multiset(s) + multiset{x}
  {
    if s == [] || x <= s[0] then [x] + s
    else
      var rest := Insert(x, s[1..]);
      assert s == [s[0]] + s[1..];
      BelowAll(s[0], s[1..], x, rest);
      [s[0]] + rest
  }

  /** An element no larger than anything in a sorted sequence may go in
      front of it. */
  lemma BelowAll(a: int, s: seq<int>, x: int, r: seq<int>)
    requires Sorted([a] + s) && a < x && Sorted(r) && multiset(r) == multiset(s) + multiset{x}
    ensures Sorted([a] + r)
  {
    forall k | 0 <= k < |r|
      ensures a <= r[k]
    {
      assert r[k] in multiset(s) + multiset{x};
      if r[k] != x {
        var j :| 0 <= j < |s| && s[j] == r[k];
        assert ([a] + s)[0] == a && ([a] + s)[j + 1] == s[j];
      }
    }
    assert forall k | 0 < k <= |r| :: ([a] + r)[k] == r[k - 1];
  }

  /** `sort`: the elements in ascending order. */
  function Sort(xs: seq<int>): (s: seq<int>)
    ensures Sorted(s) && multiset(s) == multiset(xs)
  {
    if xs == [] then []
    else
      assert xs == xs[..|xs| - 1] + [xs[|xs| - 1]];
      Insert(xs[|xs| - 1], Sort(xs[..|xs| - 1]))
  }

  lemma LastIsLargest(a: seq<int>)
    requires Sorted(a) && a != []
    ensures forall x | x in multiset(a) :: x <= a[|a| - 1]
  {
    forall x | x in multiset(a)
      ensures x <= a[|a| - 1]
    {
      assert x in a;
    }
  }

  lemma DropLast(a: seq<int>)
    requires a != []
    ensures multiset(a[..|a| - 1]) == multiset(a) - multiset{a[|a| - 1]}
  {
    assert a == a[..|a| - 1] + [a[|a| - 1]];
  }

  lemma PrefixSorted(a: seq<int>, n: nat)
    requires Sorted(a) && n <= |a|
    ensures Sorted(a[..n])
  {
  }

  /** Two sorted permutations of each other end in the same element, and
      what precedes it is again a pair of permutations. */
  lemma LastsAgree(a: seq<int>, b: seq<int>)
    requires Sorted(a) && Sorted(b) && multiset(a) == multiset(b) && a != []
    ensures |a| == |b| && a[|a| - 1] == b[|b| - 1]
    ensures multiset(a[..|a| - 1]) == multiset(b[..|b| - 1])
  {
    assert |a| == |multiset(a)| == |multiset(b)| == |b|;
    LastIsLargest(a);
    LastIsLargest(b);
    assert a[|a| - 1] in multiset(b) && b[|b| - 1] in multiset(a);
    DropLast(a);
    DropLast(b);
  }

  /** A sorted permutation is unique, so `Sort` is the only possible answer. */
  lemma {:induction false} SortedPermutationsAgree(a: seq<int>, b: seq<int>)
    requires Sorted(a) && Sorted(b) && multiset(a) == multiset(b)
    ensures a == b
    decreases |a|
  {
    if a == [] {
      assert |b| == |multiset(b)| == 0;
    } else {
      var n := |a| - 1;
      LastsAgree(a, b);
      PrefixSorted(a, n);
      PrefixSorted(b, n);
      SortedPermutationsAgree(a[..n], b[..n]);
      assert a == a[..n] + [a[n]] && b == b[..n] + [b[n]];
    }
  }

  /** `Sort` returns exactly the sorted permutation of its input. */
  lemma SortIs(xs: seq<int>, s: seq<int>)
    requires Sorted(s) && multiset(s) == multiset(xs)
    ensures Sort(xs) == s
  {
    SortedPermutationsAgree(s, Sort(xs));
  }

  /** `last(n)`: the final `n` elements, or all of them when there are fewer. */
  function Last(s: seq<int>, n: nat): (r: seq<int>)
    ensures |r| == if |s| < n then |s| else n
    ensures r == s[|s| - |r|..]
  {
    if |s| < n then s else s[|s| - n..]
  }

  /** `sort.last(3).sum`. */
  function TopThree(xs: seq<int>): int {
    Sum(Last(Sort(xs), 3))
  }

  /** In a sorted sequence split in two, nothing in the front half exceeds
      anything in the back half. */
  lemma SortedSplit(s: seq<int>, front: seq<int>, back: seq<int>)
    requires Sorted(s) && s == front + back
    ensures forall a, b | a in multiset(front) && b in back :: a <= b
  {
    forall a, b | a in multiset(front) && b in back
      ensures a <= b
    {
      assert a in front;
      var i :| 0 <= i < |front| && front[i] == a;
      var j :| 0 <= j < |back| && back[j] == b;
      assert s[i] == a && s[|front| + j] == b;
    }
  }

  /** The top three are at most three elements of the input, and no element
      left out is larger than any element taken. */
  lemma TopThreeIsLargest(xs: seq<int>)
    ensures exists top: seq<int> ::
      && |top| == (if |xs| < 3 then |xs| else 3)
      && multiset(top) <= multiset(xs)
      && TopThree(xs) == Sum(top)
      && forall a, b | a in multiset(xs) - multiset(top) && b in top :: a <= b
  {
    var top := Last(Sort(xs), 3);
    LastOfSorted(xs, Sort(xs), top);
  }

  lemma LastOfSorted(xs: seq<int>, s: seq<int>, top: seq<int>)
    requires Sorted(s) && multiset(s) == multiset(xs) && top == Last(s, 3)
    ensures |top| == (if |xs| < 3 then |xs| else 3)
    ensures multiset(top) <= multiset(xs)
    ensures forall a, b | a in multiset(xs) - multiset(top) && b in top :: a <= b
  {
    assert |s| == |multiset(s)| == |multiset(xs)| == |xs|;
    var rest := s[..|s| - |top|];
    assert s == rest + top;
    assert multiset(s) == multiset(rest) + multiset(top);
    assert multiset(xs) - multiset(top) == multiset(rest);
    SortedSplit(s, rest, top);
  }

  /** The largest element of a sorted non-empty sequence is its last. */
  lemma MaxOfSorted(xs: seq<int>, s: seq<int>)
    requires xs != [] && Sorted(s) && multiset(s) == multiset(xs)
    ensures s != [] && Max(xs) == Some(s[|s| - 1])
  {
    var m := Max(xs).value;
    assert |s| == |multiset(s)| == |multiset(xs)| == |xs|;
    assert s[|s| - 1] in multiset(xs);
    assert m in multiset(s);
    var i :| 0 <= i < |s| && s[i] == m;
    var j :| 0 <= j < |xs| && xs[j] == s[|s| - 1];
  }

  /** A permutation of non-negative values has no negative values. */
  lemma PermutedNonNegative(xs: seq<int>, s: seq<int>)
    requires multiset(s) == multiset(xs) && forall k | 0 <= k < |xs| :: xs[k] >= 0
    ensures forall k | 0 <= k < |s| :: s[k] >= 0
  {
    forall k | 0 <= k < |s|
      ensures s[k] >= 0
    {
      assert s[k] in multiset(xs);
      var j :| 0 <= j < |xs| && xs[j] == s[k];
    }
  }

  /** The last few of a non-negative sequence add up to at least its last. */
  lemma LastAtLeastFinal(s: seq<int>, n: nat)
    requires s != [] && n > 0 && forall k | 0 <= k < |s| :: s[k] >= 0
    ensures Sum(Last(s, n)) >= s[|s| - 1]
  {
    var top := Last(s, n);
    var front := top[..|top| - 1];
    assert forall k | 0 <= k < |front| :: front[k] == s[|s| - |top| + k];
    SumNonNegative(front);
    assert top[|top| - 1] == s[|s| - 1];
    assert Sum(top) == Sum(front) + s[|s| - 1];
  }

  /** With no negative values, the top three add up to at least the maximum. */
  lemma TopThreeAtLeastMax(xs: seq<int>)
    requires xs != [] && forall k | 0 <= k < |xs| :: xs[k] >= 0
    ensures TopThree(xs) >= Max(xs).value
  {
    var s := Sort(xs);
    MaxOfSorted(xs, s);
    PermutedNonNegative(xs, s);
    LastAtLeastFinal(s, 3);
  }
}

/** Day 6: the device's datastream carries a marker, a run of `k` characters
    that are all different; the answer is how many characters have been
    read when the first such run is complete. */
module Communication {
  import opened Wrappers

  /** No character of `w` occurs twice. */
  predicate Distinct(w: string) {
    forall i, j | 0 <= i < j < |w| :: w[i] != w[j]
  }

  /** `uniq`: the characters of `w` with every repeat dropped, each kept at
      its first occurrence. */
  function Uniq(w: string): (u: string)
    ensures Distinct(u) && |u| <= |w|
    ensures forall c :: c in u <==> c in w
  {
    if w == [] then []
    else
      var front, last := w[..|w| - 1], w[|w| - 1];
      assert w == front + [last];
      var u := Uniq(front);
      if last in u then u else u + [last]
  }

  /** `uniq.size == size` is the test for a window of distinct
      characters. */
  lemma {:induction false} UniqKeepsAllIffDistinct(w: string)
    ensures |Uniq(w)| == |w| <==> Distinct(w)
  {
    if w != [] {
      var front, last := w[..|w| - 1], w[|w| - 1];
      assert w == front + [last];
      UniqKeepsAllIffDistinct(front);
      if Distinct(w) {
        assert Distinct(front);
      } else if last !in front {
        assert !Distinct(front) by {
          var i, j :| 0 <= i < j < |w| && w[i] == w[j];
          assert w[i] in front;
          assert front[i] == front[j];
        }
      }
    }
  }

  /** The `size` characters that end after character `e`. */
  function Window(input: string, size: nat, e: nat): string
    requires size <= e <= |input|
  {
    input[e - size..e]
  }

  /** The marker search from window `index` on: `each_cons(size)` visits
      the windows in order and `with_index` counts them; the first whose
      `uniq` keeps all `size` characters answers `index + size`. */
  function Find(input: string, size: nat, index: nat): (r: Option<nat>)
    requires size > 0 && index <= |input|
    ensures r.Some? ==> index + size <= r.value <= |input| && Distinct(Window(input, size, r.value))
    ensures r.Some? ==> forall e | index + size <= e < r.value :: !Distinct(Window(input, size, e))
    ensures r.None? ==> forall e | index + size <= e <= |input| :: !Distinct(Window(input, size, e))
    decreases |input| - index
  {
    if index + size > |input| then None
    else
      var w := input[index..index + size];
      UniqKeepsAllIffDistinct(w);
      if |Uniq(w)| == size then Some(index + size)
      else Find(input, size, index + 1)
  }

  /** `DetectCommunication.call(input, marker_size: size)`: the position
      just after the first window of `size` distinct characters, or none
      when no window qualifies. */
  function Detect(input: string, size: nat): (r: Option<nat>)
    requires size > 0
    ensures r.Some? ==> size <= r.value <= |input| && Distinct(Window(input, size, r.value))
    ensures r.Some? ==> forall e | size <= e < r.value :: !Distinct(Window(input, size, e))
    ensures r.None? ==> forall e | size <= e <= |input| :: !Distinct(Window(input, size, e))
  {
    Find(input, size, 0)
  }

  /** The answer is fixed by the windows alone: it is the first end whose
      window is distinct. */
  lemma DetectIsFirst(input: string, size: nat, e: nat)
    requires size > 0 && size <= e <= |input|
    requires Distinct(Window(input, size, e))
    requires forall d | size <= d < e :: !Distinct(Window(input, size, d))
    ensures Detect(input, size) == Some(e)
  {
  }

  /** A datastream shorter than the marker holds none. */
  lemma ShortInputHasNoMarker(input: string, size: nat)
    requires 0 < size && |input| < size
    ensures Detect(input, size).None?
  {
  }

  /** Two equal characters spoil every window that holds both. */
  lemma RepeatSpoils(input: string, size: nat, a: nat, b: nat, lo: nat, hi: nat)
    requires size <= lo && a < b < lo <= hi <= |input| && hi <= a + size
    requires input[a] == input[b]
    ensures forall e | lo <= e <= hi :: !Distinct(Window(input, size, e))
  {
    forall e | lo <= e <= hi
      ensures !Distinct(Window(input, size, e))
    {
      var w := Window(input, size, e);
      assert w[a - (e - size)] == w[b - (e - size)];
    }
  }

  /** `c` does not occur in `input[lo..hi]`, checked position by position
      so that a concrete datastream can be evaluated. */
  predicate NoneEqual(input: string, c: char, lo: nat, hi: nat)
    requires lo <= hi <= |input|
    decreases hi - lo
  {
    lo == hi || (input[lo] != c && NoneEqual(input, c, lo + 1, hi))
  }

  /** `Distinct(input[lo..hi])`, checked position by position. */
  predicate AllDifferent(input: string, lo: nat, hi: nat)
    requires lo <= hi <= |input|
    decreases hi - lo
  {
    lo == hi || (NoneEqual(input, input[lo], lo + 1, hi) && AllDifferent(input, lo + 1, hi))
  }

  lemma {:induction false} NoneEqualMeans(input: string, c: char, lo: nat, hi: nat)
    requires lo <= hi <= |input| && NoneEqual(input, c, lo, hi)
    ensures forall i | lo <= i < hi :: input[i] != c
    decreases hi - lo
  {
    if lo < hi {
      NoneEqualMeans(input, c, lo + 1, hi);
    }
  }

  lemma {:induction false} AllDifferentMeans(input: string, lo: nat, hi: nat)
    requires lo <= hi <= |input| && AllDifferent(input, lo, hi)
    ensures Distinct(input[lo..hi])
    decreases hi - lo
  {
    if lo < hi {
      NoneEqualMeans(input, input[lo], lo + 1, hi);
      AllDifferentMeans(input, lo + 1, hi);
      var w := input[lo..hi];
      forall i, j | 0 <= i < j < |w|
        ensures w[i] != w[j]
      {
        if i > 0 {
          assert input[lo + 1..hi][i - 1] == w[i] && input[lo + 1..hi][j - 1] == w[j];
        }
      }
    }
  }

  // The worked examples, for start-of-packet markers (four characters)
  // and start-of-message markers (fourteen). For each, `Window` shows the
  // answer's window distinct and `Before` finds a repeat in every earlier
  // window.

  lemma PacketExample1()
    ensures Detect("bvwbjplbgvbhsrlpgdmjqwftvncz", 4) == Some(5)
  {
    var input := "bvwbjplbgvbhsrlpgdmjqwftvncz";
    PacketWindow1(input);
    PacketBefore1(input);
    DetectIsFirst(input, 4, 5);
  }

  lemma PacketWindow1(input: string)
    requires input == "bvwbjplbgvbhsrlpgdmjqwftvncz"
    ensures Distinct(Window(input, 4, 5))
  {
    assert AllDifferent(input, 1, 5);
    AllDifferentMeans(input, 1, 5);
  }

  lemma PacketBefore1(input: string)
    requires input == "bvwbjplbgvbhsrlpgdmjqwftvncz"
    ensures forall d | 4 <= d < 5 :: !Distinct(Window(input, 4, d))
  {
    RepeatSpoils(input, 4, 0, 3, 4, 4);
  }

  lemma PacketExample2()
    ensures Detect("nppdvjthqldpwncqszvftbrmjlhg", 4) == Some(6)
  {
    var input := "nppdvjthqldpwncqszvftbrmjlhg";
    PacketWindow2(input);
    PacketBefore2(input);
    DetectIsFirst(input, 4, 6);
  }

  lemma PacketWindow2(input: string)
    requires input == "nppdvjthqldpwncqszvftbrmjlhg"
    ensures Distinct(Window(input, 4, 6))
  {
    assert AllDifferent(input, 2, 6);
    AllDifferentMeans(input, 2, 6);
  }

  lemma PacketBefore2(input: string)
    requires input == "nppdvjthqldpwncqszvftbrmjlhg"
    ensures forall d | 4 <= d < 6 :: !Distinct(Window(input, 4, d))
  {
    RepeatSpoils(input, 4, 1, 2, 4, 5);
  }

  lemma PacketExample3()
    ensures Detect("nznrnfrfntjfmvfwmzdfjlvtqnbhcprsg", 4) == Some(10)
  {
    var input := "nznrnfrfntjfmvfwmzdfjlvtqnbhcprsg";
    PacketWindow3(input);
    PacketBefore3(input);
    DetectIsFirst(input, 4, 10);
  }

  lemma PacketWindow3(input: string)
    requires input == "nznrnfrfntjfmvfwmzdfjlvtqnbhcprsg"
    ensures Distinct(Window(input, 4, 10))
  {
    assert AllDifferent(input, 6, 10);
    AllDifferentMeans(input, 6, 10);
  }

  lemma PacketBefore3(input: string)
    requires input == "nznrnfrfntjfmvfwmzdfjlvtqnbhcprsg"
    ensures forall d | 4 <= d < 10 :: !Distinct(Window(input, 4, d))
  {
    RepeatSpoils(input, 4, 0, 2, 4, 4);
    RepeatSpoils(input, 4, 2, 4, 5, 6);
    RepeatSpoils(input, 4, 3, 6, 7, 7);
    RepeatSpoils(input, 4, 5, 7, 8, 9);
  }

  lemma PacketExample4()
    ensures Detect("zcfzfwzzqfrljwzlrfnpqdbhtmscgvjw", 4) == Some(11)
  {
    var input := "zcfzfwzzqfrljwzlrfnpqdbhtmscgvjw";
    PacketWindow4(input);
    PacketBefore4(input);
    DetectIsFirst(input, 4, 11);
  }

  lemma PacketWindow4(input: string)
    requires input == "zcfzfwzzqfrljwzlrfnpqdbhtmscgvjw"
    ensures Distinct(Window(input, 4, 11))
  {
    assert AllDifferent(input, 7, 11);
    AllDifferentMeans(input, 7, 11);
  }

  lemma PacketBefore4(input: string)
    requires input == "zcfzfwzzqfrljwzlrfnpqdbhtmscgvjw"
    ensures forall d | 4 <= d < 11 :: !Distinct(Window(input, 4, d))
  {
    RepeatSpoils(input, 4, 0, 3, 4, 4);
    RepeatSpoils(input, 4, 2, 4, 5, 6);
    RepeatSpoils(input, 4, 3, 6, 7, 7);
    RepeatSpoils(input, 4, 6, 7, 8, 10);
  }

  lemma MessageExample1()
    ensures Detect("mjqjpqmgbljsphdztnvjfqwrcgsmlb", 14) == Some(19)
  {
    var input := "mjqjpqmgbljsphdztnvjfqwrcgsmlb";
    MessageWindow1(input);
    MessageBefore1(input);
    DetectIsFirst(input, 14, 19);
  }

  lemma MessageWindow1(input: string)
    requires input == "mjqjpqmgbljsphdztnvjfqwrcgsmlb"
    ensures Distinct(Window(input, 14, 19))
  {
    assert AllDifferent(input, 17, 19);
    assert AllDifferent(input, 15, 19);
    assert AllDifferent(input, 13, 19);
    assert AllDifferent(input, 11, 19);
    assert AllDifferent(input, 9, 19);
    assert AllDifferent(input, 7, 19);
    AllDifferentMeans(input, 5, 19);
  }

  lemma MessageBefore1(input: string)
    requires input == "mjqjpqmgbljsphdztnvjfqwrcgsmlb"
    ensures forall d | 14 <= d < 19 :: !Distinct(Window(input, 14, d))
  {
    RepeatSpoils(input, 14, 4, 12, 14, 18);
  }

  lemma MessageExample2()
    ensures Detect("bvwbjplbgvbhsrlpgdmjqwftvncz", 14) == Some(23)
  {
    var input := "bvwbjplbgvbhsrlpgdmjqwftvncz";
    MessageWindow2(input);
    MessageBefore2(input);
    DetectIsFirst(input, 14, 23);
  }

  lemma MessageWindow2(input: string)
    requires input == "bvwbjplbgvbhsrlpgdmjqwftvncz"
    ensures Distinct(Window(input, 14, 23))
  {
    assert AllDifferent(input, 21, 23);
    assert AllDifferent(input, 19, 23);
    assert AllDifferent(input, 17, 23);
    assert AllDifferent(input, 15, 23);
    assert AllDifferent(input, 13, 23);
    assert AllDifferent(input, 11, 23);
    AllDifferentMeans(input, 9, 23);
  }

  lemma MessageBefore2(input: string)
    requires input == "bvwbjplbgvbhsrlpgdmjqwftvncz"
    ensures forall d | 14 <= d < 23 :: !Distinct(Window(input, 14, d))
  {
    RepeatSpoils(input, 14, 7, 10, 14, 21);
    RepeatSpoils(input, 14, 8, 16, 22, 22);
  }

  lemma MessageExample3()
    ensures Detect("nppdvjthqldpwncqszvftbrmjlhg", 14) == Some(23)
  {
    var input := "nppdvjthqldpwncqszvftbrmjlhg";
    MessageWindow3(input);
    MessageBefore3(input);
    DetectIsFirst(input, 14, 23);
  }

  lemma MessageWindow3(input: string)
    requires input == "nppdvjthqldpwncqszvftbrmjlhg"
    ensures Distinct(Window(input, 14, 23))
  {
    assert AllDifferent(input, 21, 23);
    assert AllDifferent(input, 19, 23);
    assert AllDifferent(input, 17, 23);
    assert AllDifferent(input, 15, 23);
    assert AllDifferent(input, 13, 23);
    assert AllDifferent(input, 11, 23);
    AllDifferentMeans(input, 9, 23);
  }

  lemma MessageBefore3(input: string)
    requires input == "nppdvjthqldpwncqszvftbrmjlhg"
    ensures forall d | 14 <= d < 23 :: !Distinct(Window(input, 14, d))
  {
    RepeatSpoils(input, 14, 3, 10, 14, 17);
    RepeatSpoils(input, 14, 8, 15, 18, 22);
  }

  lemma MessageExample4()
    ensures Detect("nznrnfrfntjfmvfwmzdfjlvtqnbhcprsg", 14) == Some(29)
  {
    var input := "nznrnfrfntjfmvfwmzdfjlvtqnbhcprsg";
    MessageWindow4(input);
    MessageBefore4(input);
    DetectIsFirst(input, 14, 29);
  }

  lemma MessageWindow4(input: string)
    requires input == "nznrnfrfntjfmvfwmzdfjlvtqnbhcprsg"
    ensures Distinct(Window(input, 14, 29))
  {
    assert AllDifferent(input, 27, 29);
    assert AllDifferent(input, 25, 29);
    assert AllDifferent(input, 23, 29);
    assert AllDifferent(input, 21, 29);
    assert AllDifferent(input, 19, 29);
    assert AllDifferent(input, 17, 29);
    AllDifferentMeans(input, 15, 29);
  }

  lemma MessageBefore4(input: string)
    requires input == "nznrnfrfntjfmvfwmzdfjlvtqnbhcprsg"
    ensures forall d | 14 <= d < 29 :: !Distinct(Window(input, 14, d))
  {
    RepeatSpoils(input, 14, 7, 11, 14, 21);
    RepeatSpoils(input, 14, 14, 19, 22, 28);
  }

  lemma MessageExample5()
    ensures Detect("zcfzfwzzqfrljwzlrfnpqdbhtmscgvjw", 14) == Some(26)
  {
    var input := "zcfzfwzzqfrljwzlrfnpqdbhtmscgvjw";
    MessageWindow5(input);
    MessageBefore5(input);
    DetectIsFirst(input, 14, 26);
  }

  lemma MessageWindow5(input: string)
    requires input == "zcfzfwzzqfrljwzlrfnpqdbhtmscgvjw"
    ensures Distinct(Window(input, 14, 26))
  {
    assert AllDifferent(input, 24, 26);
    assert AllDifferent(input, 22, 26);
    assert AllDifferent(input, 20, 26);
    assert AllDifferent(input, 18, 26);
    assert AllDifferent(input, 16, 26);
    assert AllDifferent(input, 14, 26);
    AllDifferentMeans(input, 12, 26);
  }

  lemma MessageBefore5(input: string)
    requires input == "zcfzfwzzqfrljwzlrfnpqdbhtmscgvjw"
    ensures forall d | 14 <= d < 26 :: !Distinct(Window(input, 14, d))
  {
    RepeatSpoils(input, 14, 6, 7, 14, 20);
    RepeatSpoils(input, 14, 11, 15, 21, 25);
  }
}

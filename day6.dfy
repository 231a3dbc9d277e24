/** Day 6, "Tuning Trouble" (day6/src/lib.rs): the start of a packet is after the first
    window of 4 characters that are all different, the start of a message after the first
    such window of 14. A window is checked by collecting it into a set and comparing the
    set's size with the window's length. */
module Day6 {
  import opened Wrappers

  /** The characters of a window, as its `BTreeSet`. */
  function Elements(w: string): set<char> {
    set c | c in w
  }

  /** The set test: no character is lost when the window becomes a set. */
  predicate Unique(w: string) {
    |Elements(w)| == |w|
  }

  /** The window of `size` starting at `j` exists and passes the set test. */
  predicate Opens(s: string, size: nat, j: nat) {
    j + size <= |s| && Unique(s[j..j + size])
  }

  /** No two positions of the window hold the same character. */
  predicate Distinct(w: string) {
    forall i, j :: 0 <= i < j < |w| ==> w[i] != w[j]
  }

  lemma ElementsCons(w: string)
    requires w != []
    ensures Elements(w) == {w[0]} + Elements(w[1..])
  {
    assert w == [w[0]] + w[1..];
  }

  lemma DistinctCons(w: string)
    requires w != []
    ensures Distinct(w) <==> w[0] !in w[1..] && Distinct(w[1..])
  {
    var t := w[1..];
    if w[0] in t {
      var k :| 0 <= k < |t| && t[k] == w[0];
      assert w[0] == w[k + 1];
    }
    if !Distinct(t) {
      var i, j :| 0 <= i < j < |t| && t[i] == t[j];
      assert w[i + 1] == w[j + 1];
    }
    if w[0] !in t && Distinct(t) {
      forall i, j | 0 <= i < j < |w| ensures w[i] != w[j] {
        assert w[j] == t[j - 1];
        if i > 0 {
          assert w[i] == t[i - 1];
        }
      }
    }
  }

  /** The set is as large as the window exactly when no two positions hold the same character. */
  lemma {:induction false} UniqueIff(w: string)
    ensures Unique(w) <==> Distinct(w)
    ensures |Elements(w)| <= |w|
    decreases |w|
  {
    if w != [] {
      var t := w[1..];
      UniqueIff(t);
      ElementsCons(w);
      DistinctCons(w);
      if w[0] in t {
        assert Elements(w) == Elements(t);
      } else {
        assert |Elements(w)| == 1 + |Elements(t)|;
      }
    }
  }

  /** A window inside a window that passes the test passes it too. */
  lemma UniqueSlice(w: string, a: nat, b: nat)
    requires a <= b <= |w| && Unique(w)
    ensures Unique(w[a..b])
  {
    UniqueIff(w);
    var v := w[a..b];
    forall i, j | 0 <= i < j < |v| ensures v[i] != v[j] {
      assert v[i] == w[a + i] && v[j] == w[a + j];
    }
    UniqueIff(v);
  }

  // ---------------------------------------------------------------------------
  // `windows(size).enumerate().find(...)`.

  /** The index of the first window at or after `i` that passes the test. */
  function Find(s: string, size: nat, i: nat): (k: Option<nat>)
    ensures k.Some? ==> i <= k.value && Opens(s, size, k.value)
    ensures k.Some? ==> forall j :: i <= j < k.value ==> !Opens(s, size, j)
    ensures k.None? ==> forall j :: i <= j ==> !Opens(s, size, j)
    decreases |s| - i
  {
    if i + size > |s| then None
    else if Unique(s[i..i + size]) then Some(i)
    else Find(s, size, i + 1)
  }

  /** Where the first passing window ends, or 0 when there is none. */
  function Marker(s: string, size: nat): nat {
    match Find(s, size, 0)
    case None => 0
    case Some(k) => k + size
  }

  ghost predicate HasMarker(s: string, size: nat) {
    exists j :: Opens(s, size, j)
  }

  // ---------------------------------------------------------------------------
  // `process_part1`: a loop over the windows of 4 that stops at the first passing one.

  method Part1(input: string) returns (result: nat)
    ensures result == Marker(input, 4)
    ensures result == 0 <==> !HasMarker(input, 4)
    ensures result > 0 ==> 4 <= result <= |input| && Opens(input, 4, result - 4)
    ensures result > 0 ==> forall j :: 0 <= j < result - 4 ==> !Opens(input, 4, j)
  {
    result := 0;
    var i := 0;
    while i + 4 <= |input|
      invariant Find(input, 4, i) == Find(input, 4, 0)
      decreases |input| - i
    {
      if |Elements(input[i..i + 4])| == 4 {
        result := i + 4;
        break;
      }
      i := i + 1;
    }
  }

  // ---------------------------------------------------------------------------
  // `process_part2`: the same search over windows of 14, unwrapped.

  function Part2(input: string): (answer: nat)
    requires HasMarker(input, 14)
    ensures 14 <= answer <= |input| && Opens(input, 14, answer - 14)
    ensures forall j :: 0 <= j < answer - 14 ==> !Opens(input, 14, j)
  {
    Find(input, 14, 0).value + 14
  }

  /** The last 4 characters of the message marker pass the test, so a packet starts no later
      than the message does. */
  lemma PacketBeforeMessage(input: string)
    requires HasMarker(input, 14)
    ensures 4 <= Marker(input, 4) <= Part2(input)
  {
    var k := Part2(input) - 14;
    UniqueSlice(input[k..k + 14], 10, 14);
    assert input[k..k + 14][10..14] == input[k + 10..k + 14];
    assert Opens(input, 4, k + 10);
  }

  // ---------------------------------------------------------------------------
  // The first example of the tests.

  const Sample: string := "mjqjpqmgbljsphdztnvjfqwrcgsmlb"

  /** A window with a repeated character does not pass the test, and the search moves on. */
  lemma Repeats(s: string, size: nat, start: nat, i: nat, j: nat)
    requires start + size <= |s| && i < j < size && s[start + i] == s[start + j]
    ensures !Opens(s, size, start)
    ensures Find(s, size, start) == Find(s, size, start + 1)
  {
    var w := s[start..start + size];
    assert w[i] == w[j];
    UniqueIff(w);
  }

  /** The characters of the example up to the end of its message marker. */
  lemma SampleChars()
    ensures |Sample| == 30
    ensures Sample[0] == 'm' && Sample[1] == 'j' && Sample[2] == 'q' && Sample[3] == 'j'
    ensures Sample[4] == 'p' && Sample[5] == 'q' && Sample[6] == 'm' && Sample[7] == 'g'
    ensures Sample[8] == 'b' && Sample[9] == 'l' && Sample[10] == 'j' && Sample[11] == 's'
    ensures Sample[12] == 'p' && Sample[13] == 'h' && Sample[14] == 'd' && Sample[15] == 'z'
    ensures Sample[16] == 't' && Sample[17] == 'n' && Sample[18] == 'v'
  {
    SampleStart();
    SampleMiddle();
    SampleEnd();
  }

  lemma SampleStart()
    ensures Sample[0] == 'm' && Sample[1] == 'j' && Sample[2] == 'q' && Sample[3] == 'j'
    ensures Sample[4] == 'p' && Sample[5] == 'q'
  {
  }

  lemma SampleMiddle()
    ensures Sample[6] == 'm' && Sample[7] == 'g' && Sample[8] == 'b' && Sample[9] == 'l'
    ensures Sample[10] == 'j' && Sample[11] == 's'
  {
  }

  lemma SampleEnd()
    ensures Sample[12] == 'p' && Sample[13] == 'h' && Sample[14] == 'd' && Sample[15] == 'z'
    ensures Sample[16] == 't' && Sample[17] == 'n' && Sample[18] == 'v'
  {
  }

  lemma SamplePacketWindow()
    ensures Opens(Sample, 4, 3)
  {
    var w := Sample[3..7];
    SampleStart();
    SampleMiddle();
    forall i, j | 0 <= i < j < |w| ensures w[i] != w[j] {
      assert w[i] == Sample[3 + i] && w[j] == Sample[3 + j];
      assert i == 0 || i == 1 || i == 2;
      assert j == 1 || j == 2 || j == 3;
    }
    UniqueIff(w);
  }

  lemma SamplePacket()
    ensures Marker(Sample, 4) == 7
  {
    SampleStart();
    Repeats(Sample, 4, 0, 1, 3);
    Repeats(Sample, 4, 1, 0, 2);
    Repeats(Sample, 4, 2, 0, 3);
    SamplePacketWindow();
    assert Find(Sample, 4, 3) == Some(3);
  }

  lemma SampleMessageWindow()
    ensures Opens(Sample, 14, 5)
  {
    var w := Sample[5..19];
    SampleChars();
    forall i, j | 0 <= i < j < |w| ensures w[i] != w[j] {
      assert w[i] == Sample[5 + i] && w[j] == Sample[5 + j];
      assert i == 0 || i == 1 || i == 2 || i == 3 || i == 4 || i == 5 || i == 6
        || i == 7 || i == 8 || i == 9 || i == 10 || i == 11 || i == 12;
      assert j == 1 || j == 2 || j == 3 || j == 4 || j == 5 || j == 6 || j == 7
        || j == 8 || j == 9 || j == 10 || j == 11 || j == 12 || j == 13;
    }
    UniqueIff(w);
  }

  lemma SampleMessage()
    ensures HasMarker(Sample, 14) && Part2(Sample) == 19
  {
    SampleChars();
    Repeats(Sample, 14, 0, 1, 3);
    Repeats(Sample, 14, 1, 0, 2);
    Repeats(Sample, 14, 2, 0, 3);
    Repeats(Sample, 14, 3, 0, 7);
    Repeats(Sample, 14, 4, 0, 8);
    SampleMessageWindow();
    assert Find(Sample, 14, 5) == Some(5);
  }
}

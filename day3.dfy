/** Day 3, "Rucksack Reorganization" (day3/src/lib.rs): each line is a rucksack whose two
    halves are its compartments. Part 1 adds up the priority of the first item of the first
    compartment that also lies in the second; part 2 takes the lines three at a time and adds
    up the priority of the first item of the first bag that lies in the other two. */
module Day3 {
  import opened Wrappers
  import Text

  // ---------------------------------------------------------------------------
  // The priority table: `('a'..='z').chain('A'..='Z').enumerate()` collected into a map.

  predicate IsLower(c: char) {
    'a' <= c <= 'z'
  }

  predicate IsUpper(c: char) {
    'A' <= c <= 'Z'
  }

  /** The 52 letters in the order the table enumerates them. */
  function Alphabet(): (letters: string)
    ensures |letters| == 52
    ensures forall i :: 0 <= i < 26 ==> letters[i] as int == 'a' as int + i
    ensures forall i :: 26 <= i < 52 ==> letters[i] as int == 'A' as int + (i - 26)
  {
    seq(26, i requires 0 <= i < 26 => ('a' as int + i) as char)
      + seq(26, i requires 0 <= i < 26 => ('A' as int + i) as char)
  }

  /** Each letter with its position in the enumeration, plus one. */
  function LetterScores(): (scores: map<char, nat>)
    ensures forall c :: c in scores <==> IsLower(c) || IsUpper(c)
    ensures forall c :: IsLower(c) ==> scores[c] == c as int - 'a' as int + 1
    ensures forall c :: IsUpper(c) ==> scores[c] == c as int - 'A' as int + 27
  {
    var letters := Alphabet();
    var scores := map i | 0 <= i < 52 :: letters[i] := i + 1;
    assert forall c :: IsLower(c) ==> letters[c as int - 'a' as int] == c;
    assert forall c :: IsUpper(c) ==> letters[c as int - 'A' as int + 26] == c;
    scores
  }

  /** Every priority lies in 1..52 and no two letters share one. */
  lemma ScoresRangeInjective(c: char, d: char)
    requires c in LetterScores() && d in LetterScores()
    ensures 1 <= LetterScores()[c] <= 52
    ensures LetterScores()[c] == LetterScores()[d] ==> c == d
  {
  }

  // ---------------------------------------------------------------------------
  // `find` over the characters of a string.

  /** Index of the first character of `s` at or after `i` that `keep` accepts, or `|s|`
      when none does. */
  function FindFrom(s: string, keep: char -> bool, i: nat): (k: nat)
    requires i <= |s|
    ensures i <= k <= |s|
    ensures k < |s| ==> keep(s[k])
    ensures forall j :: i <= j < k ==> !keep(s[j])
    decreases |s| - i
  {
    if i == |s| then |s| else if keep(s[i]) then i else FindFrom(s, keep, i + 1)
  }

  /** `s.chars().find(keep)`. */
  function Find(s: string, keep: char -> bool): (r: Option<char>)
    ensures r.Some? ==> r.value in s && keep(r.value)
    ensures r.None? <==> forall c :: c in s ==> !keep(c)
  {
    var k := FindFrom(s, keep, 0);
    if k < |s| then Some(s[k]) else None
  }

  /** The result is the first accepted character: an accepted position with only rejected
      ones before it determines the result, and every result arises so. */
  lemma FindAt(s: string, keep: char -> bool, k: nat)
    requires k < |s| && keep(s[k])
    ensures (forall j :: 0 <= j < k ==> !keep(s[j]))
      <==> (Find(s, keep) == Some(s[k]) && FindFrom(s, keep, 0) == k)
  {
  }

  /** A found character has a first occurrence with only rejected characters before it. */
  lemma FindFirst(s: string, keep: char -> bool)
    requires Find(s, keep).Some?
    ensures exists k :: (0 <= k < |s| && s[k] == Find(s, keep).value
      && forall j :: 0 <= j < k ==> !keep(s[j]))
  {
    var k := FindFrom(s, keep, 0);
    assert s[k] == Find(s, keep).value;
  }

  // ---------------------------------------------------------------------------
  // `process_part1`.

  /** `rucksack[0..len / 2]` and `rucksack[len / 2..len / 2 * 2]`. */
  function Compartments(rucksack: string): (halves: (string, string))
    ensures |halves.0| == |halves.1| == |rucksack| / 2
  {
    var half := |rucksack| / 2;
    (rucksack[..half], rucksack[half..half * 2])
  }

  /** Two equal halves, with or without one character more, come apart as written: an odd
      final character belongs to neither compartment. */
  lemma CompartmentsOf(first: string, second: string, extra: string)
    requires |first| == |second| && |extra| <= 1
    ensures Compartments(first + second + extra) == (first, second)
  {
    var r := first + second + extra;
    assert r[..|first|] == first;
    assert r[|first|..2 * |first|] == second;
  }

  /** The closure `|c| second.contains(c)`. */
  function Member(t: string): char -> bool {
    c => c in t
  }

  /** The item in both compartments that the search reaches first. */
  function Common(first: string, second: string): Option<char> {
    Find(first, Member(second))
  }

  lemma CommonIff(first: string, second: string)
    ensures Common(first, second).Some? <==> exists c :: c in first && c in second
    ensures Common(first, second).Some? ==>
      Common(first, second).value in first && Common(first, second).value in second
  {
    if exists c :: c in first && c in second {
      var c :| c in first && c in second;
      assert Member(second)(c);
    }
  }

  /** A line whose shared item exists and has a priority (otherwise `unwrap` panics). */
  predicate HasShared(rucksack: string) {
    var (first, second) := Compartments(rucksack);
    var item := Common(first, second);
    item.Some? && item.value in LetterScores()
  }

  function RucksackPriority(rucksack: string): (p: nat)
    requires HasShared(rucksack)
    ensures 1 <= p <= 52
  {
    var (first, second) := Compartments(rucksack);
    LetterScores()[Common(first, second).value]
  }

  function Part1Lines(lines: seq<string>): (total: nat)
    requires forall i :: 0 <= i < |lines| ==> HasShared(lines[i])
    ensures |lines| <= total <= 52 * |lines|
  {
    if lines == [] then 0 else RucksackPriority(lines[0]) + Part1Lines(lines[1..])
  }

  predicate ValidPart1(input: string) {
    var lines := Text.Lines(input);
    forall i :: 0 <= i < |lines| ==> HasShared(lines[i])
  }

  function Part1(input: string): (answer: nat)
    requires ValidPart1(input)
    ensures |Text.Lines(input)| <= answer <= 52 * |Text.Lines(input)|
  {
    Part1Lines(Text.Lines(input))
  }

  // ---------------------------------------------------------------------------
  // `process_part2`.

  /** `chunks(3)`: groups of three lines, the last one possibly shorter. */
  function Chunks(lines: seq<string>): (groups: seq<seq<string>>)
    ensures forall g :: 0 <= g < |groups| ==> 1 <= |groups[g]| <= 3
    ensures forall g :: 0 <= g < |groups| - 1 ==> |groups[g]| == 3
    ensures |lines| % 3 == 0 ==>
      (|groups| == |lines| / 3 && forall g :: 0 <= g < |groups| ==> |groups[g]| == 3)
    decreases |lines|
  {
    if lines == [] then []
    else if |lines| <= 3 then [lines]
    else [lines[..3]] + Chunks(lines[3..])
  }

  function Flatten(groups: seq<seq<string>>): seq<string> {
    if groups == [] then [] else groups[0] + Flatten(groups[1..])
  }

  /** The groups hold the lines in order, none lost and none repeated. */
  lemma {:induction false} FlattenChunks(lines: seq<string>)
    ensures Flatten(Chunks(lines)) == lines
    decreases |lines|
  {
    if |lines| > 3 {
      FlattenChunks(lines[3..]);
      assert lines[..3] + lines[3..] == lines;
    }
  }

  /** The closure `|c| bags[1].contains(c) && bags[2].contains(c)`. */
  function MemberOfBoth(t: string, u: string): char -> bool {
    c => c in t && c in u
  }

  /** The item of the first bag that the search reaches first among those in the other two. */
  function Badge(bags: seq<string>): Option<char>
    requires |bags| == 3
  {
    Find(bags[0], MemberOfBoth(bags[1], bags[2]))
  }

  lemma BadgeIff(bags: seq<string>)
    requires |bags| == 3
    ensures Badge(bags).Some? <==> exists c :: c in bags[0] && c in bags[1] && c in bags[2]
    ensures Badge(bags).Some? ==> (var c := Badge(bags).value;
      c in bags[0] && c in bags[1] && c in bags[2])
  {
    if exists c :: c in bags[0] && c in bags[1] && c in bags[2] {
      var c :| c in bags[0] && c in bags[1] && c in bags[2];
      assert MemberOfBoth(bags[1], bags[2])(c);
    }
  }

  /** A group of three whose badge exists and has a priority. */
  predicate HasBadge(bags: seq<string>) {
    |bags| == 3 && Badge(bags).Some? && Badge(bags).value in LetterScores()
  }

  function GroupPriority(bags: seq<string>): (p: nat)
    requires HasBadge(bags)
    ensures 1 <= p <= 52
  {
    LetterScores()[Badge(bags).value]
  }

  function Part2Groups(groups: seq<seq<string>>): (total: nat)
    requires forall g :: 0 <= g < |groups| ==> HasBadge(groups[g])
    ensures |groups| <= total <= 52 * |groups|
  {
    if groups == [] then 0 else GroupPriority(groups[0]) + Part2Groups(groups[1..])
  }

  predicate ValidPart2(input: string) {
    var groups := Chunks(Text.Lines(input));
    forall g :: 0 <= g < |groups| ==> HasBadge(groups[g])
  }

  /** A group shorter than three makes `bags[1]` or `bags[2]` (or the `unwrap`) panic, so
      the line count is a multiple of three. */
  lemma ValidPart2Lines(input: string)
    requires ValidPart2(input)
    ensures |Text.Lines(input)| % 3 == 0
  {
    var lines := Text.Lines(input);
    var groups := Chunks(lines);
    if |lines| % 3 != 0 {
      FlattenChunks(lines);
      assert HasBadge(groups[|groups| - 1]);
      LastChunk(lines);
    }
  }

  /** Every group but the last has three lines, so a line count off a multiple of three puts
      the remainder in the last group. */
  lemma {:induction false} LastChunk(lines: seq<string>)
    requires |lines| % 3 != 0
    ensures Chunks(lines) != [] && |Chunks(lines)[|Chunks(lines)| - 1]| == |lines| % 3
    decreases |lines|
  {
    if |lines| > 3 {
      LastChunk(lines[3..]);
    }
  }

  function Part2(input: string): (answer: nat)
    requires ValidPart2(input)
    ensures answer <= 52 * (|Text.Lines(input)| / 3)
    ensures |Text.Lines(input)| / 3 <= answer
  {
    ValidPart2Lines(input);
    Part2Groups(Chunks(Text.Lines(input)))
  }

  // ---------------------------------------------------------------------------
  // The example of the tests, each line given as its two compartments.

  const Sample: seq<(string, string)> := [
    ("vJrwpWtwJgWr", "hcsFMMfFFhFp"),
    ("jqHRNqRjqzjGDLGL", "rsFMfFZSrLrFZsSL"),
    ("PmmdzqPrV", "vPwwTWBwg"),
    ("wMqvLMZHhHMvwLH", "jbvcjnnSBnvTQFn"),
    ("ttgJtRGJ", "QctTZtZT"),
    ("CrZsJsPPZsGz", "wwsLwLmpwMDw")]

  function SampleLines(): (lines: seq<string>)
    ensures |lines| == 6
  {
    seq(6, i requires 0 <= i < 6 => Sample[i].0 + Sample[i].1)
  }

  /** The shared item of a line, given where the search finds it. */
  lemma SharedAt(first: string, second: string, k: nat)
    requires |first| == |second| && k < |first| && first[k] in second
    requires forall j :: 0 <= j < k ==> first[j] !in second
    ensures Compartments(first + second) == (first, second)
    ensures Common(first, second) == Some(first[k])
  {
    CompartmentsOf(first, second, []);
    assert first + second + [] == first + second;
    FindAt(first, Member(second), k);
  }

  /** A line's priority, given its shared item. */
  lemma PriorityOf(first: string, second: string, item: char)
    requires |first| == |second| && Common(first, second) == Some(item)
    requires item in LetterScores()
    ensures HasShared(first + second) && RucksackPriority(first + second) == LetterScores()[item]
  {
    CompartmentsOf(first, second, []);
    assert first + second + [] == first + second;
  }

  lemma SampleShared1()
    ensures Common(Sample[0].0, Sample[0].1) == Some('p')
    ensures var line := Sample[0].0 + Sample[0].1;
      HasShared(line) && RucksackPriority(line) == 16
  {
    var (a, b) := Sample[0];
    assert a[0] == 'v' && a[1] == 'J' && a[2] == 'r' && a[3] == 'w' && a[4] == 'p';
    forall j | 0 <= j < 4 ensures a[j] !in b {
      assert j == 0 || j == 1 || j == 2 || j == 3;
    }
    SharedAt(a, b, 4);
    PriorityOf(a, b, 'p');
  }

  lemma SampleShared2()
    ensures Common(Sample[1].0, Sample[1].1) == Some('L')
    ensures var line := Sample[1].0 + Sample[1].1;
      HasShared(line) && RucksackPriority(line) == 38
  {
    var (a, b) := Sample[1];
    assert a[0] == 'j' && a[1] == 'q' && a[2] == 'H' && a[3] == 'R' && a[4] == 'N' && a[5] == 'q' && a[6] == 'R' && a[7] == 'j' && a[8] == 'q' && a[9] == 'z' && a[10] == 'j' && a[11] == 'G' && a[12] == 'D' && a[13] == 'L';
    forall j | 0 <= j < 13 ensures a[j] !in b {
      assert j == 0 || j == 1 || j == 2 || j == 3 || j == 4 || j == 5 || j == 6 || j == 7 || j == 8 || j == 9 || j == 10 || j == 11 || j == 12;
    }
    SharedAt(a, b, 13);
    PriorityOf(a, b, 'L');
  }

  lemma SampleShared3()
    ensures Common(Sample[2].0, Sample[2].1) == Some('P')
    ensures var line := Sample[2].0 + Sample[2].1;
      HasShared(line) && RucksackPriority(line) == 42
  {
    var (a, b) := Sample[2];
    assert a[0] == 'P';
    SharedAt(a, b, 0);
    PriorityOf(a, b, 'P');
  }

  lemma SampleShared4()
    ensures Common(Sample[3].0, Sample[3].1) == Some('v')
    ensures var line := Sample[3].0 + Sample[3].1;
      HasShared(line) && RucksackPriority(line) == 22
  {
    var (a, b) := Sample[3];
    assert a[0] == 'w' && a[1] == 'M' && a[2] == 'q' && a[3] == 'v';
    forall j | 0 <= j < 3 ensures a[j] !in b {
      assert j == 0 || j == 1 || j == 2;
    }
    SharedAt(a, b, 3);
    PriorityOf(a, b, 'v');
  }

  lemma SampleShared5()
    ensures Common(Sample[4].0, Sample[4].1) == Some('t')
    ensures var line := Sample[4].0 + Sample[4].1;
      HasShared(line) && RucksackPriority(line) == 20
  {
    var (a, b) := Sample[4];
    assert a[0] == 't';
    SharedAt(a, b, 0);
    PriorityOf(a, b, 't');
  }

  lemma SampleShared6()
    ensures Common(Sample[5].0, Sample[5].1) == Some('s')
    ensures var line := Sample[5].0 + Sample[5].1;
      HasShared(line) && RucksackPriority(line) == 19
  {
    var (a, b) := Sample[5];
    assert a[0] == 'C' && a[1] == 'r' && a[2] == 'Z' && a[3] == 's';
    forall j | 0 <= j < 3 ensures a[j] !in b {
      assert j == 0 || j == 1 || j == 2;
    }
    SharedAt(a, b, 3);
    PriorityOf(a, b, 's');
  }

  function Sum(xs: seq<nat>): nat {
    if xs == [] then 0 else xs[0] + Sum(xs[1..])
  }

  /** Part 1 adds up the lines' priorities, whatever they are. */
  lemma {:induction false} Part1LinesSum(lines: seq<string>, ps: seq<nat>)
    requires |ps| == |lines|
    requires forall i :: 0 <= i < |lines| ==> HasShared(lines[i])
    requires forall i :: 0 <= i < |lines| ==> RucksackPriority(lines[i]) == ps[i]
    ensures Part1Lines(lines) == Sum(ps)
  {
    if lines != [] {
      Part1LinesSum(lines[1..], ps[1..]);
    }
  }

  lemma SamplePriorities()
    ensures forall i :: 0 <= i < 6 ==> HasShared(SampleLines()[i])
    ensures forall i :: 0 <= i < 6 ==> RucksackPriority(SampleLines()[i]) == [16, 38, 42, 22, 20, 19][i]
  {
    forall i | 0 <= i < 6
      ensures HasShared(SampleLines()[i])
      ensures RucksackPriority(SampleLines()[i]) == [16, 38, 42, 22, 20, 19][i]
    {
      if i == 0 { SampleShared1(); }
      else if i == 1 { SampleShared2(); }
      else if i == 2 { SampleShared3(); }
      else if i == 3 { SampleShared4(); }
      else if i == 4 { SampleShared5(); }
      else { SampleShared6(); }
    }
  }

  /** Part 1 of the example: 16 + 38 + 42 + 22 + 20 + 19. */
  lemma SamplePart1()
    ensures forall i :: 0 <= i < 6 ==> HasShared(SampleLines()[i])
    ensures Part1Lines(SampleLines()) == 157
  {
    SamplePriorities();
    Part1LinesSum(SampleLines(), [16, 38, 42, 22, 20, 19]);
  }

  /** A group's badge, given where the search finds it. */
  lemma BadgeAt(bags: seq<string>, k: nat)
    requires |bags| == 3 && k < |bags[0]| && bags[0][k] in bags[1] && bags[0][k] in bags[2]
    requires forall j :: 0 <= j < k ==> bags[0][j] !in bags[1]
    ensures Badge(bags) == Some(bags[0][k])
  {
    FindAt(bags[0], MemberOfBoth(bags[1], bags[2]), k);
  }

  lemma SampleBadge1()
    ensures var bags := SampleLines()[..3];
      HasBadge(bags) && GroupPriority(bags) == 18
  {
    var bags := SampleLines()[..3];
    var (a, b) := Sample[0];
    assert bags[0] == a + b && bags[1] == Sample[1].0 + Sample[1].1;
    assert bags[2] == Sample[2].0 + Sample[2].1;
    assert a[0] == 'v' && a[1] == 'J' && a[2] == 'r';
    assert 'r' in Sample[1].1 && 'r' in Sample[2].0;
    forall j | 0 <= j < 2 ensures bags[0][j] !in bags[1] {
      assert j == 0 || j == 1;
    }
    BadgeAt(bags, 2);
  }

  lemma SampleBadge2()
    ensures var bags := SampleLines()[3..];
      HasBadge(bags) && GroupPriority(bags) == 52
  {
    var bags := SampleLines()[3..];
    var (a, b) := Sample[3];
    assert bags[0] == a + b && bags[1] == Sample[4].0 + Sample[4].1;
    assert bags[2] == Sample[5].0 + Sample[5].1;
    assert a[0] == 'w' && a[1] == 'M' && a[2] == 'q' && a[3] == 'v' && a[4] == 'L' && a[5] == 'M';
    assert a[6] == 'Z' && 'Z' in Sample[4].1 && 'Z' in Sample[5].0;
    forall j | 0 <= j < 6 ensures bags[0][j] !in bags[1] {
      assert j == 0 || j == 1 || j == 2 || j == 3 || j == 4 || j == 5;
    }
    BadgeAt(bags, 6);
  }

  /** The example's lines two groups of three: badges 'r' and 'Z'. */
  lemma SamplePart2()
    ensures var groups := Chunks(SampleLines());
      (forall g :: 0 <= g < |groups| ==> HasBadge(groups[g])) && Part2Groups(groups) == 70
  {
    var lines := SampleLines();
    assert Chunks(lines[3..]) == [lines[3..]];
    assert Chunks(lines) == [lines[..3], lines[3..]];
    SampleBadge1();
    SampleBadge2();
    assert [lines[..3], lines[3..]][1..] == [lines[3..]];
  }

  /** The example as one text, the lines joined by newlines. */
  function SampleInput(): string {
    Text.UnLines(SampleLines())
  }

  /** No line of the example holds a newline or ends in a carriage return. */
  lemma SampleClean(i: nat)
    requires i < 6
    ensures '\n' !in SampleLines()[i] && !Text.EndsInCarriageReturn(SampleLines()[i])
  {
    assert SampleLines()[i] == Sample[i].0 + Sample[i].1;
    if i < 3 {
      SampleCleanFirst(i);
    } else {
      SampleCleanLast(i);
    }
  }

  lemma SampleCleanFirst(i: nat)
    requires i < 3
    ensures '\n' !in Sample[i].0 + Sample[i].1 && (Sample[i].0 + Sample[i].1)[|Sample[i].0 + Sample[i].1| - 1] != '\r'
  {
    if i == 0 {} else if i == 1 {} else {}
  }

  lemma SampleCleanLast(i: nat)
    requires 3 <= i < 6
    ensures '\n' !in Sample[i].0 + Sample[i].1 && (Sample[i].0 + Sample[i].1)[|Sample[i].0 + Sample[i].1| - 1] != '\r'
  {
    if i == 3 {} else if i == 4 {} else {}
  }

  lemma SampleText()
    ensures Text.Lines(SampleInput()) == SampleLines()
  {
    var lines := SampleLines();
    forall i | 0 <= i < 6 ensures '\n' !in lines[i] && !Text.EndsInCarriageReturn(lines[i]) {
      SampleClean(i);
    }
    Text.LinesUnLines(lines);
  }

  /** The test's answers: 157 and 70. */
  lemma SampleAnswers()
    ensures ValidPart1(SampleInput()) && Part1(SampleInput()) == 157
    ensures ValidPart2(SampleInput()) && Part2(SampleInput()) == 70
  {
    SampleText();
    SamplePart1();
    SamplePart2();
  }
}

/** Day 4, "Camp Cleanup" (day4/src/lib.rs): each line pairs two elves' section
    assignments, inclusive ranges written "a-b,c-d". Part 1 counts the pairs where one
    range contains the other, part 2 the pairs whose ranges overlap at all. */
module Day4 {
  import opened Wrappers
  import Parsing

  /** `start..=end`; it holds no section when `start > end`. */
  datatype Range = Range(start: nat, end: nat)

  type Pair = (Range, Range)

  /** `RangeInclusive::contains`. */
  predicate Contains(r: Range, x: nat) {
    r.start <= x <= r.end
  }

  predicate WellFormed(r: Range) {
    r.start <= r.end
  }

  // ---------------------------------------------------------------------------
  // The grammar: `sections`, `line` and `section_assignments`.

  /** `sections`: a `u32`, "-", a `u32`. */
  function Sections(s: string): (r: Option<(Range, string)>)
    ensures r.Some? ==> |r.value.1| < |s|
  {
    match Parsing.ParseNat(s)
    case None => None
    case Some((start, afterStart)) =>
      match Parsing.Tag(afterStart, "-")
      case None => None
      case Some(afterDash) =>
        match Parsing.ParseNat(afterDash)
        case None => None
        case Some((end, rest)) => Some((Range(start, end), rest))
  }

  /** `line`: two section ranges separated by ",". */
  function Line(s: string): (r: Option<(Pair, string)>)
    ensures r.Some? ==> |r.value.1| < |s|
  {
    match Sections(s)
    case None => None
    case Some((first, afterFirst)) =>
      match Parsing.Tag(afterFirst, ",")
      case None => None
      case Some(afterComma) =>
        match Sections(afterComma)
        case None => None
        case Some((second, rest)) => Some(((first, second), rest))
  }

  /** The repetition inside `separated_list1(newline, line)`: a newline followed by a
      line, as often as both are there; a newline not followed by a line is left
      unconsumed. */
  function MoreLines(s: string): (r: (seq<Pair>, string))
    ensures |r.1| <= |s|
    decreases |s|
  {
    if s != [] && s[0] == '\n' && Line(s[1..]).Some? then
      var (pair, rest) := Line(s[1..]).value;
      var (more, rest') := MoreLines(rest);
      ([pair] + more, rest')
    else ([], s)
  }

  /** `section_assignments`: one or more lines separated by newlines. */
  function SectionAssignments(s: string): (r: Option<(seq<Pair>, string)>)
    ensures r.Some? <==> Line(s).Some?
    ensures r.Some? ==> r.value.0 != []
  {
    match Line(s)
    case None => None
    case Some((pair, rest)) =>
      var (more, rest') := MoreLines(rest);
      Some(([pair] + more, rest'))
  }

  // ---------------------------------------------------------------------------
  // Printing, and reading back what was printed.

  function ShowRange(r: Range): string {
    Parsing.Show(r.start) + "-" + Parsing.Show(r.end)
  }

  function ShowPair(p: Pair): string {
    ShowRange(p.0) + "," + ShowRange(p.1)
  }

  /** Each pair on a line of its own, every one after a newline. */
  function ShowLines(pairs: seq<Pair>): string
    decreases |pairs|
  {
    if pairs == [] then [] else "\n" + (ShowPair(pairs[0]) + ShowLines(pairs[1..]))
  }

  /** The puzzle input for `pairs`: one pair per line, lines separated by newlines. */
  function ShowAssignments(pairs: seq<Pair>): string
    requires pairs != []
  {
    ShowPair(pairs[0]) + ShowLines(pairs[1..])
  }

  /** Input that does not continue the last number. */
  predicate Stops(rest: string) {
    rest == [] || !Parsing.IsDigit(rest[0])
  }

  /** Input that ends a list of lines: it does not continue the last number, and a
      newline at its front is not followed by another line. */
  predicate Ends(rest: string) {
    Stops(rest) && (rest != [] && rest[0] == '\n' ==> Stops(rest[1..]))
  }

  lemma SectionsShow(r: Range, rest: string)
    requires Stops(rest)
    ensures Sections(ShowRange(r) + rest) == Some((r, rest))
  {
    var a, b := Parsing.Show(r.start), Parsing.Show(r.end);
    var afterStart := "-" + (b + rest);
    assert ShowRange(r) + rest == a + afterStart;
    Parsing.ParseNatShow(r.start, afterStart);
    Parsing.TagOf("-", b + rest);
    Parsing.ParseNatShow(r.end, rest);
  }

  lemma LineShow(p: Pair, rest: string)
    requires Stops(rest)
    ensures Line(ShowPair(p) + rest) == Some((p, rest))
  {
    var second := ShowRange(p.1) + rest;
    assert ShowPair(p) + rest == ShowRange(p.0) + ("," + second);
    SectionsShow(p.0, "," + second);
    Parsing.TagOf(",", second);
    SectionsShow(p.1, rest);
  }

  /** One step of the repetition: a newline and a line, then the rest. */
  lemma MoreLinesStep(s: string, body: string, pair: Pair, rest: string)
    requires s == "\n" + body && Line(body) == Some((pair, rest))
    ensures MoreLines(s) == ([pair] + MoreLines(rest).0, MoreLines(rest).1)
  {
    assert s[1..] == body;
  }

  /** Input that is not a newline followed by a line is left alone. */
  lemma MoreLinesStops(rest: string)
    requires Ends(rest)
    ensures MoreLines(rest) == ([], rest)
  {
    if rest != [] && rest[0] == '\n' {
      assert Sections(rest[1..]).None?;
    }
  }

  /** What follows a printed pair: more lines, or the end of the input. */
  lemma ShowLinesStops(pairs: seq<Pair>, rest: string)
    requires Ends(rest)
    ensures Stops(ShowLines(pairs) + rest)
  {
    if pairs != [] {
      assert (ShowLines(pairs) + rest)[0] == '\n';
    }
  }

  /** A non-empty list splits into its head and its tail. */
  lemma ConsSplit<T>(xs: seq<T>)
    requires xs != []
    ensures [xs[0]] + xs[1..] == xs
  {
  }

  /** Printing a non-empty list: a newline, the first pair, then the others. */
  lemma ShowLinesCons(pairs: seq<Pair>, rest: string)
    requires pairs != []
    ensures ShowLines(pairs) + rest == "\n" + (ShowPair(pairs[0]) + (ShowLines(pairs[1..]) + rest))
  {
  }

  /** If the repetition reads back the tail of a list, it reads back the whole list. */
  lemma MoreLinesCons(pairs: seq<Pair>, rest: string)
    requires pairs != [] && Ends(rest)
    requires MoreLines(ShowLines(pairs[1..]) + rest) == (pairs[1..], rest)
    ensures MoreLines(ShowLines(pairs) + rest) == (pairs, rest)
  {
    var tail := ShowLines(pairs[1..]) + rest;
    var body := ShowPair(pairs[0]) + tail;
    var s := ShowLines(pairs) + rest;
    assert s == "\n" + body by { ShowLinesCons(pairs, rest); }
    assert Line(body) == Some((pairs[0], tail)) by {
      ShowLinesStops(pairs[1..], rest);
      LineShow(pairs[0], tail);
    }
    MoreLinesStep(s, body, pairs[0], tail);
    ConsSplit(pairs);
  }

  /** The repetition reads back every printed line. */
  lemma {:induction false} MoreLinesShow(pairs: seq<Pair>, rest: string)
    requires Ends(rest)
    ensures MoreLines(ShowLines(pairs) + rest) == (pairs, rest)
    decreases |pairs|
  {
    if pairs == [] {
      assert ShowLines(pairs) + rest == rest;
      MoreLinesStops(rest);
    } else {
      MoreLinesShow(pairs[1..], rest);
      MoreLinesCons(pairs, rest);
    }
  }

  /** `section_assignments` reads back every non-empty list of pairs, leaving whatever
      follows it (a final newline, say) unread. */
  lemma SectionAssignmentsShow(pairs: seq<Pair>, rest: string)
    requires pairs != [] && Ends(rest)
    ensures SectionAssignments(ShowAssignments(pairs) + rest) == Some((pairs, rest))
  {
    var tail := ShowLines(pairs[1..]) + rest;
    var s := ShowAssignments(pairs) + rest;
    assert s == ShowPair(pairs[0]) + tail;
    assert Line(s) == Some((pairs[0], tail)) by {
      ShowLinesStops(pairs[1..], rest);
      LineShow(pairs[0], tail);
    }
    assert MoreLines(tail) == (pairs[1..], rest) by { MoreLinesShow(pairs[1..], rest); }
    ConsSplit(pairs);
  }

  /** A trailing newline after the last line is left unread. */
  lemma TrailingNewline(pairs: seq<Pair>)
    requires pairs != []
    ensures SectionAssignments(ShowAssignments(pairs) + "\n") == Some((pairs, "\n"))
  {
    assert "\n"[1..] == [];
    SectionAssignmentsShow(pairs, "\n");
  }

  // ---------------------------------------------------------------------------
  // The two filters.

  /** Part 1's filter: one range holds both ends of the other. */
  predicate OneContainsOther(p: Pair) {
    var (a, b) := p;
    var aContainsB := Contains(a, b.start) && Contains(a, b.end);
    var bContainsA := Contains(b, a.start) && Contains(b, a.end);
    aContainsB || bContainsA
  }

  /** Part 2's filter: one range holds an end of the other. */
  predicate Overlap(p: Pair) {
    var (a, b) := p;
    var aOverlapsB := Contains(a, b.start) || Contains(a, b.end);
    var bOverlapsA := Contains(b, a.start) || Contains(b, a.end);
    aOverlapsB || bOverlapsA
  }

  /** Containment does not depend on the order of the pair; for non-empty ranges it is
      the comparison of the ends. */
  lemma OneContainsOtherIff(a: Range, b: Range)
    ensures OneContainsOther((a, b)) == OneContainsOther((b, a))
    ensures WellFormed(a) && WellFormed(b) ==>
      (OneContainsOther((a, b)) <==>
        (a.start <= b.start && b.end <= a.end) || (b.start <= a.start && a.end <= b.end))
  {
  }

  /** For non-empty ranges, overlap is the usual interval intersection test; and every
      section of the overlap lies in both ranges. */
  lemma OverlapIff(a: Range, b: Range)
    ensures Overlap((a, b)) == Overlap((b, a))
    ensures WellFormed(a) && WellFormed(b) ==>
      (Overlap((a, b)) <==> a.start <= b.end && b.start <= a.end)
    ensures WellFormed(a) && WellFormed(b) ==>
      (Overlap((a, b)) <==> exists x: nat :: Contains(a, x) && Contains(b, x))
  {
    if WellFormed(a) && WellFormed(b) && Overlap((a, b)) {
      var x := if a.start <= b.start then b.start else a.start;
      assert Contains(a, x) && Contains(b, x);
    }
  }

  /** A pair where one range contains the other overlaps. */
  lemma ContainsOverlaps(p: Pair)
    requires OneContainsOther(p)
    ensures Overlap(p)
  {
  }

  // ---------------------------------------------------------------------------
  // Counting.

  /** `filter(..).count()`. */
  function Count(pairs: seq<Pair>, keep: Pair -> bool): (n: nat)
    ensures n <= |pairs|
    decreases |pairs|
  {
    if pairs == [] then 0 else (if keep(pairs[0]) then 1 else 0) + Count(pairs[1..], keep)
  }

  /** The count is the number of positions whose pair is kept. */
  lemma CountPositions(pairs: seq<Pair>, keep: Pair -> bool)
    ensures Count(pairs, keep) == |set i | 0 <= i < |pairs| && keep(pairs[i])|
  {
    CountFrom(pairs, keep, 0);
    assert pairs[0..] == pairs;
  }

  lemma {:induction false} CountFrom(pairs: seq<Pair>, keep: Pair -> bool, lo: nat)
    requires lo <= |pairs|
    ensures Count(pairs[lo..], keep) == |set i | lo <= i < |pairs| && keep(pairs[i])|
    decreases |pairs| - lo
  {
    var kept := set i | lo <= i < |pairs| && keep(pairs[i]);
    if lo == |pairs| {
      assert kept == {};
    } else {
      var later := set i | lo + 1 <= i < |pairs| && keep(pairs[i]);
      CountFrom(pairs, keep, lo + 1);
      assert pairs[lo..][1..] == pairs[lo + 1..];
      if keep(pairs[lo]) {
        assert kept == later + {lo};
      } else {
        assert kept == later;
      }
    }
  }

  /** Counting with a weaker filter counts at least as many pairs. */
  lemma {:induction false} CountMono(pairs: seq<Pair>, strong: Pair -> bool, weak: Pair -> bool)
    requires forall p :: strong(p) ==> weak(p)
    ensures Count(pairs, strong) <= Count(pairs, weak)
    decreases |pairs|
  {
    if pairs != [] {
      CountMono(pairs[1..], strong, weak);
    }
  }

  // ---------------------------------------------------------------------------
  // The two answers.

  /** The parse `unwrap` needs: the input starts with a line. */
  predicate ValidInput(input: string) {
    SectionAssignments(input).Some?
  }

  function Assignments(input: string): (pairs: seq<Pair>)
    requires ValidInput(input)
    ensures pairs != []
  {
    SectionAssignments(input).value.0
  }

  /** `process_part1`: the pairs where one range contains the other. */
  function Part1(input: string): (answer: nat)
    requires ValidInput(input)
    ensures answer <= |Assignments(input)|
  {
    Count(Assignments(input), OneContainsOther)
  }

  /** `process_part2`: the pairs that overlap. */
  function Part2(input: string): (answer: nat)
    requires ValidInput(input)
    ensures answer <= |Assignments(input)|
  {
    Count(Assignments(input), Overlap)
  }

  /** Part 1 never exceeds part 2, which never exceeds the number of lines. */
  lemma PartsOrdered(input: string)
    requires ValidInput(input)
    ensures Part1(input) <= Part2(input) <= |Assignments(input)|
  {
    CountMono(Assignments(input), OneContainsOther, Overlap);
  }

  // ---------------------------------------------------------------------------
  // The sample.

  const Sample: seq<Pair> := [
    (Range(2, 4), Range(6, 8)), (Range(2, 3), Range(4, 5)), (Range(5, 7), Range(7, 9)),
    (Range(2, 8), Range(3, 7)), (Range(6, 6), Range(4, 6)), (Range(2, 6), Range(4, 8))]

  /** The sample's six pairs: two where one range contains the other, four that overlap. */
  lemma SampleCounts()
    ensures Count(Sample, OneContainsOther) == 2
    ensures Count(Sample, Overlap) == 4
  {
  }

  /** The sample text reads as those six pairs. */
  lemma SampleParses()
    ensures var text := ShowAssignments(Sample);
      ValidInput(text) && Assignments(text) == Sample && Part1(text) == 2 && Part2(text) == 4
  {
    SectionAssignmentsShow(Sample, "");
    assert ShowAssignments(Sample) + "" == ShowAssignments(Sample);
    SampleCounts();
  }
}

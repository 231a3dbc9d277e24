/** Rust's string splitting as the solvers use it: `str::lines`,
    `str::split_whitespace`, `str::split` on one character and `join`. */
module Text {

  /** Index of the first `c` in `s`, or `|s|` when there is none. */
  function IndexOf(s: string, c: char): (k: nat)
    ensures k <= |s|
    ensures k < |s| ==> s[k] == c
    ensures forall i :: 0 <= i < k ==> s[i] != c
  {
    if s == [] then 0 else if s[0] == c then 0 else 1 + IndexOf(s[1..], c)
  }

  predicate EndsInCarriageReturn(line: string) {
    line != [] && line[|line| - 1] == '\r'
  }

  function StripCarriageReturn(line: string): string {
    if EndsInCarriageReturn(line) then line[..|line| - 1] else line
  }

  /** `str::lines`: split at each '\n'; a "\r\n" ending loses its '\r' too; a final
      line ending does not start an extra empty line. */
  function Lines(s: string): (ls: seq<string>)
    ensures forall i :: 0 <= i < |ls| ==> '\n' !in ls[i]
    ensures s == [] <==> ls == []
    decreases |s|
  {
    if s == [] then []
    else
      var k := IndexOf(s, '\n');
      if k == |s| then [s]
      else [StripCarriageReturn(s[..k])] + Lines(s[k + 1..])
  }

  /** The lines of a text that was written line by line with '\n' endings. */
  function UnLines(ls: seq<string>): string {
    if ls == [] then [] else if |ls| == 1 then ls[0] else ls[0] + "\n" + UnLines(ls[1..])
  }

  /** `lines` undoes joining with '\n' when no line holds a '\n' or ends in '\r'
      and the last line is not empty. */
  lemma {:induction false} LinesUnLines(ls: seq<string>)
    requires forall i :: 0 <= i < |ls| ==> '\n' !in ls[i]
    requires forall i :: 0 <= i < |ls| - 1 ==> !EndsInCarriageReturn(ls[i])
    requires ls != [] ==> ls[|ls| - 1] != []
    ensures Lines(UnLines(ls)) == ls
  {
    if |ls| > 1 {
      var tl := ls[1..];
      assert forall i :: 0 <= i < |tl| ==> tl[i] == ls[i + 1];
      LinesUnLines(tl);
      UnLinesNonEmpty(tl);
      LinesCons(ls[0], UnLines(tl));
      assert UnLines(ls) == ls[0] + "\n" + UnLines(tl);
      assert [ls[0]] + tl == ls;
    } else if |ls| == 1 {
      IndexOfPast(ls[0], [], '\n');
    }
  }

  /** A line ended by '\n' and followed by more text comes off first. */
  lemma LinesCons(line: string, rest: string)
    requires '\n' !in line && !EndsInCarriageReturn(line) && rest != []
    ensures Lines(line + "\n" + rest) == [line] + Lines(rest)
  {
    var s := line + "\n" + rest;
    IndexOfPast(line, rest, '\n');
    assert s[..|line|] == line;
    assert s[|line| + 1..] == rest;
  }

  lemma {:induction false} UnLinesNonEmpty(ls: seq<string>)
    requires ls != [] && ls[|ls| - 1] != []
    ensures UnLines(ls) != []
  {
    if |ls| > 1 {
      UnLinesNonEmpty(ls[1..]);
    }
  }

  /** The first `c` of `w + [c] + rest`, or of `w` alone, is just past `w` when `w` holds none. */
  lemma {:induction false} IndexOfPast(w: string, rest: string, c: char)
    requires c !in w
    ensures IndexOf(w + [c] + rest, c) == |w|
    ensures IndexOf(w, c) == |w|
  {
    if w != [] {
      assert (w + [c] + rest)[1..] == w[1..] + [c] + rest;
      IndexOfPast(w[1..], rest, c);
    }
  }

  /** The characters `char::is_whitespace` accepts (Unicode White_Space). */
  predicate IsWhitespace(c: char) {
    ('\t' <= c <= '\r') || c == ' ' || c == '\U{85}' || c == '\U{A0}' || c == '\U{1680}'
    || ('\U{2000}' <= c <= '\U{200A}') || c == '\U{2028}' || c == '\U{2029}' || c == '\U{202F}'
    || c == '\U{205F}' || c == '\U{3000}'
  }

  /** Length of the leading run of non-whitespace characters. */
  function WordEnd(s: string): (k: nat)
    ensures k <= |s|
    ensures forall i :: 0 <= i < k ==> !IsWhitespace(s[i])
    ensures k < |s| ==> IsWhitespace(s[k])
  {
    if s == [] || IsWhitespace(s[0]) then 0 else 1 + WordEnd(s[1..])
  }

  /** A word: a non-empty string without whitespace. */
  predicate IsWord(w: string) {
    w != [] && forall i :: 0 <= i < |w| ==> !IsWhitespace(w[i])
  }

  /** `str::split_whitespace`: the maximal runs of non-whitespace characters. */
  function Words(s: string): (ws: seq<string>)
    ensures forall i :: 0 <= i < |ws| ==> IsWord(ws[i])
    decreases |s|
  {
    if s == [] then []
    else if IsWhitespace(s[0]) then Words(s[1..])
    else
      var k := WordEnd(s);
      [s[..k]] + Words(s[k..])
  }

  /** Words written out with one space between them. */
  function UnWords(ws: seq<string>): string {
    if ws == [] then [] else if |ws| == 1 then ws[0] else ws[0] + " " + UnWords(ws[1..])
  }

  lemma {:induction false} WordEndOf(w: string, rest: string)
    requires IsWord(w)
    requires rest == [] || IsWhitespace(rest[0])
    ensures WordEnd(w + rest) == |w|
  {
    if |w| > 1 {
      assert (w + rest)[1..] == w[1..] + rest;
      WordEndOf(w[1..], rest);
    }
  }

  /** `split_whitespace` undoes writing words out with single spaces. */
  lemma {:induction false} WordsUnWords(ws: seq<string>)
    requires forall i :: 0 <= i < |ws| ==> IsWord(ws[i])
    ensures Words(UnWords(ws)) == ws
  {
    if |ws| == 1 {
      WordEndOf(ws[0], []);
      assert ws[0][..|ws[0]|] == ws[0];
    } else if |ws| > 1 {
      var s := UnWords(ws);
      var rest := UnWords(ws[1..]);
      assert s == ws[0] + (" " + rest);
      WordEndOf(ws[0], " " + rest);
      assert s[..|ws[0]|] == ws[0];
      assert s[|ws[0]|..] == " " + rest;
      assert (" " + rest)[1..] == rest;
      WordsUnWords(ws[1..]);
    }
  }

  /** `str::split(c)`: the pieces between the occurrences of `c`; always at least one. */
  function Split(s: string, c: char): (parts: seq<string>)
    ensures |parts| >= 1
    ensures forall i :: 0 <= i < |parts| ==> c !in parts[i]
    decreases |s|
  {
    var k := IndexOf(s, c);
    if k == |s| then [s] else [s[..k]] + Split(s[k + 1..], c)
  }

  /** `[..].join(&c.to_string())`: the parts with `c` between neighbours. */
  function Join(parts: seq<string>, c: char): string {
    if parts == [] then [] else if |parts| == 1 then parts[0]
    else parts[0] + [c] + Join(parts[1..], c)
  }

  /** Joining the pieces of a split rebuilds the string. */
  lemma {:induction false} JoinSplit(s: string, c: char)
    ensures Join(Split(s, c), c) == s
    decreases |s|
  {
    var k := IndexOf(s, c);
    if k < |s| {
      var tl := s[k + 1..];
      JoinSplit(tl, c);
      var parts := Split(tl, c);
      assert Split(s, c) == [s[..k]] + parts;
      JoinCons(s[..k], parts, c);
      Reassemble(s, k);
    }
  }

  /** A string is the part before position `k`, the character at `k` and the rest. */
  lemma Reassemble(s: string, k: nat)
    requires k < |s|
    ensures s[..k] + [s[k]] + s[k + 1..] == s
  {
  }

  lemma JoinCons(part: string, parts: seq<string>, c: char)
    requires parts != []
    ensures Join([part] + parts, c) == part + [c] + Join(parts, c)
  {
    assert ([part] + parts)[1..] == parts;
  }

  /** Splitting a join of `c`-free parts gives the parts back. */
  lemma {:induction false} SplitJoin(parts: seq<string>, c: char)
    requires |parts| >= 1
    requires forall i :: 0 <= i < |parts| ==> c !in parts[i]
    ensures Split(Join(parts, c), c) == parts
  {
    if |parts| == 1 {
      IndexOfPast(parts[0], [], c);
    } else {
      SplitCons(parts[0], Join(parts[1..], c), c);
      SplitJoin(parts[1..], c);
    }
  }

  /** A `c`-free part followed by `c` comes off first. */
  lemma SplitCons(part: string, rest: string, c: char)
    requires c !in part
    ensures Split(part + [c] + rest, c) == [part] + Split(rest, c)
  {
    var s := part + [c] + rest;
    IndexOfPast(part, rest, c);
    assert s[..|part|] == part;
    assert s[|part| + 1..] == rest;
  }
}

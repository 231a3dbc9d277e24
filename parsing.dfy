/** The text primitives the solvers' parsers are built from: nom's `tag`,
    `alpha1`, `is_a`, `multispace1` and `character::complete::u32`/`u64`, Rust's
    `str::parse` for integers, and the decimal printing done by `to_string`.

    A nom-style parser takes the remaining input and either fails (`None`) or
    returns what it recognised together with the input left after it. Machine
    widths are not modelled: a numeral of any length denotes its value. */
module Parsing {
  import opened Wrappers

  /** Length of the longest prefix of `s` whose characters all satisfy `p`. */
  function Span(s: string, p: char -> bool): (n: nat)
    ensures n <= |s|
    ensures forall i :: 0 <= i < n ==> p(s[i])
    ensures n < |s| ==> !p(s[n])
  {
    if s != [] && p(s[0]) then 1 + Span(s[1..], p) else 0
  }

  /** A run of `p`-characters followed by a character that is not one is read whole. */
  lemma {:induction false} SpanOf(w: string, rest: string, p: char -> bool)
    requires forall i :: 0 <= i < |w| ==> p(w[i])
    requires rest == [] || !p(rest[0])
    ensures Span(w + rest, p) == |w|
  {
    if w != [] {
      assert (w + rest)[1..] == w[1..] + rest;
      SpanOf(w[1..], rest, p);
    }
  }

  /** nom's `take_while1`-style recognisers (`alpha1`, `is_a`, `multispace1`, digits):
      the longest non-empty run of `p`-characters, or failure when there is none. */
  function TakeWhile1(s: string, p: char -> bool): (r: Option<(string, string)>)
    ensures r.Some? <==> s != [] && p(s[0])
    ensures r.Some? ==> r.value.0 + r.value.1 == s && r.value.0 != []
    ensures r.Some? ==> (forall i :: 0 <= i < |r.value.0| ==> p(r.value.0[i]))
    ensures r.Some? ==> (r.value.1 == [] || !p(r.value.1[0]))
  {
    var n := Span(s, p);
    if n == 0 then None else Some((s[..n], s[n..]))
  }

  /** Reading a run back: a non-empty run followed by a non-member is recognised exactly. */
  lemma TakeWhile1Of(w: string, rest: string, p: char -> bool)
    requires w != [] && forall i :: 0 <= i < |w| ==> p(w[i])
    requires rest == [] || !p(rest[0])
    ensures TakeWhile1(w + rest, p) == Some((w, rest))
  {
    SpanOf(w, rest, p);
    assert (w + rest)[..|w|] == w;
    assert (w + rest)[|w|..] == rest;
  }

  /** nom's `tag`: the literal `t` at the front of `s`. */
  function Tag(s: string, t: string): (r: Option<string>)
    ensures r.Some? <==> t <= s
    ensures r.Some? ==> t + r.value == s
  {
    if t <= s then Some(s[|t|..]) else None
  }

  /** `tag` consumes exactly its literal. */
  lemma TagOf(t: string, rest: string)
    ensures Tag(t + rest, t) == Some(rest)
  {
    assert t <= t + rest;
    assert (t + rest)[|t|..] == rest;
  }

  /** ASCII letters, the alphabet of nom's `alpha1`. */
  predicate IsAlpha(c: char) {
    'a' <= c <= 'z' || 'A' <= c <= 'Z'
  }

  /** ASCII lower-case letters. */
  predicate IsLower(c: char) {
    'a' <= c <= 'z'
  }

  /** The characters nom's `multispace1` skips. */
  predicate IsMultispace(c: char) {
    c == ' ' || c == '\t' || c == '\r' || c == '\n'
  }

  /** nom's `alpha1`. */
  function Alpha1(s: string): (r: Option<(string, string)>)
    ensures r.Some? <==> s != [] && IsAlpha(s[0])
  {
    TakeWhile1(s, IsAlpha)
  }

  /** nom's `multispace1`, keeping only the input that is left. */
  function Multispace1(s: string): (r: Option<string>)
    ensures r.Some? <==> s != [] && IsMultispace(s[0])
    ensures r.Some? ==> |r.value| < |s|
  {
    match TakeWhile1(s, IsMultispace)
    case None => None
    case Some((_, rest)) => Some(rest)
  }

  /** `multispace1` skips a whole run of blanks. */
  lemma Multispace1Of(ws: string, rest: string)
    requires ws != [] && forall i :: 0 <= i < |ws| ==> IsMultispace(ws[i])
    requires rest == [] || !IsMultispace(rest[0])
    ensures Multispace1(ws + rest) == Some(rest)
  {
    TakeWhile1Of(ws, rest, IsMultispace);
  }

  predicate IsDigit(c: char) {
    '0' <= c <= '9'
  }

  function DigitValue(c: char): (d: nat)
    requires IsDigit(c)
    ensures d < 10
  {
    c as int - '0' as int
  }

  function DigitChar(d: nat): (c: char)
    requires d < 10
    ensures IsDigit(c) && DigitValue(c) == d
  {
    ('0' as int + d) as char
  }

  /** A non-empty string of ASCII digits. */
  predicate IsNumeral(s: string) {
    |s| >= 1 && forall i :: 0 <= i < |s| ==> IsDigit(s[i])
  }

  /** The value of a string of digits, most significant digit first. */
  function ValueOf(ds: string): nat
    requires forall i :: 0 <= i < |ds| ==> IsDigit(ds[i])
  {
    if ds == [] then 0 else 10 * ValueOf(ds[..|ds| - 1]) + DigitValue(ds[|ds| - 1])
  }

  /** `n.to_string()` for a non-negative integer: decimal digits without leading zeros. */
  function Show(n: nat): (s: string)
    ensures IsNumeral(s)
    ensures s[0] == '0' ==> n == 0 && s == "0"
  {
    if n < 10 then [DigitChar(n)] else Show(n / 10) + [DigitChar(n % 10)]
  }

  /** Printing then evaluating gives the number back. */
  lemma {:induction false} ValueOfShow(n: nat)
    ensures ValueOf(Show(n)) == n
  {
    if n >= 10 {
      var s := Show(n);
      assert s[..|s| - 1] == Show(n / 10);
      ValueOfShow(n / 10);
    }
  }

  /** nom's `character::complete::u32` / `u64`: the longest non-empty run of digits
      at the front of the input, as a number. */
  function ParseNat(s: string): (r: Option<(nat, string)>)
    ensures r.Some? <==> s != [] && IsDigit(s[0])
    ensures r.Some? ==> |r.value.1| < |s| && r.value.1 == s[Span(s, IsDigit)..]
  {
    var n := Span(s, IsDigit);
    if n == 0 then None else Some((ValueOf(s[..n]), s[n..]))
  }

  /** The printed form of a number is read back whole, whatever non-digit follows it. */
  lemma ParseNatShow(n: nat, rest: string)
    requires rest == [] || !IsDigit(rest[0])
    ensures ParseNat(Show(n) + rest) == Some((n, rest))
  {
    var s := Show(n);
    SpanOf(s, rest, IsDigit);
    assert (s + rest)[..|s|] == s;
    assert (s + rest)[|s|..] == rest;
    ValueOfShow(n);
  }

  /** Rust's `str::parse::<u32>()` on the whole string: an optional '+', then digits. */
  function ParseUnsigned(s: string): (r: Option<nat>)
    ensures r.Some? <==> IsNumeral(s) || (s != [] && s[0] == '+' && IsNumeral(s[1..]))
  {
    if IsNumeral(s) then Some(ValueOf(s))
    else if s != [] && s[0] == '+' && IsNumeral(s[1..]) then Some(ValueOf(s[1..]))
    else None
  }

  /** Rust's `str::parse::<i32>()` on the whole string: an optional sign, then digits. */
  function ParseSigned(s: string): (r: Option<int>)
    ensures r.Some? <==> IsNumeral(s) || (s != [] && (s[0] == '+' || s[0] == '-') && IsNumeral(s[1..]))
    ensures r.Some? && s != [] && s[0] == '-' ==> r.value <= 0
    ensures r.Some? && s != [] && s[0] != '-' ==> r.value >= 0
  {
    if IsNumeral(s) then Some(ValueOf(s) as int)
    else if s != [] && s[0] == '+' && IsNumeral(s[1..]) then Some(ValueOf(s[1..]) as int)
    else if s != [] && s[0] == '-' && IsNumeral(s[1..]) then Some(0 - ValueOf(s[1..]) as int)
    else None
  }

  /** `i.to_string()` for a signed integer. */
  function ShowInt(i: int): (s: string)
    ensures s != [] && (s[0] == '-' <==> i < 0)
  {
    if i < 0 then "-" + Show(-i) else Show(i)
  }

  lemma ParseUnsignedShow(n: nat)
    ensures ParseUnsigned(Show(n)) == Some(n)
  {
    ValueOfShow(n);
  }

  lemma ParseSignedShow(i: int)
    ensures ParseSigned(ShowInt(i)) == Some(i)
  {
    if i < 0 {
      var d := Show(-i);
      var s := "-" + d;
      assert s == ShowInt(i) && !IsDigit(s[0]) && s[1..] == d;
      ValueOfShow(-i);
      assert ParseSigned(s) == Some(0 - ValueOf(d) as int);
    } else {
      ValueOfShow(i);
    }
  }
}

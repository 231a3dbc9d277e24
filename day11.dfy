/** Day 11, "Monkey in the Middle" (day11/src/lib.rs): every monkey holds a queue of
    worry levels. On its turn a monkey inspects each item it holds: the worry level is
    combined with an operand, reduced modulo the product of every monkey's divisor (and,
    with relief, divided by 3), and the item is thrown to one of two monkeys depending on
    whether the new level is divisible by the monkey's divisor. The answer is the product
    of the two largest inspection counts. */
module Day11 {
  import opened Wrappers
  import Parsing

  // ---------------------------------------------------------------------------
  // Data model.

  /** An operand: the item's own worry level, or a literal. */
  datatype Value = Old | Num(n: nat)

  /** `new = a * b` or `new = a + b`; the left operand is parsed but never used. */
  datatype Operation = Mul(lhs: Value, rhs: Value) | Add(lhs: Value, rhs: Value)

  datatype Test = Test(divisible: nat, trueRecipient: nat, falseRecipient: nat)

  /** A monkey's fields as a value: the queue (front first), its operation, its test and
      how many items it has inspected. */
  datatype MonkeyState = MonkeyState(items: seq<nat>, operation: Operation, test: Test,
                                     touchCount: nat)

  // ---------------------------------------------------------------------------
  // The grammar of the notes.

  /** `value`: "old", else a decimal number. */
  function ParseValue(s: string): (r: Option<(Value, string)>)
    ensures r.Some? ==> |r.value.1| < |s|
  {
    match Parsing.Tag(s, "old")
    case Some(rest) => Some((Old, rest))
    case None =>
      match Parsing.ParseNat(s)
      case None => None
      case Some((n, rest)) => Some((Num(n), rest))
  }

  /** `alt((tag("*"), tag("+")))`. */
  function ParseOperator(s: string): (r: Option<(char, string)>)
    ensures r.Some? ==> |r.value.1| < |s|
  {
    if s != [] && (s[0] == '*' || s[0] == '+') then Some((s[0], s[1..])) else None
  }

  /** `operation`: "Operation: new = ", a value, an operator between blanks, a value. */
  function ParseOperation(s: string): (r: Option<(Operation, string)>)
    ensures r.Some? ==> |r.value.1| < |s|
  {
    match Parsing.Tag(s, "Operation: new = ")
    case None => None
    case Some(s1) =>
      match ParseValue(s1)
      case None => None
      case Some((v1, s2)) =>
        match Parsing.Multispace1(s2)
        case None => None
        case Some(s3) =>
          match ParseOperator(s3)
          case None => None
          case Some((o, s4)) =>
            match Parsing.Multispace1(s4)
            case None => None
            case Some(s5) =>
              match ParseValue(s5)
              case None => None
              case Some((v2, s6)) => Some((if o == '*' then Mul(v1, v2) else Add(v1, v2), s6))
  }

  /** `preceded(tag(t), u64)`. */
  function Field(s: string, t: string): (r: Option<(nat, string)>)
    ensures r.Some? ==> |r.value.1| < |s|
  {
    match Parsing.Tag(s, t)
    case None => None
    case Some(s1) => Parsing.ParseNat(s1)
  }

  /** `preceded(multispace1, preceded(tag(t), u64))`. */
  function NextField(s: string, t: string): (r: Option<(nat, string)>)
    ensures r.Some? ==> |r.value.1| < |s|
  {
    match Parsing.Multispace1(s)
    case None => None
    case Some(s1) => Field(s1, t)
  }

  /** `test`: the divisor and the two recipients. */
  function ParseTest(s: string): (r: Option<(Test, string)>)
    ensures r.Some? ==> |r.value.1| < |s|
  {
    match Field(s, "Test: divisible by ")
    case None => None
    case Some((d, s1)) =>
      match NextField(s1, "If true: throw to monkey ")
      case None => None
      case Some((t, s2)) =>
        match NextField(s2, "If false: throw to monkey ")
        case None => None
        case Some((f, s3)) => Some((Test(d, t, f), s3))
  }

  /** `separated_list1(tag(", "), u64)`. */
  function ParseNats(s: string): (r: Option<(seq<nat>, string)>)
    ensures r.Some? ==> |r.value.1| < |s| && r.value.0 != []
  {
    match Parsing.ParseNat(s)
    case None => None
    case Some((n, rest)) =>
      var (more, rest') := MoreNats(rest);
      Some(([n] + more, rest'))
  }

  /** The list after its first element: ", " and a number, as long as both are there. */
  function MoreNats(t: string): (r: (seq<nat>, string))
    ensures |r.1| <= |t|
    decreases |t|
  {
    if ", " <= t then
      match Parsing.ParseNat(t[2..])
      case None => ([], t)
      case Some((n, rest)) =>
        var more := MoreNats(rest);
        ([n] + more.0, more.1)
    else ([], t)
  }

  /** `delimited(tag("Monkey "), u64, tag(":"))` and the blanks after it; the number is
      dropped. */
  function ParseHeader(s: string): (r: Option<string>)
    ensures r.Some? ==> |r.value| < |s|
  {
    match Field(s, "Monkey ")
    case None => None
    case Some((_, s1)) =>
      match Parsing.Tag(s1, ":")
      case None => None
      case Some(s2) => Parsing.Multispace1(s2)
  }

  /** `preceded(tag("Starting items: "), separated_list1(..))` and the blanks after it. */
  function ParseItems(s: string): (r: Option<(seq<nat>, string)>)
    ensures r.Some? ==> |r.value.1| < |s| && r.value.0 != []
  {
    match Parsing.Tag(s, "Starting items: ")
    case None => None
    case Some(s1) =>
      match ParseNats(s1)
      case None => None
      case Some((items, s2)) =>
        match Parsing.Multispace1(s2)
        case None => None
        case Some(s3) => Some((items, s3))
  }

  /** `monkey`: the header, the starting items, the operation and the test; the
      inspection count starts at 0. */
  function ParseMonkey(s: string): (r: Option<(MonkeyState, string)>)
    ensures r.Some? ==> |r.value.1| < |s|
  {
    match ParseHeader(s)
    case None => None
    case Some(s1) =>
      match ParseItems(s1)
      case None => None
      case Some((items, s2)) =>
        match ParseOperation(s2)
        case None => None
        case Some((op, s3)) =>
          match Parsing.Multispace1(s3)
          case None => None
          case Some(s4) =>
            match ParseTest(s4)
            case None => None
            case Some((test, s5)) => Some((MonkeyState(items, op, test, 0), s5))
  }

  /** `separated_list1(tag("\n\n"), monkey)`. */
  function ParseMonkeys(s: string): Option<(seq<MonkeyState>, string)> {
    match ParseMonkey(s)
    case None => None
    case Some((m, rest)) =>
      var (more, rest') := MoreMonkeys(rest);
      Some(([m] + more, rest'))
  }

  function MoreMonkeys(t: string): (r: (seq<MonkeyState>, string))
    decreases |t|
  {
    if "\n\n" <= t then
      match ParseMonkey(t[2..])
      case None => ([], t)
      case Some((m, rest)) =>
        var more := MoreMonkeys(rest);
        ([m] + more.0, more.1)
    else ([], t)
  }

  // ---------------------------------------------------------------------------
  // The notes written out in the layout of the puzzle input. Each writer puts its text
  // in front of what follows it, `rest`.

  function WriteValue(v: Value, rest: string): string {
    match v
    case Old => "old" + rest
    case Num(n) => Parsing.Show(n) + rest
  }

  function WriteOperation(op: Operation, rest: string): string {
    var (a, o, b) := match op case Mul(a, b) => (a, "*", b) case Add(a, b) => (a, "+", b);
    "Operation: new = " + WriteValue(a, " " + (o + (" " + WriteValue(b, rest))))
  }

  function WriteTest(t: Test, rest: string): string {
    "Test: divisible by " + (Parsing.Show(t.divisible)
    + ("\n    " + ("If true: throw to monkey " + (Parsing.Show(t.trueRecipient)
    + ("\n    " + ("If false: throw to monkey " + (Parsing.Show(t.falseRecipient) + rest)))))))
  }

  /** The numbers with ", " between neighbours. */
  function WriteNats(ns: seq<nat>, rest: string): string
    requires ns != []
  {
    if |ns| == 1 then Parsing.Show(ns[0]) + rest
    else Parsing.Show(ns[0]) + (", " + WriteNats(ns[1..], rest))
  }

  /** Monkey number `id`, as the notes print it. */
  function WriteMonkey(id: nat, m: MonkeyState, rest: string): string
    requires m.items != []
  {
    "Monkey " + (Parsing.Show(id) + (":" + ("\n  " + ("Starting items: "
    + WriteNats(m.items, "\n  " + WriteOperation(m.operation, "\n  " + WriteTest(m.test, rest)))))))
  }

  /** Monkeys numbered from `id` on, separated by blank lines. */
  function WriteMonkeys(ms: seq<MonkeyState>, id: nat, rest: string): string
    requires ms != [] && forall i :: 0 <= i < |ms| ==> ms[i].items != []
    decreases |ms|
  {
    if |ms| == 1 then WriteMonkey(id, ms[0], rest)
    else WriteMonkey(id, ms[0], "\n\n" + WriteMonkeys(ms[1..], id + 1, rest))
  }

  // ---------------------------------------------------------------------------
  // Round trip: the grammar reads back what the writers produce.

  /** What may follow a number without being read as part of it. */
  predicate NoDigit(rest: string) {
    rest == [] || !Parsing.IsDigit(rest[0])
  }

  lemma TagOf(t: string, rest: string)
    ensures Parsing.Tag(t + rest, t) == Some(rest)
  {
    assert (t + rest)[..|t|] == t;
    assert (t + rest)[|t|..] == rest;
  }

  lemma FieldShow(t: string, n: nat, rest: string)
    requires NoDigit(rest)
    ensures Field(t + (Parsing.Show(n) + rest), t) == Some((n, rest))
  {
    TagOf(t, Parsing.Show(n) + rest);
    Parsing.ParseNatShow(n, rest);
  }

  lemma ValueShow(v: Value, rest: string)
    requires NoDigit(rest)
    ensures ParseValue(WriteValue(v, rest)) == Some((v, rest))
  {
    match v
    case Old => TagOf("old", rest);
    case Num(n) =>
      var s := Parsing.Show(n) + rest;
      assert s[0] == Parsing.Show(n)[0];
      assert Parsing.Tag(s, "old") == None;
      Parsing.ParseNatShow(n, rest);
  }

  lemma OperationShow(op: Operation, rest: string)
    requires NoDigit(rest)
    ensures ParseOperation(WriteOperation(op, rest)) == Some((op, rest))
  {
    var (a, o, b) := match op case Mul(a, b) => (a, "*", b) case Add(a, b) => (a, "+", b);
    var s5 := WriteValue(b, rest);
    var s4 := " " + s5;
    var s3 := o + s4;
    var s2 := " " + s3;
    TagOf("Operation: new = ", WriteValue(a, s2));
    ValueShow(a, s2);
    Parsing.Multispace1Of(" ", s3);
    assert ParseOperator(s3) == Some((o[0], s4));
    Parsing.Multispace1Of(" ", s5);
    ValueShow(b, rest);
  }

  lemma TestShow(t: Test, rest: string)
    requires NoDigit(rest)
    ensures ParseTest(WriteTest(t, rest)) == Some((t, rest))
  {
    var s3 := Parsing.Show(t.falseRecipient) + rest;
    var s2 := "\n    " + ("If false: throw to monkey " + s3);
    var s1 := "\n    " + ("If true: throw to monkey " + (Parsing.Show(t.trueRecipient) + s2));
    FieldShow("Test: divisible by ", t.divisible, s1);
    Indent("\n    ", "If true: throw to monkey " + (Parsing.Show(t.trueRecipient) + s2));
    Indent("\n    ", "If false: throw to monkey " + s3);
    FieldShow("If true: throw to monkey ", t.trueRecipient, s2);
    FieldShow("If false: throw to monkey ", t.falseRecipient, rest);
  }

  /** What may follow the last item without being read as more items. */
  predicate EndsNats(rest: string) {
    NoDigit(rest) && !(", " <= rest)
  }

  lemma {:induction false} MoreNatsShow(ns: seq<nat>, rest: string)
    requires ns != [] && EndsNats(rest)
    ensures MoreNats(", " + WriteNats(ns, rest)) == (ns, rest)
    decreases |ns|
  {
    var t := ", " + WriteNats(ns, rest);
    var tail := if |ns| == 1 then rest else ", " + WriteNats(ns[1..], rest);
    assert WriteNats(ns, rest) == Parsing.Show(ns[0]) + tail;
    TagOf(", ", WriteNats(ns, rest));
    Parsing.ParseNatShow(ns[0], tail);
    if |ns| == 1 {
      assert MoreNats(t) == ([ns[0]] + MoreNats(rest).0, MoreNats(rest).1);
      assert MoreNats(rest) == ([], rest);
      assert [ns[0]] + [] == ns;
    } else {
      MoreNatsShow(ns[1..], rest);
      assert MoreNats(t) == ([ns[0]] + ns[1..], rest);
      Uncons(ns);
    }
  }

  lemma Uncons<T>(s: seq<T>)
    requires s != []
    ensures [s[0]] + s[1..] == s
  {
  }

  lemma NatsShow(ns: seq<nat>, rest: string)
    requires ns != [] && EndsNats(rest)
    ensures ParseNats(WriteNats(ns, rest)) == Some((ns, rest))
  {
    var tail := if |ns| == 1 then rest else ", " + WriteNats(ns[1..], rest);
    assert WriteNats(ns, rest) == Parsing.Show(ns[0]) + tail;
    Parsing.ParseNatShow(ns[0], tail);
    if |ns| == 1 {
      assert MoreNats(rest) == ([], rest);
      assert [ns[0]] + [] == ns;
    } else {
      MoreNatsShow(ns[1..], rest);
      Uncons(ns);
    }
  }

  /** A line break and an indentation before a non-blank: skipped by `multispace1`, and
      no continuation of a number or of a list of numbers. */
  lemma Indent(ws: string, rest: string)
    requires ws == "\n  " || ws == "\n    " || ws == " "
    requires rest != [] && !Parsing.IsMultispace(rest[0])
    ensures Parsing.Multispace1(ws + rest) == Some(rest)
    ensures EndsNats(ws + rest) && NoDigit(ws + rest) && (ws + rest)[0] == ws[0]
  {
    Parsing.Multispace1Of(ws, rest);
  }

  lemma HeaderShow(id: nat, rest: string)
    requires rest != [] && !Parsing.IsMultispace(rest[0])
    ensures ParseHeader("Monkey " + (Parsing.Show(id) + (":" + ("\n  " + rest)))) == Some(rest)
  {
    FieldShow("Monkey ", id, ":" + ("\n  " + rest));
    TagOf(":", "\n  " + rest);
    Indent("\n  ", rest);
  }

  lemma ItemsShow(ns: seq<nat>, rest: string)
    requires ns != [] && rest != [] && !Parsing.IsMultispace(rest[0])
    ensures ParseItems("Starting items: " + WriteNats(ns, "\n  " + rest)) == Some((ns, rest))
  {
    TagOf("Starting items: ", WriteNats(ns, "\n  " + rest));
    Indent("\n  ", rest);
    NatsShow(ns, "\n  " + rest);
  }

  /** A monkey's notes are read back when no digit follows them; the number in the
      header is not kept. */
  lemma MonkeyShow(id: nat, m: MonkeyState, rest: string)
    requires m.items != [] && m.touchCount == 0 && NoDigit(rest)
    ensures ParseMonkey(WriteMonkey(id, m, rest)) == Some((m, rest))
  {
    var s5 := WriteTest(m.test, rest);
    var s3 := "\n  " + s5;
    var s2 := WriteOperation(m.operation, s3);
    var s1 := "Starting items: " + WriteNats(m.items, "\n  " + s2);
    BodyShow(m.operation, m.test, rest);
    OpeningShow(id, m.items, s2);
    MonkeyStep(WriteMonkey(id, m, rest), s1, m.items, s2, m.operation, s3, s5, m.test, rest);
  }

  /** The header and the starting items, before an operation line. */
  lemma OpeningShow(id: nat, items: seq<nat>, s2: string)
    requires items != [] && s2 != [] && s2[0] == 'O'
    ensures var s1 := "Starting items: " + WriteNats(items, "\n  " + s2);
      ParseHeader("Monkey " + (Parsing.Show(id) + (":" + ("\n  " + s1)))) == Some(s1)
      && ParseItems(s1) == Some((items, s2))
  {
    var s1 := "Starting items: " + WriteNats(items, "\n  " + s2);
    assert s1[0] == 'S';
    HeaderShow(id, s1);
    ItemsShow(items, s2);
  }

  /** The operation line and the test lines. */
  lemma BodyShow(op: Operation, test: Test, rest: string)
    requires NoDigit(rest)
    ensures var s5 := WriteTest(test, rest); var s3 := "\n  " + s5;
      var s2 := WriteOperation(op, s3);
      s2 != [] && s2[0] == 'O' && ParseOperation(s2) == Some((op, s3))
      && Parsing.Multispace1(s3) == Some(s5) && ParseTest(s5) == Some((test, rest))
  {
    var s5 := WriteTest(test, rest);
    var s3 := "\n  " + s5;
    assert s5[0] == 'T';
    Indent("\n  ", s5);
    OperationShow(op, s3);
    TestShow(test, rest);
  }

  /** `monkey` put together from its parts' results. */
  lemma MonkeyStep(s: string, s1: string, items: seq<nat>, s2: string, op: Operation,
                   s3: string, s4: string, test: Test, s5: string)
    requires ParseHeader(s) == Some(s1) && ParseItems(s1) == Some((items, s2))
    requires ParseOperation(s2) == Some((op, s3)) && Parsing.Multispace1(s3) == Some(s4)
    requires ParseTest(s4) == Some((test, s5))
    ensures ParseMonkey(s) == Some((MonkeyState(items, op, test, 0), s5))
  {
  }

  /** What may follow the last monkey without being read as more notes. */
  predicate EndsMonkeys(rest: string) {
    NoDigit(rest) && !("\n\n" <= rest)
  }

  /** Notes that the writers can print and the grammar reads: at least one monkey, each
      with at least one item and no inspections yet. */
  predicate Printable(ms: seq<MonkeyState>) {
    ms != [] && forall i :: 0 <= i < |ms| ==> ms[i].items != [] && ms[i].touchCount == 0
  }

  lemma {:induction false} MoreMonkeysShow(ms: seq<MonkeyState>, id: nat, rest: string)
    requires Printable(ms) && EndsMonkeys(rest)
    ensures MoreMonkeys("\n\n" + WriteMonkeys(ms, id, rest)) == (ms, rest)
    decreases |ms|
  {
    MoreMonkeysHead(ms, id, rest);
    if |ms| == 1 {
      NoMoreMonkeys(rest);
      Single(ms);
    } else {
      PrintableTail(ms);
      MoreMonkeysShow(ms[1..], id + 1, rest);
      Uncons(ms);
    }
  }

  /** After a blank line, the first printed monkey is read and the rest are left to
      `MoreMonkeys`. */
  lemma MoreMonkeysHead(ms: seq<MonkeyState>, id: nat, rest: string)
    requires Printable(ms) && EndsMonkeys(rest)
    ensures var tail := if |ms| == 1 then rest else "\n\n" + WriteMonkeys(ms[1..], id + 1, rest);
      MoreMonkeys("\n\n" + WriteMonkeys(ms, id, rest))
      == ([ms[0]] + MoreMonkeys(tail).0, MoreMonkeys(tail).1)
  {
    var w := WriteMonkeys(ms, id, rest);
    var tail := if |ms| == 1 then rest else "\n\n" + WriteMonkeys(ms[1..], id + 1, rest);
    FirstMonkey(ms, id, rest);
    BlankLine(w);
    MoreMonkeysStep("\n\n" + w, ms[0], tail);
  }

  /** The first monkey of printed notes is read back, up to the blank line. */
  lemma FirstMonkey(ms: seq<MonkeyState>, id: nat, rest: string)
    requires Printable(ms) && EndsMonkeys(rest)
    ensures var tail := if |ms| == 1 then rest else "\n\n" + WriteMonkeys(ms[1..], id + 1, rest);
      ParseMonkey(WriteMonkeys(ms, id, rest)) == Some((ms[0], tail))
  {
    var tail := if |ms| == 1 then rest else "\n\n" + WriteMonkeys(ms[1..], id + 1, rest);
    assert WriteMonkeys(ms, id, rest) == WriteMonkey(id, ms[0], tail);
    MonkeyShow(id, ms[0], tail);
  }

  lemma Single<T>(s: seq<T>)
    requires |s| == 1
    ensures [s[0]] + [] == s
  {
  }

  lemma PrintableTail(ms: seq<MonkeyState>)
    requires Printable(ms) && |ms| > 1
    ensures Printable(ms[1..])
  {
    var tl := ms[1..];
    assert forall i :: 0 <= i < |tl| ==> tl[i] == ms[i + 1];
  }

  lemma NoMoreMonkeys(rest: string)
    requires !("\n\n" <= rest)
    ensures MoreMonkeys(rest) == ([], rest)
  {
  }

  /** After a blank line and a monkey, the remaining ones are read by `MoreMonkeys` again. */
  lemma MoreMonkeysStep(t: string, m: MonkeyState, rest: string)
    requires "\n\n" <= t && ParseMonkey(t[2..]) == Some((m, rest))
    ensures MoreMonkeys(t) == ([m] + MoreMonkeys(rest).0, MoreMonkeys(rest).1)
  {
  }

  lemma BlankLine(w: string)
    ensures "\n\n" <= "\n\n" + w && ("\n\n" + w)[2..] == w
  {
  }

  lemma FirstMonkeyStep(t: string, m: MonkeyState, rest: string)
    requires ParseMonkey(t) == Some((m, rest))
    ensures ParseMonkeys(t) == Some(([m] + MoreMonkeys(rest).0, MoreMonkeys(rest).1))
  {
  }

  /** The grammar reads back the notes of any monkeys numbered from `id` on. */
  lemma MonkeysShow(ms: seq<MonkeyState>, id: nat, rest: string)
    requires Printable(ms) && EndsMonkeys(rest)
    ensures ParseMonkeys(WriteMonkeys(ms, id, rest)) == Some((ms, rest))
  {
    var tail := if |ms| == 1 then rest else "\n\n" + WriteMonkeys(ms[1..], id + 1, rest);
    FirstMonkey(ms, id, rest);
    FirstMonkeyStep(WriteMonkeys(ms, id, rest), ms[0], tail);
    if |ms| == 1 {
      NoMoreMonkeys(rest);
      Single(ms);
    } else {
      PrintableTail(ms);
      MoreMonkeysShow(ms[1..], id + 1, rest);
      Uncons(ms);
    }
  }

  // ---------------------------------------------------------------------------
  // One inspection, as a function of the monkeys' states.

  function Operand(v: Value, item: nat): nat {
    match v
    case Old => item
    case Num(n) => n
  }

  /** The new worry level before any reduction; only the right operand takes part. */
  function Combine(op: Operation, item: nat): nat {
    match op
    case Mul(_, b) => item * Operand(b, item)
    case Add(_, b) => item + Operand(b, item)
  }

  /** What `inspect` returns: the combined level modulo `magic`, divided by 3 with relief.
      The source always reduces (`Some`); `None` is the unreduced level, the reference
      against which the reduction is justified. */
  function Worry(op: Operation, item: nat, relief: bool, magic: Option<nat>): (w: nat)
    requires magic.Some? ==> magic.value > 0
    ensures magic.Some? && !relief ==> w < magic.value
    ensures magic.Some? && relief ==> 3 * w < magic.value
    ensures magic.None? && !relief ==> w == Combine(op, item)
  {
    var level := match magic case None => Combine(op, item) case Some(m) => Combine(op, item) % m;
    if relief then level / 3 else level
  }

  /** `test`: the true recipient exactly when the level is divisible. */
  function Recipient(t: Test, w: nat): (to: nat)
    requires t.divisible > 0
    ensures to == t.trueRecipient || to == t.falseRecipient
    ensures w % t.divisible == 0 ==> to == t.trueRecipient
    ensures w % t.divisible != 0 ==> to == t.falseRecipient
  {
    if w % t.divisible == 0 then t.trueRecipient else t.falseRecipient
  }

  /** A test the simulation can run: a divisor that is not 0, recipients that exist. */
  predicate ValidTest(t: Test, n: nat) {
    t.divisible > 0 && t.trueRecipient < n && t.falseRecipient < n
  }

  /** What the simulation never changes: each monkey's operation and test. */
  function Shape(ms: seq<MonkeyState>): (r: seq<(Operation, Test)>)
    ensures |r| == |ms|
    ensures forall i {:trigger r[i]} :: 0 <= i < |ms| ==> r[i] == (ms[i].operation, ms[i].test)
  {
    seq(|ms|, i requires 0 <= i < |ms| => (ms[i].operation, ms[i].test))
  }

  predicate ValidShape(sh: seq<(Operation, Test)>) {
    forall i :: 0 <= i < |sh| ==> ValidTest(sh[i].1, |sh|)
  }

  /** Monkeys whose tests the simulation can run. */
  predicate Valid(ms: seq<MonkeyState>) {
    ValidShape(Shape(ms))
  }

  lemma ValidAt(ms: seq<MonkeyState>, k: nat)
    requires Valid(ms) && k < |ms|
    ensures ValidTest(ms[k].test, |ms|)
  {
    assert Shape(ms)[k] == (ms[k].operation, ms[k].test);
  }

  /** The same monkeys apart from their queues and counts. */
  predicate SameShape(a: seq<MonkeyState>, b: seq<MonkeyState>) {
    Shape(a) == Shape(b)
  }

  /** The front item of a queue, after `inspect`, counted and gone. */
  function Inspected(m: MonkeyState): MonkeyState
    requires m.items != []
  {
    m.(items := m.items[1..], touchCount := m.touchCount + 1)
  }

  function Caught(m: MonkeyState, w: nat): MonkeyState {
    m.(items := m.items + [w])
  }

  /** One pass of the innermost loop of `part1`/`part2`: monkey `k` inspects its front item
      and throws it to the back of its recipient's queue. */
  function ThrowOne(ms: seq<MonkeyState>, k: nat, relief: bool, magic: Option<nat>)
    : (r: seq<MonkeyState>)
    requires Valid(ms) && k < |ms| && ms[k].items != []
    requires magic.Some? ==> magic.value > 0
    ensures Shape(r) == Shape(ms)
    ensures |r[k].items| + 1 >= |ms[k].items|
  {
    var m := ms[k];
    var w := Worry(m.operation, m.items[0], relief, magic);
    ValidAt(ms, k);
    var to := Recipient(m.test, w);
    var ms1 := ms[k := Inspected(m)];
    var r := ms1[to := Caught(ms1[to], w)];
    assert Shape(r) == Shape(ms) by {
      forall i | 0 <= i < |ms| ensures Shape(r)[i] == Shape(ms)[i] {
      }
    }
    r
  }

  /** `count` inspections by monkey `k`. */
  function Throws(ms: seq<MonkeyState>, k: nat, count: nat, relief: bool, magic: Option<nat>)
    : (r: seq<MonkeyState>)
    requires Valid(ms) && k < |ms| && count <= |ms[k].items|
    requires magic.Some? ==> magic.value > 0
    ensures Shape(r) == Shape(ms)
    decreases count
  {
    if count == 0 then ms
    else
      Throws(ThrowOne(ms, k, relief, magic), k, count - 1, relief, magic)
  }

  /** Monkey `k`'s turn: as many inspections as it holds items when the turn begins. */
  function Turn(ms: seq<MonkeyState>, k: nat, relief: bool, magic: Option<nat>): (r: seq<MonkeyState>)
    requires Valid(ms) && k < |ms|
    requires magic.Some? ==> magic.value > 0
    ensures Shape(r) == Shape(ms)
  {
    Throws(ms, k, |ms[k].items|, relief, magic)
  }

  /** The turns of monkeys `k`, `k + 1`, ... in order. */
  function TurnsFrom(ms: seq<MonkeyState>, k: nat, relief: bool, magic: Option<nat>)
    : (r: seq<MonkeyState>)
    requires Valid(ms) && k <= |ms|
    requires magic.Some? ==> magic.value > 0
    ensures Shape(r) == Shape(ms)
    decreases |ms| - k
  {
    if k == |ms| then ms
    else
      TurnsFrom(Turn(ms, k, relief, magic), k + 1, relief, magic)
  }

  function Round(ms: seq<MonkeyState>, relief: bool, magic: Option<nat>): (r: seq<MonkeyState>)
    requires Valid(ms)
    requires magic.Some? ==> magic.value > 0
    ensures Shape(r) == Shape(ms)
  {
    TurnsFrom(ms, 0, relief, magic)
  }

  function Rounds(ms: seq<MonkeyState>, n: nat, relief: bool, magic: Option<nat>)
    : (r: seq<MonkeyState>)
    requires Valid(ms)
    requires magic.Some? ==> magic.value > 0
    ensures Shape(r) == Shape(ms)
    decreases n
  {
    if n == 0 then ms
    else
      Rounds(Round(ms, relief, magic), n - 1, relief, magic)
  }
  lemma ThrowsUnfold(ms: seq<MonkeyState>, k: nat, count: nat, relief: bool, magic: Option<nat>)
    requires Valid(ms) && k < |ms| && 0 < count <= |ms[k].items|
    requires magic.Some? ==> magic.value > 0
    ensures var next := ThrowOne(ms, k, relief, magic);
      count - 1 <= |next[k].items| &&
      Throws(ms, k, count, relief, magic) == Throws(next, k, count - 1, relief, magic)
  {
  }

  // ---------------------------------------------------------------------------
  // Conservation: throwing moves items, it never creates or loses one.

  /** The number of items held by all the monkeys together. */
  function ItemCount(ms: seq<MonkeyState>): nat {
    if ms == [] then 0 else |ms[0].items| + ItemCount(ms[1..])
  }

  lemma {:induction false} ItemCountUpdate(ms: seq<MonkeyState>, k: nat, x: MonkeyState)
    requires k < |ms|
    ensures ItemCount(ms[k := x]) + |ms[k].items| == ItemCount(ms) + |x.items|
  {
    if k > 0 {
      assert ms[k := x][1..] == ms[1..][k - 1 := x];
      ItemCountUpdate(ms[1..], k - 1, x);
    }
  }

  /** An inspection and its throw leave the number of items unchanged. */
  lemma ThrowOneKeepsItems(ms: seq<MonkeyState>, k: nat, relief: bool, magic: Option<nat>)
    requires Valid(ms) && k < |ms| && ms[k].items != []
    requires magic.Some? ==> magic.value > 0
    ensures ItemCount(ThrowOne(ms, k, relief, magic)) == ItemCount(ms)
  {
    var m := ms[k];
    var w := Worry(m.operation, m.items[0], relief, magic);
    ValidAt(ms, k);
    var to := Recipient(m.test, w);
    var ms1 := ms[k := Inspected(m)];
    ItemCountUpdate(ms, k, Inspected(m));
    ItemCountUpdate(ms1, to, Caught(ms1[to], w));
  }

  lemma {:induction false} ThrowsKeepItems(ms: seq<MonkeyState>, k: nat, count: nat, relief: bool,
                                          magic: Option<nat>)
    requires Valid(ms) && k < |ms| && count <= |ms[k].items|
    requires magic.Some? ==> magic.value > 0
    ensures ItemCount(Throws(ms, k, count, relief, magic)) == ItemCount(ms)
    decreases count
  {
    if count > 0 {
      ThrowOneKeepsItems(ms, k, relief, magic);
      ThrowsKeepItems(ThrowOne(ms, k, relief, magic), k, count - 1, relief, magic);
    }
  }

  lemma {:induction false} TurnsKeepItems(ms: seq<MonkeyState>, k: nat, relief: bool, magic: Option<nat>)
    requires Valid(ms) && k <= |ms|
    requires magic.Some? ==> magic.value > 0
    ensures ItemCount(TurnsFrom(ms, k, relief, magic)) == ItemCount(ms)
    decreases |ms| - k
  {
    if k < |ms| {
      ThrowsKeepItems(ms, k, |ms[k].items|, relief, magic);
      TurnsKeepItems(Turn(ms, k, relief, magic), k + 1, relief, magic);
    }
  }

  /** However many rounds are played, the monkeys hold as many items as at the start. */
  lemma {:induction false} RoundsKeepItems(ms: seq<MonkeyState>, n: nat, relief: bool, magic: Option<nat>)
    requires Valid(ms)
    requires magic.Some? ==> magic.value > 0
    ensures ItemCount(Rounds(ms, n, relief, magic)) == ItemCount(ms)
    decreases n
  {
    if n > 0 {
      TurnsKeepItems(ms, 0, relief, magic);
      RoundsKeepItems(Round(ms, relief, magic), n - 1, relief, magic);
    }
  }

  // ---------------------------------------------------------------------------
  // Inspection counts.

  /** An inspection counts once, for the inspecting monkey only. */
  lemma ThrowOneCounts(ms: seq<MonkeyState>, k: nat, relief: bool, magic: Option<nat>)
    requires Valid(ms) && k < |ms| && ms[k].items != []
    requires magic.Some? ==> magic.value > 0
    ensures var r := ThrowOne(ms, k, relief, magic);
      forall i :: 0 <= i < |ms| ==>
        r[i].touchCount == ms[i].touchCount + (if i == k then 1 else 0)
  {
  }

  lemma {:induction false} ThrowsCount(ms: seq<MonkeyState>, k: nat, count: nat, relief: bool,
                                      magic: Option<nat>)
    requires Valid(ms) && k < |ms| && count <= |ms[k].items|
    requires magic.Some? ==> magic.value > 0
    ensures var r := Throws(ms, k, count, relief, magic);
      forall i :: 0 <= i < |ms| ==>
        r[i].touchCount == ms[i].touchCount + (if i == k then count else 0)
    decreases count
  {
    if count > 0 {
      var next := ThrowOne(ms, k, relief, magic);
      ThrowOneCounts(ms, k, relief, magic);
      ThrowsCount(next, k, count - 1, relief, magic);
    }
  }

  /** In its turn a monkey inspects exactly the items it held when the turn began; no
      other monkey's count moves. */
  lemma TurnCounts(ms: seq<MonkeyState>, k: nat, relief: bool, magic: Option<nat>)
    requires Valid(ms) && k < |ms|
    requires magic.Some? ==> magic.value > 0
    ensures var r := Turn(ms, k, relief, magic);
      r[k].touchCount == ms[k].touchCount + |ms[k].items|
      && forall i :: 0 <= i < |ms| && i != k ==> r[i].touchCount == ms[i].touchCount
  {
    ThrowsCount(ms, k, |ms[k].items|, relief, magic);
  }

  // ---------------------------------------------------------------------------
  // Arithmetic modulo the divisors' product.

  lemma MulMonotone(m: nat, a: int, b: int)
    requires a <= b
    ensures m * a <= m * b
  {
    var d := b - a;
    assert m * b == m * a + m * d;
    assert m * d >= 0;
  }

  /** Division with remainder has only one answer. */
  lemma ModUnique(y: int, m: int, q: int, r: int)
    requires m > 0 && y == m * q + r && 0 <= r < m
    ensures y % m == r
  {
    var q', r' := y / m, y % m;
    assert y == m * q' + r';
    if q' > q {
      MulMonotone(m, q + 1, q');
      assert false;
    } else if q' < q {
      MulMonotone(m, q' + 1, q);
      assert false;
    }
  }

  lemma ModShift(m: nat, k: nat, r: nat)
    requires m > 0
    ensures (m * k + r) % m == r % m
  {
    var q := r / m;
    assert m * k + r == m * (k + q) + r % m;
    ModUnique(m * k + r, m, k + q, r % m);
  }

  lemma MulMod(a: nat, b: nat, m: nat)
    requires m > 0
    ensures (a * b) % m == ((a % m) * (b % m)) % m
  {
    MulModLeft(a, b, m);
    MulModLeft(b, a % m, m);
    assert b * (a % m) == (a % m) * b;
    assert (b % m) * (a % m) == (a % m) * (b % m);
  }

  /** The left factor may be reduced first. */
  lemma MulModLeft(a: nat, b: nat, m: nat)
    requires m > 0
    ensures (a * b) % m == ((a % m) * b) % m
  {
    var q, r := a / m, a % m;
    assert a == m * q + r;
    Distribute(m * q, r, b);
    assert (m * q) * b == m * (q * b);
    ModShift(m, q * b, r * b);
  }

  lemma Distribute(x: nat, y: nat, b: nat)
    ensures (x + y) * b == x * b + y * b
  {
  }

  lemma AddMod(a: nat, b: nat, m: nat)
    requires m > 0
    ensures (a + b) % m == ((a % m) + (b % m)) % m
  {
    assert a + b == m * (a / m + b / m) + (a % m + b % m);
    ModShift(m, a / m + b / m, a % m + b % m);
  }

  /** Reducing modulo a multiple of `d` keeps the remainder modulo `d`. */
  lemma ModOfMultiple(c: nat, m: nat, d: nat)
    requires d > 0 && m > 0 && m % d == 0
    ensures (c % m) % d == c % d
  {
    var e, q, r := m / d, c / m, c % m;
    assert m == d * e;
    assert c == m * q + r;
    assert m * q == d * (e * q) by {
      assert (d * e) * q == d * (e * q);
    }
    ModShift(d, e * q, r);
  }

  /** Levels that agree modulo `m` still agree after the operation. */
  lemma CombineCongruent(op: Operation, x: nat, y: nat, m: nat)
    requires m > 0 && x % m == y % m
    ensures Combine(op, x) % m == Combine(op, y) % m
  {
    match op
    case Mul(_, b) =>
      MulMod(x, Operand(b, x), m);
      MulMod(y, Operand(b, y), m);
    case Add(_, b) =>
      AddMod(x, Operand(b, x), m);
      AddMod(y, Operand(b, y), m);
  }

  /** Divisors that are not 0. */
  predicate Positive(ms: seq<MonkeyState>) {
    forall i :: 0 <= i < |ms| ==> Shape(ms)[i].1.divisible > 0
  }

  lemma PositiveInit(ms: seq<MonkeyState>)
    requires Positive(ms) && ms != []
    ensures Positive(ms[..|ms| - 1]) && ms[|ms| - 1].test.divisible > 0
  {
    var init := ms[..|ms| - 1];
    forall i | 0 <= i < |init| ensures Shape(init)[i].1.divisible > 0 {
      assert Shape(init)[i] == (init[i].operation, init[i].test);
      assert init[i] == ms[i];
      assert Shape(ms)[i] == (ms[i].operation, ms[i].test);
    }
    assert Shape(ms)[|ms| - 1] == (ms[|ms| - 1].operation, ms[|ms| - 1].test);
  }

  /** The product of all the divisors: `magic_trick`. */
  function Magic(ms: seq<MonkeyState>): (m: nat)
    ensures Positive(ms) ==> m > 0
  {
    if ms == [] then 1
    else
      var init := ms[..|ms| - 1];
      assert Positive(ms) ==> Positive(init) && ms[|ms| - 1].test.divisible > 0 by {
        if Positive(ms) {
          PositiveInit(ms);
        }
      }
      Magic(init) * ms[|ms| - 1].test.divisible
  }

  /** Every divisor divides `m`, and `m` is not 0. */
  predicate Fits(ms: seq<MonkeyState>, m: nat) {
    m > 0 && Divides(Shape(ms), m)
  }

  predicate Divides(sh: seq<(Operation, Test)>, m: nat) {
    forall i :: 0 <= i < |sh| ==> sh[i].1.divisible > 0 && m % sh[i].1.divisible == 0
  }

  lemma FitsAt(ms: seq<MonkeyState>, m: nat, k: nat)
    requires Fits(ms, m) && k < |ms|
    ensures ms[k].test.divisible > 0 && m % ms[k].test.divisible == 0
  {
    assert Shape(ms)[k] == (ms[k].operation, ms[k].test);
  }

  lemma MultipleOfMultiple(a: nat, b: nat, d: nat)
    requires d > 0 && a % d == 0
    ensures (a * b) % d == 0
  {
    assert a * b == d * ((a / d) * b);
    ModShift(d, (a / d) * b, 0);
  }

  /** `magic_trick` is a common multiple of the divisors. */
  lemma {:induction false} MagicFits(ms: seq<MonkeyState>)
    requires Positive(ms)
    ensures Fits(ms, Magic(ms))
    decreases |ms|
  {
    if ms != [] {
      var init := ms[..|ms| - 1];
      var d := ms[|ms| - 1].test.divisible;
      assert forall i :: 0 <= i < |init| ==> init[i] == ms[i];
      PositiveInit(ms);
      MagicFits(init);
      assert Magic(ms) == Magic(init) * d;
      forall i | 0 <= i < |ms|
        ensures Shape(ms)[i].1.divisible > 0 && Magic(ms) % Shape(ms)[i].1.divisible == 0
      {
        assert Shape(ms)[i].1 == ms[i].test;
        if i < |ms| - 1 {
          FitsAt(init, Magic(init), i);
          MultipleOfMultiple(Magic(init), d, ms[i].test.divisible);
        } else {
          assert Magic(init) * d == d * Magic(init);
          ModShift(d, Magic(init), 0);
        }
      }
    }
  }

  // ---------------------------------------------------------------------------
  // Without relief, reducing modulo a common multiple of the divisors changes no
  // throw: the reduced and the unreduced simulation stay congruent item by item.

  function ReduceItems(items: seq<nat>, m: nat): (r: seq<nat>)
    requires m > 0
    ensures |r| == |items| && forall j :: 0 <= j < |items| ==> r[j] == items[j] % m
  {
    seq(|items|, j requires 0 <= j < |items| => items[j] % m)
  }

  /** A monkey with its worry levels taken modulo `m`. */
  function Reduce(x: MonkeyState, m: nat): MonkeyState
    requires m > 0
  {
    x.(items := ReduceItems(x.items, m))
  }

  function ReduceAll(ms: seq<MonkeyState>, m: nat): (r: seq<MonkeyState>)
    requires m > 0
    ensures |r| == |ms| && forall i :: 0 <= i < |ms| ==> r[i] == Reduce(ms[i], m)
  {
    seq(|ms|, i requires 0 <= i < |ms| => Reduce(ms[i], m))
  }

  /** Two simulation states that differ only in worry levels, which agree modulo `m`. */
  predicate Congruent(a: seq<MonkeyState>, b: seq<MonkeyState>, m: nat)
    requires m > 0
  {
    ReduceAll(a, m) == ReduceAll(b, m)
  }

  /** What agreeing modulo `m` means for one monkey. */
  lemma ReduceSame(x: MonkeyState, y: MonkeyState, m: nat)
    requires m > 0 && Reduce(x, m) == Reduce(y, m)
    ensures x.operation == y.operation && x.test == y.test && x.touchCount == y.touchCount
    ensures |x.items| == |y.items|
    ensures forall j :: 0 <= j < |x.items| ==> x.items[j] % m == y.items[j] % m
  {
    assert ReduceItems(x.items, m) == Reduce(x, m).items;
    forall j | 0 <= j < |x.items| ensures x.items[j] % m == y.items[j] % m {
      assert ReduceItems(x.items, m)[j] == ReduceItems(y.items, m)[j];
    }
  }

  lemma CongruentAt(a: seq<MonkeyState>, b: seq<MonkeyState>, m: nat, i: nat)
    requires m > 0 && Congruent(a, b, m) && i < |a|
    ensures |a| == |b| && Reduce(a[i], m) == Reduce(b[i], m)
  {
    assert ReduceAll(a, m)[i] == ReduceAll(b, m)[i];
  }

  /** Reducing worry levels leaves the operations and tests alone. */
  lemma ShapeReduce(ms: seq<MonkeyState>, m: nat)
    requires m > 0
    ensures Shape(ReduceAll(ms, m)) == Shape(ms)
  {
    var r := ReduceAll(ms, m);
    forall i | 0 <= i < |ms| ensures Shape(r)[i] == Shape(ms)[i] {
      assert r[i] == Reduce(ms[i], m);
    }
  }

  lemma CongruentShape(a: seq<MonkeyState>, b: seq<MonkeyState>, m: nat)
    requires m > 0 && Congruent(a, b, m)
    ensures SameShape(a, b)
    ensures forall i :: 0 <= i < |a| ==> |a[i].items| == |b[i].items|
  {
    ShapeReduce(a, m);
    ShapeReduce(b, m);
    forall i | 0 <= i < |a| ensures |a[i].items| == |b[i].items| {
      CongruentAt(a, b, m, i);
      ReduceSame(a[i], b[i], m);
    }
  }

  lemma ReduceInspected(x: MonkeyState, y: MonkeyState, m: nat)
    requires m > 0 && Reduce(x, m) == Reduce(y, m) && x.items != []
    ensures y.items != [] && Reduce(Inspected(x), m) == Reduce(Inspected(y), m)
  {
    ReduceSame(x, y, m);
    var xs, ys := ReduceItems(x.items[1..], m), ReduceItems(y.items[1..], m);
    forall j | 0 <= j < |xs| ensures xs[j] == ys[j] {
      assert x.items[1..][j] == x.items[j + 1] && y.items[1..][j] == y.items[j + 1];
    }
    assert xs == ys;
  }

  lemma ReduceCaught(x: MonkeyState, y: MonkeyState, u: nat, v: nat, m: nat)
    requires m > 0 && Reduce(x, m) == Reduce(y, m) && u % m == v % m
    ensures Reduce(Caught(x, u), m) == Reduce(Caught(y, v), m)
  {
    ReduceSame(x, y, m);
    var xs, ys := ReduceItems(x.items + [u], m), ReduceItems(y.items + [v], m);
    forall j | 0 <= j < |xs| ensures xs[j] == ys[j] {
      if j < |x.items| {
        assert (x.items + [u])[j] == x.items[j] && (y.items + [v])[j] == y.items[j];
      }
    }
    assert xs == ys;
  }

  lemma CongruentUpdate(a: seq<MonkeyState>, b: seq<MonkeyState>, k: nat, x: MonkeyState,
                        y: MonkeyState, m: nat)
    requires m > 0 && Congruent(a, b, m) && k < |a| && Reduce(x, m) == Reduce(y, m)
    ensures Congruent(a[k := x], b[k := y], m)
  {
    var ra, rb := ReduceAll(a[k := x], m), ReduceAll(b[k := y], m);
    forall i | 0 <= i < |ra| ensures ra[i] == rb[i] {
      if i != k {
        CongruentAt(a, b, m, i);
      }
    }
    assert ra == rb;
  }

  /** The reduced level and the unreduced one agree modulo `m`, and so modulo every
      divisor of `m`. */
  lemma WorryCongruent(op: Operation, x: nat, y: nat, m: nat, d: nat)
    requires m > 0 && d > 0 && m % d == 0 && x % m == y % m
    ensures var u := Worry(op, x, false, Some(m)); var v := Worry(op, y, false, None);
      u % m == v % m && u % d == v % d
  {
    var cx, cy := Combine(op, x), Combine(op, y);
    CombineCongruent(op, x, y, m);
    ModUnique(cx % m, m, 0, cx % m);
    ModOfMultiple(cx, m, d);
    ModOfMultiple(cy, m, d);
  }

  lemma ThrowOneCongruent(a: seq<MonkeyState>, b: seq<MonkeyState>, k: nat, m: nat)
    requires Valid(a) && Valid(b) && Fits(a, m) && Congruent(a, b, m)
    requires k < |a| && a[k].items != [] && b[k].items != []
    ensures Congruent(ThrowOne(a, k, false, Some(m)), ThrowOne(b, k, false, None), m)
  {
    var x, y := a[k], b[k];
    CongruentAt(a, b, m, k);
    ReduceSame(x, y, m);
    var d := x.test.divisible;
    FitsAt(a, m, k);
    var u := Worry(x.operation, x.items[0], false, Some(m));
    var v := Worry(y.operation, y.items[0], false, None);
    WorryCongruent(x.operation, x.items[0], y.items[0], m, d);
    var to := Recipient(x.test, u);
    assert Recipient(y.test, v) == to;
    var a1, b1 := a[k := Inspected(x)], b[k := Inspected(y)];
    ReduceInspected(x, y, m);
    CongruentUpdate(a, b, k, Inspected(x), Inspected(y), m);
    ValidAt(a, k);
    CongruentAt(a1, b1, m, to);
    ReduceCaught(a1[to], b1[to], u, v, m);
    CongruentUpdate(a1, b1, to, Caught(a1[to], u), Caught(b1[to], v), m);
  }

  lemma {:induction false} ThrowsCongruent(a: seq<MonkeyState>, b: seq<MonkeyState>, k: nat,
                                          count: nat, m: nat)
    requires Valid(a) && Fits(a, m) && Congruent(a, b, m)
    requires k < |a| && count <= |a[k].items|
    ensures Valid(b) && count <= |b[k].items|
    ensures Congruent(Throws(a, k, count, false, Some(m)), Throws(b, k, count, false, None), m)
    decreases count
  {
    CongruentShape(a, b, m);
    if count > 0 {
      ThrowOneCongruent(a, b, k, m);
      ThrowsCongruent(ThrowOne(a, k, false, Some(m)), ThrowOne(b, k, false, None), k, count - 1, m);
    }
  }

  lemma {:induction false} TurnsCongruent(a: seq<MonkeyState>, b: seq<MonkeyState>, k: nat, m: nat)
    requires Valid(a) && Fits(a, m) && Congruent(a, b, m) && k <= |a|
    ensures Valid(b)
    ensures Congruent(TurnsFrom(a, k, false, Some(m)), TurnsFrom(b, k, false, None), m)
    decreases |a| - k
  {
    CongruentShape(a, b, m);
    if k < |a| {
      ThrowsCongruent(a, b, k, |a[k].items|, m);
      TurnsCongruent(Turn(a, k, false, Some(m)), Turn(b, k, false, None), k + 1, m);
    }
  }

  lemma {:induction false} RoundsCongruent(a: seq<MonkeyState>, b: seq<MonkeyState>, n: nat, m: nat)
    requires Valid(a) && Fits(a, m) && Congruent(a, b, m)
    ensures Valid(b)
    ensures Congruent(Rounds(a, n, false, Some(m)), Rounds(b, n, false, None), m)
    decreases n
  {
    CongruentShape(a, b, m);
    if n > 0 {
      TurnsCongruent(a, b, 0, m);
      RoundsCongruent(Round(a, false, Some(m)), Round(b, false, None), n - 1, m);
    }
  }

  /** The inspection counts, monkey by monkey. */
  function Touches(ms: seq<MonkeyState>): (cs: seq<nat>)
    ensures |cs| == |ms| && forall i :: 0 <= i < |ms| ==> cs[i] == ms[i].touchCount
  {
    seq(|ms|, i requires 0 <= i < |ms| => ms[i].touchCount)
  }

  /** Part 2's reduction is sound: after any number of unrelieved rounds, reducing
      modulo `magic_trick` leaves every inspection count as it would be with the full
      worry levels. */
  lemma ReductionKeepsCounts(ms: seq<MonkeyState>, n: nat)
    requires Valid(ms)
    ensures Magic(ms) > 0
    ensures Touches(Rounds(ms, n, false, Some(Magic(ms)))) == Touches(Rounds(ms, n, false, None))
  {
    MagicFits(ms);
    var m := Magic(ms);
    assert Congruent(ms, ms, m);
    RoundsCongruent(ms, ms, n, m);
    var a, b := Rounds(ms, n, false, Some(m)), Rounds(ms, n, false, None);
    forall i | 0 <= i < |a| ensures a[i].touchCount == b[i].touchCount {
      CongruentAt(a, b, m, i);
    }
  }

  // ---------------------------------------------------------------------------
  // Monkey business: sort the inspection counts, then multiply the largest two
  // (`sort_by_key`, `rev`, `take(2)`, `product`).

  predicate Ascending(s: seq<nat>) {
    forall i, j :: 0 <= i < j < |s| ==> s[i] <= s[j]
  }

  /** `x` put in front of the first element not below it. */
  function Insert(x: nat, s: seq<nat>): (r: seq<nat>)
    ensures multiset(r) == multiset(s) + multiset{x}
  {
    if s == [] then [x]
    else if x <= s[0] then [x] + s
    else
      assert s == [s[0]] + s[1..];
      [s[0]] + Insert(x, s[1..])
  }

  /** Every element of `v`'s list lies at some position. */
  lemma Member(s: seq<nat>, v: nat) returns (p: nat)
    requires v in multiset(s)
    ensures p < |s| && s[p] == v
  {
    p :| 0 <= p < |s| && s[p] == v;
  }

  lemma {:induction false} InsertAscending(x: nat, s: seq<nat>)
    requires Ascending(s)
    ensures Ascending(Insert(x, s))
  {
    if s != [] && x > s[0] {
      var tail := Insert(x, s[1..]);
      InsertAscending(x, s[1..]);
      var r := [s[0]] + tail;
      forall j | 0 < j < |r| ensures s[0] <= r[j] {
        var v := tail[j - 1];
        assert v in multiset(tail);
        if v != x {
          var p := Member(s[1..], v);
          assert s[p + 1] == v;
        }
      }
      assert Insert(x, s) == r;
    }
  }

  /** The counts in ascending order; a stable sort of the monkeys by count leaves
      exactly this sequence of counts. */
  function SortCounts(s: seq<nat>): (r: seq<nat>)
    ensures Ascending(r) && multiset(r) == multiset(s)
  {
    if s == [] then []
    else
      var sorted := SortCounts(s[1..]);
      InsertAscending(s[0], sorted);
      assert s == [s[0]] + s[1..];
      Insert(s[0], sorted)
  }

  /** The product of the last two elements, of the only one, or of none. */
  function TopTwo(s: seq<nat>): nat {
    if |s| == 0 then 1 else if |s| == 1 then s[0] else s[|s| - 1] * s[|s| - 2]
  }

  function MonkeyBusiness(counts: seq<nat>): nat {
    TopTwo(SortCounts(counts))
  }

  /** Two different positions of `cs` make a sub-multiset. */
  lemma TwoOf(cs: seq<nat>, i: nat, j: nat)
    requires i < |cs| && j < |cs| && i != j
    ensures multiset{cs[i], cs[j]} <= multiset(cs)
  {
    var rest := cs[..i] + cs[i + 1..];
    assert cs == cs[..i] + [cs[i]] + cs[i + 1..];
    assert multiset(cs) == multiset(rest) + multiset{cs[i]};
    var p := if j < i then j else j - 1;
    assert rest[p] == cs[j];
    assert cs[j] in multiset(rest);
  }

  /** A sub-multiset of two elements sits at two different positions. */
  lemma PairOf(cs: seq<nat>, x: nat, y: nat) returns (i: nat, j: nat)
    requires multiset{x, y} <= multiset(cs)
    ensures i < |cs| && j < |cs| && i != j && cs[i] == x && cs[j] == y
  {
    assert x in multiset(cs);
    i := Member(cs, x);
    var rest := cs[..i] + cs[i + 1..];
    assert cs == cs[..i] + [cs[i]] + cs[i + 1..];
    assert multiset(cs) == multiset(rest) + multiset{x};
    assert y in multiset(rest);
    var p := Member(rest, y);
    j := if p < i then p else p + 1;
  }

  /** Every element of an ascending sequence is at most its last one. */
  lemma AtMostLast(s: seq<nat>, v: nat)
    requires Ascending(s) && v in multiset(s)
    ensures v <= s[|s| - 1]
  {
    var p := Member(s, v);
  }

  /** In an ascending sequence no two elements multiply to more than the last two. */
  lemma TopTwoBound(s: seq<nat>, a: nat, b: nat)
    requires Ascending(s) && |s| >= 2 && multiset{a, b} <= multiset(s)
    ensures a * b <= TopTwo(s)
  {
    var n := |s|;
    var t, u, init := s[n - 1], s[n - 2], s[..n - 1];
    assert s == init + [t];
    assert multiset(s) == multiset(init) + multiset{t};
    assert Ascending(init) && init[|init| - 1] == u;
    AtMostLast(s, a);
    AtMostLast(s, b);
    if a == t {
      assert b in multiset(init);
      AtMostLast(init, b);
      MulMonotone(t, b, u);
    } else {
      assert a in multiset(init);
      AtMostLast(init, a);
      MulMonotone(b, a, u);
      MulMonotone(u, b, t);
    }
  }

  /** The product of the counts of the monkeys at `i` and `j`. */
  function PairProduct(cs: seq<nat>, i: int, j: int): nat
    requires 0 <= i < |cs| && 0 <= j < |cs|
  {
    cs[i] * cs[j]
  }

  /** The monkey business is the largest product of the counts of two different
      monkeys. */
  lemma {:induction false} MonkeyBusinessIsBestPair(cs: seq<nat>)
    requires |cs| >= 2
    ensures forall i, j :: 0 <= i < |cs| && 0 <= j < |cs| && i != j ==>
      PairProduct(cs, i, j) <= MonkeyBusiness(cs)
    ensures exists i, j ::
      0 <= i < |cs| && 0 <= j < |cs| && i != j && PairProduct(cs, i, j) == MonkeyBusiness(cs)
  {
    var s := SortCounts(cs);
    assert |s| == |cs| by {
      assert |multiset(s)| == |multiset(cs)|;
    }
    forall i, j | 0 <= i < |cs| && 0 <= j < |cs| && i != j
      ensures PairProduct(cs, i, j) <= MonkeyBusiness(cs)
    {
      TwoOf(cs, i, j);
      TopTwoBound(s, cs[i], cs[j]);
    }
    TwoOf(s, |s| - 1, |s| - 2);
    var i, j := PairOf(cs, s[|s| - 1], s[|s| - 2]);
    assert PairProduct(cs, i, j) == MonkeyBusiness(cs);
  }

  /** With a single monkey the answer is its own count. */
  lemma MonkeyBusinessSingle(c: nat)
    ensures MonkeyBusiness([c]) == c
  {
    assert SortCounts([c]) == Insert(c, SortCounts([]));
  }

  // ---------------------------------------------------------------------------
  // The program's own state: a vector of monkeys whose queues and counters are
  // updated in place.

  class Monkey {
    var items: seq<nat>
    const operation: Operation
    const test: Test
    var touchCount: nat

    constructor (s: MonkeyState)
      ensures State() == s
    {
      items := s.items;
      operation := s.operation;
      test := s.test;
      touchCount := s.touchCount;
    }

    function State(): MonkeyState
      reads this
    {
      MonkeyState(items, operation, test, touchCount)
    }

    /** `Monkey::inspect`: count the inspection, take the front item and compute its
        new worry level. */
    method Inspect(lowerWorryLevel: bool, magicTrick: nat) returns (w: nat)
      requires items != [] && magicTrick > 0
      modifies this
      ensures w == Worry(operation, old(items)[0], lowerWorryLevel, Some(magicTrick))
      ensures State() == Inspected(old(State()))
    {
      touchCount := touchCount + 1;
      var item := items[0];
      items := items[1..];
      var level := match operation
        case Mul(_, b) => (item * Operand(b, item)) % magicTrick
        case Add(_, b) => (item + Operand(b, item)) % magicTrick;
      w := if lowerWorryLevel then level / 3 else level;
    }

    /** `items.push_back`. */
    method Catch(w: nat)
      modifies this
      ensures State() == Caught(old(State()), w)
    {
      items := items + [w];
    }
  }

  /** No monkey appears twice in the vector. */
  predicate Distinct(monkeys: seq<Monkey>) {
    forall i, j :: 0 <= i < |monkeys| && 0 <= j < |monkeys| && i != j ==> monkeys[i] != monkeys[j]
  }

  function States(monkeys: seq<Monkey>): (r: seq<MonkeyState>)
    reads monkeys
    ensures |r| == |monkeys| && forall i :: 0 <= i < |monkeys| ==> r[i] == monkeys[i].State()
  {
    seq(|monkeys|, i reads monkeys requires 0 <= i < |monkeys| => monkeys[i].State())
  }

  /** The body of the innermost loop of `part1` and `part2`. */
  method ThrowItem(monkeys: seq<Monkey>, k: nat, relief: bool, magicTrick: nat)
    requires Distinct(monkeys) && Valid(States(monkeys)) && k < |monkeys|
    requires monkeys[k].items != [] && magicTrick > 0
    modifies monkeys
    ensures States(monkeys) == ThrowOne(old(States(monkeys)), k, relief, Some(magicTrick))
  {
    ghost var s0 := States(monkeys);
    var monkey := monkeys[k];
    var w := monkey.Inspect(relief, magicTrick);
    ghost var s1 := s0[k := Inspected(s0[k])];
    forall i | 0 <= i < |monkeys| ensures monkeys[i].State() == s1[i] {
      if i != k {
        assert monkeys[i] != monkeys[k];
      }
    }
    assert States(monkeys) == s1;
    ValidAt(s0, k);
    var to := Recipient(monkey.test, w);
    monkeys[to].Catch(w);
    ghost var s2 := s1[to := Caught(s1[to], w)];
    forall i | 0 <= i < |monkeys| ensures monkeys[i].State() == s2[i] {
      if i != to {
        assert monkeys[i] != monkeys[to];
      }
    }
    assert States(monkeys) == s2;
  }

  /** Monkey `k`'s turn: as many throws as it held items when the turn began. */
  method TakeTurn(monkeys: seq<Monkey>, k: nat, relief: bool, magicTrick: nat)
    requires Distinct(monkeys) && Valid(States(monkeys)) && k < |monkeys| && magicTrick > 0
    modifies monkeys
    ensures States(monkeys) == Turn(old(States(monkeys)), k, relief, Some(magicTrick))
  {
    ghost var goal := Turn(States(monkeys), k, relief, Some(magicTrick));
    var count := |monkeys[k].items|;
    var i := 0;
    while i < count
      invariant i <= count
      invariant Valid(States(monkeys)) && count - i <= |monkeys[k].items|
      invariant Throws(States(monkeys), k, count - i, relief, Some(magicTrick)) == goal
    {
      ThrowsUnfold(States(monkeys), k, count - i, relief, Some(magicTrick));
      ThrowItem(monkeys, k, relief, magicTrick);
      i := i + 1;
    }
  }

  /** One round: every monkey's turn, in order. */
  method PlayRound(monkeys: seq<Monkey>, relief: bool, magicTrick: nat)
    requires Distinct(monkeys) && Valid(States(monkeys)) && magicTrick > 0
    modifies monkeys
    ensures States(monkeys) == Round(old(States(monkeys)), relief, Some(magicTrick))
  {
    ghost var goal := Round(States(monkeys), relief, Some(magicTrick));
    var k := 0;
    while k < |monkeys|
      invariant k <= |monkeys| && Valid(States(monkeys))
      invariant TurnsFrom(States(monkeys), k, relief, Some(magicTrick)) == goal
    {
      TakeTurn(monkeys, k, relief, magicTrick);
      k := k + 1;
    }
  }

  method PlayRounds(monkeys: seq<Monkey>, rounds: nat, relief: bool, magicTrick: nat)
    requires Distinct(monkeys) && Valid(States(monkeys)) && magicTrick > 0
    modifies monkeys
    ensures States(monkeys) == Rounds(old(States(monkeys)), rounds, relief, Some(magicTrick))
  {
    ghost var goal := Rounds(States(monkeys), rounds, relief, Some(magicTrick));
    var r := 0;
    while r < rounds
      invariant r <= rounds && Valid(States(monkeys))
      invariant Rounds(States(monkeys), rounds - r, relief, Some(magicTrick)) == goal
    {
      PlayRound(monkeys, relief, magicTrick);
      r := r + 1;
    }
  }

  /** The parsed monkeys as objects. */
  method Build(ms: seq<MonkeyState>) returns (monkeys: seq<Monkey>)
    ensures Distinct(monkeys) && States(monkeys) == ms
    ensures forall i :: 0 <= i < |monkeys| ==> fresh(monkeys[i])
  {
    monkeys := [];
    var i := 0;
    while i < |ms|
      invariant i <= |ms| && |monkeys| == i
      invariant Distinct(monkeys) && States(monkeys) == ms[..i]
      invariant forall j :: 0 <= j < |monkeys| ==> fresh(monkeys[j])
    {
      var monkey := new Monkey(ms[i]);
      monkeys := monkeys + [monkey];
      i := i + 1;
    }
  }

  /** Play the rounds with `magic_trick` the product of the divisors, and take the
      product of the two highest inspection counts. */
  method Solve(ms: seq<MonkeyState>, rounds: nat, relief: bool) returns (answer: string)
    requires Valid(ms)
    ensures Positive(ms)
    ensures answer == Parsing.Show(MonkeyBusiness(Touches(Rounds(ms, rounds, relief, Some(Magic(ms))))))
  {
    MagicFits(ms);
    var magicTrick := Magic(ms);
    var monkeys := Build(ms);
    PlayRounds(monkeys, rounds, relief, magicTrick);
    answer := Parsing.Show(MonkeyBusiness(Touches(States(monkeys))));
  }

  /** Twenty rounds with relief. */
  method Part1(input: string) returns (answer: string)
    requires ParseMonkeys(input).Some? && Valid(ParseMonkeys(input).value.0)
    ensures var ms := ParseMonkeys(input).value.0;
      answer == Parsing.Show(MonkeyBusiness(Touches(Rounds(ms, 20, true, Some(Magic(ms))))))
  {
    answer := Solve(ParseMonkeys(input).value.0, 20, true);
  }

  /** Ten thousand rounds without relief; by `ReductionKeepsCounts` this is the answer the
      unreduced worry levels would give. */
  method Part2(input: string) returns (answer: string)
    requires ParseMonkeys(input).Some? && Valid(ParseMonkeys(input).value.0)
    ensures var ms := ParseMonkeys(input).value.0;
      answer == Parsing.Show(MonkeyBusiness(Touches(Rounds(ms, 10000, false, None))))
  {
    var ms := ParseMonkeys(input).value.0;
    answer := Solve(ms, 10000, false);
    ReductionKeepsCounts(ms, 10000);
  }
}

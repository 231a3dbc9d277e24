/** Day 13, "Distress Signal" (day13/src/lib.rs): packets are integers or bracketed
    lists of packets. Two packets compare like this: integers by value, lists
    lexicographically, and an integer met by a list is first wrapped in a one-element
    list. Part 1 adds up the 1-based indices of the pairs already in order; part 2 sorts
    every packet together with the dividers [[2]] and [[6]] and multiplies the dividers'
    1-based positions. */
module Day13 {
  import opened Wrappers
  import Parsing

  datatype Packet = Integer(n: nat) | List(items: seq<Packet>)

  datatype Pair = Pair(left: Packet, right: Packet)

  /** `std::cmp::Ordering`. */
  datatype Ordering = Less | Equal | Greater

  function Flip(o: Ordering): Ordering {
    match o
    case Less => Greater
    case Equal => Equal
    case Greater => Less
  }

  /** Number of packet constructors, integers and lists, in a packet. */
  function Size(p: Packet): (n: nat)
    ensures n >= 1
    decreases p
  {
    match p
    case Integer(_) => 1
    case List(l) => 1 + SizeList(l)
  }

  function SizeList(l: seq<Packet>): nat
    decreases l
  {
    if l == [] then 0 else Size(l[0]) + SizeList(l[1..])
  }

  lemma SingletonSize(p: Packet)
    ensures SizeList([p]) == Size(p)
  {
    assert [p][1..] == [];
  }

  /** An integer met by a list is compared as the list holding just that integer. */
  function Promote(p: Packet): seq<Packet> {
    match p
    case Integer(_) => [p]
    case List(l) => l
  }

  // ---------------------------------------------------------------------------
  // The order: `Ord::cmp` and lexicographic `Vec::cmp`.

  function CmpNat(a: nat, b: nat): Ordering {
    if a < b then Less else if a == b then Equal else Greater
  }

  /** `Packet::cmp`. */
  function Cmp(a: Packet, b: Packet): Ordering
    decreases Size(a) + Size(b), 0
  {
    match (a, b)
    case (Integer(n1), Integer(n2)) => CmpNat(n1, n2)
    case (List(l1), Integer(_)) => SingletonSize(b); CmpList(l1, [b])
    case (Integer(_), List(l2)) => SingletonSize(a); CmpList([a], l2)
    case (List(l1), List(l2)) => CmpList(l1, l2)
  }

  /** `Vec<Packet>::cmp`: the first unequal pair of elements decides; a proper prefix
      comes first. */
  function CmpList(l1: seq<Packet>, l2: seq<Packet>): Ordering
    decreases SizeList(l1) + SizeList(l2), 1
  {
    if l1 == [] then (if l2 == [] then Equal else Less)
    else if l2 == [] then Greater
    else
      var c := Cmp(l1[0], l2[0]);
      if c != Equal then c else CmpList(l1[1..], l2[1..])
  }

  // ---------------------------------------------------------------------------
  // Equality: `PartialEq::eq` and `Vec` equality.

  /** `Packet::eq`, with the same promotion of an integer met by a list. */
  function Eq(a: Packet, b: Packet): bool
    decreases Size(a) + Size(b), 0
  {
    match (a, b)
    case (Integer(n1), Integer(n2)) => n1 == n2
    case (List(l1), Integer(_)) => SingletonSize(b); EqList(l1, [b])
    case (Integer(_), List(l2)) => SingletonSize(a); EqList([a], l2)
    case (List(l1), List(l2)) => EqList(l1, l2)
  }

  /** `Vec<Packet> == Vec<Packet>`: the same length and equal elements pairwise. */
  function EqList(l1: seq<Packet>, l2: seq<Packet>): bool
    decreases SizeList(l1) + SizeList(l2), 1
  {
    if l1 == [] || l2 == [] then l1 == [] && l2 == []
    else Eq(l1[0], l2[0]) && EqList(l1[1..], l2[1..])
  }

  // ---------------------------------------------------------------------------
  // Laws of the order.

  /** With at least one list involved, comparing packets is comparing their promotions. */
  lemma CmpPromoted(a: Packet, b: Packet)
    requires a.List? || b.List?
    ensures Cmp(a, b) == CmpList(Promote(a), Promote(b))
    ensures Eq(a, b) == EqList(Promote(a), Promote(b))
  {
  }

  lemma SizePromoted(p: Packet)
    ensures SizeList(Promote(p)) <= Size(p)
    ensures p.List? ==> SizeList(Promote(p)) < Size(p)
  {
    if p.Integer? {
      SingletonSize(p);
    }
  }

  /** Swapping the operands reverses the outcome. */
  lemma {:induction false} CmpFlip(a: Packet, b: Packet)
    ensures Cmp(b, a) == Flip(Cmp(a, b))
    decreases Size(a) + Size(b), 0
  {
    if a.List? || b.List? {
      CmpPromoted(a, b);
      CmpPromoted(b, a);
      SizePromoted(a);
      SizePromoted(b);
      CmpListFlip(Promote(a), Promote(b));
    }
  }

  lemma {:induction false} CmpListFlip(l1: seq<Packet>, l2: seq<Packet>)
    ensures CmpList(l2, l1) == Flip(CmpList(l1, l2))
    decreases SizeList(l1) + SizeList(l2), 1
  {
    if l1 != [] && l2 != [] {
      CmpFlip(l1[0], l2[0]);
      CmpListFlip(l1[1..], l2[1..]);
    }
  }

  /** `eq` holds exactly when `cmp` finds the packets Equal. */
  lemma {:induction false} EqIsCmpEqual(a: Packet, b: Packet)
    ensures Eq(a, b) <==> Cmp(a, b) == Equal
    decreases Size(a) + Size(b), 0
  {
    if a.List? || b.List? {
      CmpPromoted(a, b);
      SizePromoted(a);
      SizePromoted(b);
      EqListIsCmpListEqual(Promote(a), Promote(b));
    }
  }

  lemma {:induction false} EqListIsCmpListEqual(l1: seq<Packet>, l2: seq<Packet>)
    ensures EqList(l1, l2) <==> CmpList(l1, l2) == Equal
    decreases SizeList(l1) + SizeList(l2), 1
  {
    if l1 != [] && l2 != [] {
      EqIsCmpEqual(l1[0], l2[0]);
      EqListIsCmpListEqual(l1[1..], l2[1..]);
    }
  }

  /** `a <= b` in the packet order. */
  predicate Le(a: Packet, b: Packet) {
    Cmp(a, b) != Greater
  }

  /** The order is transitive, and so is being Equal under it. */
  lemma {:induction false} CmpTransitive(a: Packet, b: Packet, c: Packet)
    ensures Cmp(a, b) != Greater && Cmp(b, c) != Greater ==> Cmp(a, c) != Greater
    ensures Cmp(a, b) == Equal && Cmp(b, c) == Equal ==> Cmp(a, c) == Equal
    decreases Size(a) + Size(b) + Size(c), 0
  {
    if a.List? || b.List? || c.List? {
      CmpLifted(a, b);
      CmpLifted(b, c);
      CmpLifted(a, c);
      SizePromoted(a);
      SizePromoted(b);
      SizePromoted(c);
      CmpListTransitive(Promote(a), Promote(b), Promote(c));
    }
  }

  /** Comparing promotions agrees with comparing the packets, even for two integers. */
  lemma CmpLifted(a: Packet, b: Packet)
    ensures Cmp(a, b) == CmpList(Promote(a), Promote(b))
  {
    if a.Integer? && b.Integer? {
      assert CmpList([a], [b]) == (if Cmp(a, b) != Equal then Cmp(a, b) else CmpList([], []));
    }
  }

  lemma {:induction false} CmpListTransitive(l1: seq<Packet>, l2: seq<Packet>, l3: seq<Packet>)
    ensures CmpList(l1, l2) != Greater && CmpList(l2, l3) != Greater ==> CmpList(l1, l3) != Greater
    ensures CmpList(l1, l2) == Equal && CmpList(l2, l3) == Equal ==> CmpList(l1, l3) == Equal
    decreases SizeList(l1) + SizeList(l2) + SizeList(l3), 1
  {
    if l1 != [] && l2 != [] && l3 != [] {
      var h1, h2, h3 := l1[0], l2[0], l3[0];
      CmpTransitive(h1, h2, h3);
      CmpTransitive(h2, h3, h1);
      CmpTransitive(h3, h1, h2);
      CmpFlip(h1, h2);
      CmpFlip(h2, h3);
      CmpFlip(h1, h3);
      CmpListTransitive(l1[1..], l2[1..], l3[1..]);
    }
  }

  /** Every packet is Equal to itself. */
  lemma CmpReflexive(a: Packet)
    ensures Cmp(a, a) == Equal
  {
    CmpFlip(a, a);
  }

  /** The two comparisons the tests spell out: `[] < [3]`, and `[7,7,7,7]` is not below
      `[7,7,7]`. */
  lemma ShorterListComesFirst()
    ensures Cmp(List([]), List([Integer(3)])) == Less
    ensures Cmp(List([Integer(7), Integer(7), Integer(7), Integer(7)]),
                List([Integer(7), Integer(7), Integer(7)])) == Greater
  {
  }

  // ---------------------------------------------------------------------------
  // `Display`: a list is its items' texts joined by ',' inside brackets.

  function Show(p: Packet): string
    decreases p
  {
    match p
    case Integer(n) => Parsing.Show(n)
    case List(l) => "[" + ShowItems(l) + "]"
  }

  /** The items of a list, separated by ','. */
  function ShowItems(l: seq<Packet>): string
    decreases l
  {
    if l == [] then [] else Show(l[0]) + Commas(l)
  }

  /** Each item after the first, preceded by ','. */
  function Commas(l: seq<Packet>): string
    requires l != []
    decreases l, 0
  {
    if |l| == 1 then [] else "," + Show(l[1]) + Commas(l[1..])
  }

  // ---------------------------------------------------------------------------
  // Parsers: `list` and `pairs`.

  /** `list`: a bracketed, ','-separated sequence of packets, or else an unsigned
      integer. A '[' whose items are not closed by ']' fails, since the integer
      alternative cannot start at '['. */
  function ParsePacket(s: string): (r: Option<(Packet, string)>)
    ensures r.Some? ==> |r.value.1| < |s|
    decreases |s|, 0
  {
    if s != [] && s[0] == '[' then
      var (items, rest) := ParseItems(s[1..]);
      if rest != [] && rest[0] == ']' then Some((List(items), rest[1..])) else None
    else
      match Parsing.ParseNat(s)
      case None => None
      case Some((n, rest)) => Some((Integer(n), rest))
  }

  /** `separated_list0(tag(","), list)`: never fails; stops before a ',' that is not
      followed by a packet. */
  function ParseItems(t: string): (r: (seq<Packet>, string))
    ensures |r.1| <= |t|
    decreases |t|, 1
  {
    match ParsePacket(t)
    case None => ([], t)
    case Some((p, rest)) =>
      var (ps, rest') := MoreItems(rest);
      ([p] + ps, rest')
  }

  function MoreItems(t: string): (r: (seq<Packet>, string))
    ensures |r.1| <= |t|
    decreases |t|, 1
  {
    if t != [] && t[0] == ',' then
      match ParsePacket(t[1..])
      case None => ([], t)
      case Some((p, rest)) =>
        var (ps, rest') := MoreItems(rest);
        ([p] + ps, rest')
    else ([], t)
  }

  /** `separated_pair(list, newline, list)`. */
  function ParsePair(s: string): (r: Option<(Pair, string)>)
    ensures r.Some? ==> |r.value.1| < |s|
  {
    match ParsePacket(s)
    case None => None
    case Some((left, rest)) =>
      if rest != [] && rest[0] == '\n' then
        match ParsePacket(rest[1..])
        case None => None
        case Some((right, rest')) => Some((Pair(left, right), rest'))
      else None
  }

  /** `pairs`: `separated_list1(tag("\n\n"), ...)`; at least one pair. */
  function ParsePairs(s: string): (r: Option<(seq<Pair>, string)>)
    ensures r.Some? ==> |r.value.0| >= 1
  {
    match ParsePair(s)
    case None => None
    case Some((pr, rest)) =>
      var (more, rest') := MorePairs(rest);
      Some(([pr] + more, rest'))
  }

  function MorePairs(t: string): (seq<Pair>, string)
    decreases |t|
  {
    if "\n\n" <= t then
      match ParsePair(t[2..])
      case None => ([], t)
      case Some((pr, rest)) =>
        var more := MorePairs(rest);
        ([pr] + more.0, more.1)
    else ([], t)
  }

  // ---------------------------------------------------------------------------
  // Round trip: the parser reads back what `Display` writes.

  /** A packet's text is read back whole when no digit follows it. */
  lemma {:induction false} ParseShow(p: Packet, rest: string)
    requires rest == [] || !Parsing.IsDigit(rest[0])
    ensures ParsePacket(Show(p) + rest) == Some((p, rest))
    decreases p
  {
    match p
    case Integer(n) =>
      Parsing.ParseNatShow(n, rest);
    case List(l) =>
      var s := Show(p) + rest;
      assert s[1..] == ShowItems(l) + ("]" + rest);
      ParseItemsShow(l, "]" + rest);
  }

  lemma {:induction false} ParseItemsShow(l: seq<Packet>, rest: string)
    requires rest != [] && rest[0] == ']'
    ensures ParseItems(ShowItems(l) + rest) == (l, rest)
    decreases l, 1
  {
    if l != [] {
      var tail := Commas(l) + rest;
      assert ShowItems(l) + rest == Show(l[0]) + tail;
      CommasStart(l, rest);
      ParseShow(l[0], tail);
      ItemsStep(Show(l[0]) + tail, l[0], tail);
      MoreItemsShow(l, rest);
      assert [l[0]] + l[1..] == l;
    } else {
      assert ShowItems(l) + rest == rest;
      assert Parsing.Span(rest, Parsing.IsDigit) == 0;
      assert ParsePacket(rest) == None;
    }
  }

  /** Once the first item is read, the rest of the list is read by `MoreItems`. */
  lemma ItemsStep(t: string, p: Packet, rest: string)
    requires ParsePacket(t) == Some((p, rest))
    ensures ParseItems(t) == ([p] + MoreItems(rest).0, MoreItems(rest).1)
  {
  }

  /** After a ',' and an item, the remaining items are read by `MoreItems` again. */
  lemma MoreStep(t: string, p: Packet, rest: string)
    requires t != [] && t[0] == ',' && ParsePacket(t[1..]) == Some((p, rest))
    ensures MoreItems(t) == ([p] + MoreItems(rest).0, MoreItems(rest).1)
  {
  }

  lemma CommasStart(l: seq<Packet>, rest: string)
    requires l != [] && rest != [] && rest[0] == ']'
    ensures var tail := Commas(l) + rest; tail != [] && (tail[0] == ',' || tail[0] == ']')
  {
  }

  lemma {:induction false} MoreItemsShow(l: seq<Packet>, rest: string)
    requires l != [] && rest != [] && rest[0] == ']'
    ensures MoreItems(Commas(l) + rest) == (l[1..], rest)
    decreases l, 0
  {
    if |l| > 1 {
      var t := Commas(l) + rest;
      var tail := Commas(l[1..]) + rest;
      assert t[0] == ',' && t[1..] == Show(l[1]) + tail;
      CommasStart(l[1..], rest);
      ParseShow(l[1], tail);
      MoreStep(t, l[1], tail);
      MoreItemsShow(l[1..], rest);
      assert [l[1]] + l[1..][1..] == l[1..];
    } else {
      assert Commas(l) + rest == rest && l[1..] == [];
    }
  }

  /** A pair as the input writes it: left packet, '\n', right packet. */
  function ShowPair(pr: Pair): string {
    Show(pr.left) + "\n" + Show(pr.right)
  }

  /** The pairs separated by blank lines. */
  function ShowPairs(ps: seq<Pair>): string
    requires ps != []
  {
    ShowPair(ps[0]) + Gaps(ps)
  }

  /** Each pair after the first, preceded by "\n\n". */
  function Gaps(ps: seq<Pair>): string
    requires ps != []
  {
    if |ps| == 1 then [] else "\n\n" + (ShowPair(ps[1]) + Gaps(ps[1..]))
  }

  /** What may follow the last pair without being read as more pairs. */
  predicate EndsPairs(rest: string) {
    rest == [] || (!Parsing.IsDigit(rest[0]) && !("\n\n" <= rest))
  }

  lemma ParsePairShow(pr: Pair, rest: string)
    requires rest == [] || !Parsing.IsDigit(rest[0])
    ensures ParsePair(ShowPair(pr) + rest) == Some((pr, rest))
  {
    var tail := "\n" + (Show(pr.right) + rest);
    assert ShowPair(pr) + rest == Show(pr.left) + tail;
    ParseShow(pr.left, tail);
    assert tail[1..] == Show(pr.right) + rest;
    ParseShow(pr.right, rest);
  }

  /** Pairs written with blank lines between them are read back. */
  lemma ParsePairsShow(ps: seq<Pair>, rest: string)
    requires ps != [] && EndsPairs(rest)
    ensures ParsePairs(ShowPairs(ps) + rest) == Some((ps, rest))
  {
    var tail := Gaps(ps) + rest;
    assert ShowPairs(ps) + rest == ShowPair(ps[0]) + tail;
    GapsStart(ps, rest);
    ParsePairShow(ps[0], tail);
    MorePairsShow(ps, rest);
    assert [ps[0]] + ps[1..] == ps;
  }

  lemma GapsStart(ps: seq<Pair>, rest: string)
    requires ps != [] && EndsPairs(rest)
    ensures var tail := Gaps(ps) + rest; tail == [] || !Parsing.IsDigit(tail[0])
  {
  }

  lemma {:induction false} MorePairsShow(ps: seq<Pair>, rest: string)
    requires ps != [] && EndsPairs(rest)
    ensures MorePairs(Gaps(ps) + rest) == (ps[1..], rest)
    decreases |ps|
  {
    if |ps| > 1 {
      NextPair(ps, rest);
      MorePairsShow(ps[1..], rest);
      assert [ps[1]] + ps[1..][1..] == ps[1..];
    } else {
      assert Gaps(ps) + rest == rest && ps[1..] == [];
    }
  }

  /** A blank line and a written pair are read as the next pair. */
  lemma NextPair(ps: seq<Pair>, rest: string)
    requires |ps| > 1 && EndsPairs(rest)
    ensures MorePairs(Gaps(ps) + rest)
            == ([ps[1]] + MorePairs(Gaps(ps[1..]) + rest).0, MorePairs(Gaps(ps[1..]) + rest).1)
  {
    var g := Gaps(ps[1..]);
    var sp := ShowPair(ps[1]);
    var tail := g + rest;
    var u := sp + tail;
    assert Gaps(ps) == "\n\n" + (sp + g);
    Regroup("\n\n", sp, g, rest);
    assert ("\n\n" + u)[2..] == u;
    GapsStart(ps[1..], rest);
    ParsePairShow(ps[1], tail);
    PairsStep("\n\n" + u, ps[1], tail);
  }

  lemma Regroup(a: string, b: string, c: string, d: string)
    ensures (a + (b + c)) + d == a + (b + (c + d))
  {
  }

  /** After a blank line and a pair, the remaining pairs are read by `MorePairs` again. */
  lemma PairsStep(t: string, pr: Pair, rest: string)
    requires "\n\n" <= t && ParsePair(t[2..]) == Some((pr, rest))
    ensures MorePairs(t) == ([pr] + MorePairs(rest).0, MorePairs(rest).1)
  {
  }

  // ---------------------------------------------------------------------------
  // Part 1: the sum of the 1-based indices of the pairs in the right order.

  predicate InOrder(pr: Pair) {
    Cmp(pr.left, pr.right) == Less
  }

  /** The 1-based indices of the pairs in order, added up. */
  function IndexSum(ps: seq<Pair>): nat {
    if ps == [] then 0
    else IndexSum(ps[..|ps| - 1]) + (if InOrder(ps[|ps| - 1]) then |ps| else 0)
  }

  /** The sum is 0 exactly when no pair is in order, and 1 + 2 + ... + n exactly when
      every pair is; in between otherwise. */
  lemma {:induction false} IndexSumBounds(ps: seq<Pair>)
    ensures IndexSum(ps) <= |ps| * (|ps| + 1) / 2
    ensures IndexSum(ps) == 0 <==> forall i :: 0 <= i < |ps| ==> !InOrder(ps[i])
    ensures IndexSum(ps) == |ps| * (|ps| + 1) / 2 <==> forall i :: 0 <= i < |ps| ==> InOrder(ps[i])
  {
    if ps != [] {
      var init := ps[..|ps| - 1];
      IndexSumBounds(init);
      assert forall i :: 0 <= i < |init| ==> init[i] == ps[i];
      var n := |ps|;
      assert n * (n + 1) / 2 == (n - 1) * n / 2 + n;
    }
  }

  /** Each pair in order adds its own index: the sum over a concatenation. */
  lemma {:induction false} IndexSumAppend(ps: seq<Pair>, pr: Pair)
    ensures IndexSum(ps + [pr]) == IndexSum(ps) + (if InOrder(pr) then |ps| + 1 else 0)
  {
    assert (ps + [pr])[..|ps|] == ps;
  }

  lemma IndexSumPrefix(ps: seq<Pair>, k: nat)
    requires k < |ps|
    ensures IndexSum(ps[..k + 1]) == IndexSum(ps[..k]) + (if InOrder(ps[k]) then k + 1 else 0)
  {
    assert ps[..k + 1][..k] == ps[..k];
  }

  /** `part1`: the pairs must parse; what follows them is ignored. */
  function Part1(input: string): nat
    requires ParsePairs(input).Some?
  {
    IndexSum(ParsePairs(input).value.0)
  }

  // ---------------------------------------------------------------------------
  // Part 2: sort every packet with the two dividers and locate the dividers.

  const Divider2: Packet := List([List([Integer(2)])])
  const Divider6: Packet := List([List([Integer(6)])])

  /** Every packet of the pairs, left then right, followed by the two dividers. */
  function AllPackets(ps: seq<Pair>): seq<Packet> {
    Flatten(ps) + [Divider2, Divider6]
  }

  function Flatten(ps: seq<Pair>): (r: seq<Packet>)
    ensures |r| == 2 * |ps|
  {
    if ps == [] then [] else [ps[0].left, ps[0].right] + Flatten(ps[1..])
  }

  /** Ascending in the packet order. */
  predicate Sorted(s: seq<Packet>) {
    forall i, j :: 0 <= i < j < |s| ==> Le(s[i], s[j])
  }

  /** Inserting into a sorted sequence: before the first element not below `x`. */
  function Insert(x: Packet, s: seq<Packet>): (r: seq<Packet>)
    ensures multiset(r) == multiset(s) + multiset{x}
  {
    if s == [] then [x]
    else if Le(x, s[0]) then [x] + s
    else
      assert s == [s[0]] + s[1..];
      [s[0]] + Insert(x, s[1..])
  }

  /** The library sort, modelled as insertion sort (only the sortedness and the
      permutation matter to the answer). */
  function Sort(s: seq<Packet>): (r: seq<Packet>)
    ensures multiset(r) == multiset(s)
  {
    if s == [] then []
    else
      assert s == [s[0]] + s[1..];
      Insert(s[0], Sort(s[1..]))
  }

  lemma {:induction false} InsertSorted(x: Packet, s: seq<Packet>)
    requires Sorted(s)
    ensures Sorted(Insert(x, s))
  {
    if s != [] {
      if Le(x, s[0]) {
        var r := [x] + s;
        forall i, j | 0 <= i < j < |r| ensures Le(r[i], r[j]) {
          if i == 0 {
            CmpTransitive(x, s[0], s[j - 1]);
          }
        }
      } else {
        CmpFlip(x, s[0]);
        InsertSorted(x, s[1..]);
        var t := Insert(x, s[1..]);
        var r := [s[0]] + t;
        forall k | 0 <= k < |t| ensures Le(s[0], t[k]) {
          assert t[k] in multiset(t);
          if t[k] != x {
            var m :| 0 <= m < |s[1..]| && s[1..][m] == t[k];
          }
        }
        forall i, j | 0 <= i < j < |r| ensures Le(r[i], r[j]) {
          if i == 0 {
            assert r[j] == t[j - 1];
          } else {
            assert r[i] == t[i - 1] && r[j] == t[j - 1];
          }
        }
      }
    }
  }

  /** The sort yields an ascending permutation of its input. */
  lemma {:induction false} SortSorted(s: seq<Packet>)
    ensures Sorted(Sort(s)) && multiset(Sort(s)) == multiset(s)
  {
    if s != [] {
      SortSorted(s[1..]);
      InsertSorted(s[0], Sort(s[1..]));
    }
  }

  /** `find` with `==`: the first index whose packet `eq`s `x`. */
  function FindEq(s: seq<Packet>, x: Packet): (r: Option<nat>)
    ensures r.Some? ==> r.value < |s| && Eq(s[r.value], x)
                        && forall j :: 0 <= j < r.value ==> !Eq(s[j], x)
    ensures r.None? <==> forall j :: 0 <= j < |s| ==> !Eq(s[j], x)
  {
    if s == [] then None
    else if Eq(s[0], x) then Some(0)
    else
      match FindEq(s[1..], x)
      case None => None
      case Some(k) => Some(k + 1)
  }

  /** How many packets of `s` lie strictly below `x`. */
  function CountLess(s: seq<Packet>, x: Packet): (n: nat)
    ensures n <= |s|
  {
    if s == [] then 0 else (if Cmp(s[0], x) == Less then 1 else 0) + CountLess(s[1..], x)
  }

  lemma {:induction false} CountLessAppend(a: seq<Packet>, b: seq<Packet>, x: Packet)
    ensures CountLess(a + b, x) == CountLess(a, x) + CountLess(b, x)
  {
    if a == [] {
      assert a + b == b;
    } else {
      assert (a + b)[1..] == a[1..] + b;
      CountLessAppend(a[1..], b, x);
    }
  }

  /** The count does not depend on the order of the packets. */
  lemma {:induction false} CountLessPermutation(a: seq<Packet>, b: seq<Packet>, x: Packet)
    requires multiset(a) == multiset(b)
    ensures CountLess(a, x) == CountLess(b, x)
    decreases |a|
  {
    if a != [] {
      assert a[0] in multiset(b);
      var i :| 0 <= i < |b| && b[i] == a[0];
      var b' := RemoveAt(b, i, x);
      assert a == [a[0]] + a[1..];
      assert multiset(a) == multiset{a[0]} + multiset(a[1..]);
      CountLessPermutation(a[1..], b', x);
    }
  }

  /** Taking one packet out of a sequence takes it out of the multiset and the count. */
  lemma RemoveAt(b: seq<Packet>, i: nat, x: Packet) returns (b': seq<Packet>)
    requires i < |b|
    ensures b' == b[..i] + b[i + 1..]
    ensures multiset(b') == multiset(b) - multiset{b[i]}
    ensures CountLess(b, x) == CountLess(b', x) + (if Cmp(b[i], x) == Less then 1 else 0)
  {
    b' := b[..i] + b[i + 1..];
    assert b == b[..i] + [b[i]] + b[i + 1..];
    assert multiset(b) == multiset(b[..i]) + multiset{b[i]} + multiset(b[i + 1..]);
    CountLessAppend(b[..i] + [b[i]], b[i + 1..], x);
    CountLessAppend(b[..i], [b[i]], x);
    CountLessAppend(b[..i], b[i + 1..], x);
  }

  /** Counting from the front: k packets below `x` followed by none. */
  lemma {:induction false} CountSplit(s: seq<Packet>, x: Packet, k: nat)
    requires k <= |s|
    requires forall j :: 0 <= j < k ==> Cmp(s[j], x) == Less
    requires forall j :: k <= j < |s| ==> Cmp(s[j], x) != Less
    ensures CountLess(s, x) == k
  {
    if s != [] {
      CountSplit(s[1..], x, if k == 0 then 0 else k - 1);
    }
  }

  /** In an ascending sequence the first packet equal to `x` sits right after all the
      packets below `x`. */
  lemma FirstEqualPosition(s: seq<Packet>, x: Packet)
    requires Sorted(s) && FindEq(s, x).Some?
    ensures FindEq(s, x).value == CountLess(s, x)
  {
    var k := FindEq(s, x).value;
    EqIsCmpEqual(s[k], x);
    CmpFlip(s[k], x);
    forall j | 0 <= j < k ensures Cmp(s[j], x) == Less {
      EqIsCmpEqual(s[j], x);
      CmpTransitive(s[j], s[k], x);
    }
    forall j | k <= j < |s| ensures Cmp(s[j], x) != Less {
      if j > k {
        CmpTransitive(x, s[k], s[j]);
      }
      CmpFlip(x, s[j]);
    }
    CountSplit(s, x, k);
  }

  lemma DividersOrdered()
    ensures Cmp(Divider2, Divider6) == Less && Cmp(Divider6, Divider2) == Greater
    ensures Cmp(Divider2, Divider2) == Equal && Cmp(Divider6, Divider6) == Equal
  {
  }

  /** A packet that is in the sequence is found. */
  lemma FoundWhenPresent(s: seq<Packet>, x: Packet)
    requires x in multiset(s)
    ensures FindEq(s, x).Some?
  {
    var i :| 0 <= i < |s| && s[i] == x;
    CmpReflexive(x);
    EqIsCmpEqual(x, x);
  }

  /** The 1-based positions of [[2]] and [[6]] among the sorted packets. */
  function DividerPlaces(ps: seq<Pair>): (nat, nat) {
    var sorted := Sort(AllPackets(ps));
    DividersFound(ps, sorted);
    PlacesIn(sorted)
  }

  /** The 1-based positions of [[2]] and [[6]] in a sequence holding both. */
  function PlacesIn(sorted: seq<Packet>): (nat, nat)
    requires FindEq(sorted, Divider2).Some? && FindEq(sorted, Divider6).Some?
  {
    (FindEq(sorted, Divider2).value + 1, FindEq(sorted, Divider6).value + 1)
  }

  /** `part2` on the pairs: the product of the dividers' positions. */
  function DividerProduct(ps: seq<Pair>): nat {
    var places := DividerPlaces(ps);
    Product(places.0, places.1)
  }

  function Product(a: nat, b: nat): nat {
    a * b
  }

  lemma DividersFound(ps: seq<Pair>, sorted: seq<Packet>)
    requires multiset(sorted) == multiset(AllPackets(ps))
    ensures FindEq(sorted, Divider2).Some? && FindEq(sorted, Divider6).Some?
  {
    var all := AllPackets(ps);
    assert all[2 * |ps|] == Divider2 && all[2 * |ps| + 1] == Divider6;
    assert Divider2 in multiset(all) && Divider6 in multiset(all);
    FoundWhenPresent(sorted, Divider2);
    FoundWhenPresent(sorted, Divider6);
  }

  /** The answer depends only on how many input packets lie below each divider:
      [[2]] sits after those below it, [[6]] also after [[2]]. Any ascending permutation
      gives the same positions, so the sort algorithm does not matter. */
  lemma DividerPositions(ps: seq<Pair>, sorted: seq<Packet>)
    requires Sorted(sorted) && multiset(sorted) == multiset(AllPackets(ps))
    ensures FindEq(sorted, Divider2).Some? && FindEq(sorted, Divider6).Some?
    ensures PlacesIn(sorted) == (CountLess(Flatten(ps), Divider2) + 1, CountLess(Flatten(ps), Divider6) + 2)
  {
    DividersFound(ps, sorted);
    DividerPosition(ps, sorted, Divider2);
    DividerPosition(ps, sorted, Divider6);
    PlacesFromCounts(ps, sorted);
  }

  /** Positions equal to the counts below each divider give the closed form. */
  lemma PlacesFromCounts(ps: seq<Pair>, sorted: seq<Packet>)
    requires FindEq(sorted, Divider2).Some? && FindEq(sorted, Divider6).Some?
    requires FindEq(sorted, Divider2).value == CountLess(AllPackets(ps), Divider2)
    requires FindEq(sorted, Divider6).value == CountLess(AllPackets(ps), Divider6)
    ensures PlacesIn(sorted) == (CountLess(Flatten(ps), Divider2) + 1, CountLess(Flatten(ps), Divider6) + 2)
  {
    var f := Flatten(ps);
    DividerCounts();
    CountLessAppend(f, [Divider2, Divider6], Divider2);
    CountLessAppend(f, [Divider2, Divider6], Divider6);
  }

  /** Among the two dividers, none lies below [[2]] and one lies below [[6]]. */
  lemma DividerCounts()
    ensures CountLess([Divider2, Divider6], Divider2) == 0
    ensures CountLess([Divider2, Divider6], Divider6) == 1
  {
    DividersOrdered();
    var ds := [Divider2, Divider6];
    assert ds[1..] == [Divider6] && ds[1..][1..] == [];
  }

  /** In an ascending permutation of all packets, a divider's 0-based position is the
      number of packets (dividers included) that order before it. */
  lemma DividerPosition(ps: seq<Pair>, sorted: seq<Packet>, d: Packet)
    requires Sorted(sorted) && multiset(sorted) == multiset(AllPackets(ps))
    requires FindEq(sorted, d).Some?
    ensures FindEq(sorted, d).value == CountLess(AllPackets(ps), d)
  {
    FirstEqualPosition(sorted, d);
    CountLessPermutation(sorted, AllPackets(ps), d);
  }

  /** Part 2 in closed form. */
  lemma DividerProductIs(ps: seq<Pair>)
    ensures DividerPlaces(ps)
            == (CountLess(Flatten(ps), Divider2) + 1, CountLess(Flatten(ps), Divider6) + 2)
    ensures DividerProduct(ps)
            == (CountLess(Flatten(ps), Divider2) + 1) * (CountLess(Flatten(ps), Divider6) + 2)
  {
    SortSorted(AllPackets(ps));
    DividerPositions(ps, Sort(AllPackets(ps)));
  }

  /** `part2`: the pairs must parse. */
  function Part2(input: string): nat
    requires ParsePairs(input).Some?
  {
    DividerProduct(ParsePairs(input).value.0)
  }

  // ---------------------------------------------------------------------------
  // The worked example.

  const SamplePairs: seq<Pair> := [
    Pair(List([Integer(1), Integer(1), Integer(3), Integer(1), Integer(1)]),
         List([Integer(1), Integer(1), Integer(5), Integer(1), Integer(1)])),
    Pair(List([List([Integer(1)]), List([Integer(2), Integer(3), Integer(4)])]),
         List([List([Integer(1)]), Integer(4)])),
    Pair(List([Integer(9)]),
         List([List([Integer(8), Integer(7), Integer(6)])])),
    Pair(List([List([Integer(4), Integer(4)]), Integer(4), Integer(4)]),
         List([List([Integer(4), Integer(4)]), Integer(4), Integer(4), Integer(4)])),
    Pair(List([Integer(7), Integer(7), Integer(7), Integer(7)]),
         List([Integer(7), Integer(7), Integer(7)])),
    Pair(List([]),
         List([Integer(3)])),
    Pair(List([List([List([])])]),
         List([List([])])),
    Pair(List([Integer(1), List([Integer(2), List([Integer(3), List([Integer(4), List([Integer(5), Integer(6), Integer(7)])])])]), Integer(8), Integer(9)]),
         List([Integer(1), List([Integer(2), List([Integer(3), List([Integer(4), List([Integer(5), Integer(6), Integer(0)])])])]), Integer(8), Integer(9)]))
  ]

  lemma SampleOrders()
    ensures InOrder(SamplePairs[0]) && InOrder(SamplePairs[1]) && !InOrder(SamplePairs[2])
    ensures InOrder(SamplePairs[3]) && !InOrder(SamplePairs[4]) && InOrder(SamplePairs[5])
    ensures !InOrder(SamplePairs[6])
  {
  }

  /** The last sample pair differs only in its innermost list. */
  lemma DeepPairOutOfOrder()
    ensures !InOrder(SamplePairs[7])
  {
    var a4, b4 := List([Integer(5), Integer(6), Integer(7)]), List([Integer(5), Integer(6), Integer(0)]);
    assert Cmp(a4, b4) == Greater;
    var a3, b3 := List([Integer(4), a4]), List([Integer(4), b4]);
    assert Cmp(a3, b3) == Greater;
    var a2, b2 := List([Integer(3), a3]), List([Integer(3), b3]);
    assert Cmp(a2, b2) == Greater;
    var a1, b1 := List([Integer(2), a2]), List([Integer(2), b2]);
    assert Cmp(a1, b1) == Greater;
    assert SamplePairs[7].left == List([Integer(1), a1, Integer(8), Integer(9)]);
    assert SamplePairs[7].right == List([Integer(1), b1, Integer(8), Integer(9)]);
  }

  /** Pairs 1, 2, 4 and 6 are in order: 13. */
  lemma SamplePart1()
    ensures IndexSum(SamplePairs) == 13
  {
    var ps := SamplePairs;
    SampleOrders();
    DeepPairOutOfOrder();
    assert ps[..0] == [];
    IndexSumPrefix(ps, 0);
    IndexSumPrefix(ps, 1);
    IndexSumPrefix(ps, 2);
    IndexSumPrefix(ps, 3);
    IndexSumPrefix(ps, 4);
    IndexSumPrefix(ps, 5);
    IndexSumPrefix(ps, 6);
    IndexSumPrefix(ps, 7);
    assert ps[..8] == ps;
  }

  /** Nine sample packets lie below [[2]] and twelve below [[6]]: positions 10 and 14. */
  lemma SamplePart2()
    ensures DividerProduct(SamplePairs) == 140
  {
    var f := Flatten(SamplePairs);
    SampleBelowDividers();
    CountLessFlatten(SamplePairs, Divider2);
    CountLessFlatten(SamplePairs, Divider6);
    DividerProductIs(SamplePairs);
  }

  function PairCount(pr: Pair, x: Packet): nat {
    (if Cmp(pr.left, x) == Less then 1 else 0) + (if Cmp(pr.right, x) == Less then 1 else 0)
  }

  function PairsBelow(ps: seq<Pair>, x: Packet): nat {
    if ps == [] then 0 else PairCount(ps[0], x) + PairsBelow(ps[1..], x)
  }

  lemma {:induction false} CountLessFlatten(ps: seq<Pair>, x: Packet)
    ensures CountLess(Flatten(ps), x) == PairsBelow(ps, x)
  {
    if ps != [] {
      var f := Flatten(ps);
      assert f[1..][1..] == Flatten(ps[1..]);
      CountLessFlatten(ps[1..], x);
    }
  }

  lemma SampleBelowDividers()
    ensures PairsBelow(SamplePairs, Divider2) == 9
    ensures PairsBelow(SamplePairs, Divider6) == 12
  {
    SampleBelow2();
    SampleBelow6();
  }

  lemma SampleBelow2()
    ensures PairsBelow(SamplePairs, Divider2) == 9
  {
  }

  lemma SampleBelow6()
    ensures PairsBelow(SamplePairs, Divider6) == 12
  {
  }
}

/** Day 9, "Rope Bridge" (day9/src/lib.rs): a rope's head is moved one unit at a
    time by the commands, every further knot follows the knot before it, and the
    answer is the number of distinct positions the last knot visits. Part 1 has two
    knots, part 2 ten. */
module Day9 {
  import opened Wrappers
  import Parsing
  import Text

  datatype Direction = Right | Up | Left | Down

  datatype Command = Command(direction: Direction, count: nat)

  /** A knot's position: the first coordinate moves with Up/Down, the second with
      Right/Left. */
  type Pos = (int, int)

  // ---------------------------------------------------------------------------
  // `Command::from_str`: the first two whitespace-separated words.

  function DirectionOf(w: string): (r: Option<Direction>)
    ensures r.Some? <==> w == "R" || w == "U" || w == "L" || w == "D"
  {
    if w == "R" then Some(Right)
    else if w == "U" then Some(Up)
    else if w == "L" then Some(Left)
    else if w == "D" then Some(Down)
    else None
  }

  /** The largest `u32`. */
  const MaxCount: nat := 0xFFFF_FFFF

  /** A line `from_str` reads without panicking: it has a first word, and when that word
      names a direction, a second word that `parse::<u32>` accepts. */
  predicate Readable(line: string) {
    var parts := Text.Words(line);
    parts != []
    && (DirectionOf(parts[0]).Some? ==>
          |parts| >= 2 && Parsing.ParseUnsigned(parts[1]).Some?
          && Parsing.ParseUnsigned(parts[1]).value <= MaxCount)
  }

  function ParseCommand(line: string): (r: Result<Command, string>)
    requires Readable(line)
    ensures r.Err? <==> DirectionOf(Text.Words(line)[0]).None?
    ensures r.Err? ==> r.error == "Unknown direction"
    ensures r.Ok? ==> r.value.count <= MaxCount
  {
    var parts := Text.Words(line);
    match DirectionOf(parts[0])
    case None => Err("Unknown direction")
    case Some(d) => Ok(Command(d, Parsing.ParseUnsigned(parts[1]).value))
  }

  function Letter(d: Direction): string {
    match d
    case Right => "R"
    case Up => "U"
    case Left => "L"
    case Down => "D"
  }

  /** A command as the puzzle input writes it. */
  function ShowCommand(c: Command): string {
    Letter(c.direction) + " " + Parsing.Show(c.count)
  }

  /** `from_str` reads back every command whose count fits a `u32`. */
  lemma ParseShowCommand(c: Command)
    requires c.count <= MaxCount
    ensures Readable(ShowCommand(c)) && ParseCommand(ShowCommand(c)) == Ok(c)
  {
    var l, n := Letter(c.direction), Parsing.Show(c.count);
    assert Text.IsWord(l);
    assert Text.IsWord(n) by {
      forall i | 0 <= i < |n| ensures !Text.IsWhitespace(n[i]) {
        assert Parsing.IsDigit(n[i]);
      }
    }
    assert Text.UnWords([l, n]) == ShowCommand(c);
    Text.WordsUnWords([l, n]);
    Parsing.ParseUnsignedShow(c.count);
  }

  /** A first word other than R, U, L and D is refused, whatever follows it. */
  lemma UnknownDirection(w: string, rest: string)
    requires Text.IsWord(w) && DirectionOf(w).None?
    ensures Readable(Text.UnWords([w] + [rest]))
    ensures ParseCommand(Text.UnWords([w] + [rest])) == Err("Unknown direction")
  {
    var s := Text.UnWords([w] + [rest]);
    assert s == w + (" " + rest);
    Text.WordEndOf(w, " " + rest);
    assert s[..|w|] == w;
    assert s[0] == w[0] && !Text.IsWhitespace(s[0]);
  }

  // ---------------------------------------------------------------------------
  // Knots.

  function Abs(x: int): nat {
    if x < 0 then -x else x
  }

  function Sign(x: int): int {
    if x > 0 then 1 else if x < 0 then -1 else 0
  }

  /** `distance`: the Manhattan distance. */
  function Distance(a: Pos, b: Pos): nat {
    Abs(a.0 - b.0) + Abs(a.1 - b.1)
  }

  /** The larger of the two coordinate distances. */
  function Chebyshev(a: Pos, b: Pos): nat {
    var dx, dy := Abs(a.0 - b.0), Abs(a.1 - b.1);
    if dx < dy then dy else dx
  }

  /** Knots that touch: the same cell or neighbouring cells, diagonals included. */
  predicate Touch(a: Pos, b: Pos) {
    Chebyshev(a, b) <= 1
  }

  /** `get_direction`: a diagonal step when both coordinates differ, else the sign of
      the difference on each axis. */
  function GetDirection(k1: Pos, k2: Pos): (d: Pos)
    ensures d == (Sign(k1.0 - k2.0), Sign(k1.1 - k2.1))
  {
    if k1.0 > k2.0 && k1.1 > k2.1 then (1, 1)
    else if k1.0 > k2.0 && k1.1 < k2.1 then (1, -1)
    else if k1.0 < k2.0 && k1.1 > k2.1 then (-1, 1)
    else if k1.0 < k2.0 && k1.1 < k2.1 then (-1, -1)
    else
      var xOff := k1.0 - k2.0;
      var yOff := k1.1 - k2.1;
      var x := if xOff > 0 then 1 else if xOff < 0 then -1 else xOff;
      var y := if yOff > 0 then 1 else if yOff < 0 then -1 else yOff;
      (x, y)
  }

  /** `move_knot`: `knot2` steps toward `knot1` when, on one line, they are more than
      one apart, or, off every line, more than two apart. That is exactly when they do
      not touch; the step is at most one on each axis, and a knot that was at most two
      away on each axis touches its leader afterwards. */
  function MoveKnot(knot1: Pos, knot2: Pos): (r: Pos)
    ensures r != knot2 <==> !Touch(knot1, knot2)
    ensures Abs(r.0 - knot2.0) <= 1 && Abs(r.1 - knot2.1) <= 1
    ensures Chebyshev(knot1, knot2) <= 2 ==> Touch(knot1, r)
  {
    var dist := Distance(knot1, knot2);
    var isOnSameLine := knot1.0 == knot2.0 || knot1.1 == knot2.1;
    if (isOnSameLine && dist > 1) || (!isOnSameLine && dist > 2) then
      var direction := GetDirection(knot1, knot2);
      (knot2.0 + direction.0, knot2.1 + direction.1)
    else
      knot2
  }

  /** One unit move of the head. */
  function Step(p: Pos, d: Direction): Pos {
    match d
    case Up => (p.0 + 1, p.1)
    case Down => (p.0 - 1, p.1)
    case Right => (p.0, p.1 + 1)
    case Left => (p.0, p.1 - 1)
  }

  /** Each knot in turn follows the new position of the knot before it. */
  function Follow(leader: Pos, knots: seq<Pos>): (r: seq<Pos>)
    ensures |r| == |knots|
    ensures knots != [] ==> r[0] == MoveKnot(leader, knots[0])
    ensures forall i :: 0 < i < |knots| ==> r[i] == MoveKnot(r[i - 1], knots[i])
    decreases |knots|
  {
    if knots == [] then []
    else
      var k := MoveKnot(leader, knots[0]);
      var tail := Follow(k, knots[1..]);
      assert forall i :: 1 < i < |knots| ==> tail[i - 1] == MoveKnot(tail[i - 2], knots[i]);
      [k] + tail
  }

  /** A unit move of the whole rope: the head steps, the other knots follow. */
  function StepRope(rope: seq<Pos>, d: Direction): (r: seq<Pos>)
    requires rope != []
    ensures |r| == |rope|
  {
    var head := Step(rope[0], d);
    [head] + Follow(head, rope[1..])
  }

  function Last(rope: seq<Pos>): Pos
    requires rope != []
  {
    rope[|rope| - 1]
  }

  /** The rope after the given unit moves. */
  function After(rope: seq<Pos>, moves: seq<Direction>): (r: seq<Pos>)
    requires rope != []
    ensures |r| == |rope|
    decreases |moves|
  {
    if moves == [] then rope
    else StepRope(After(rope, moves[..|moves| - 1]), moves[|moves| - 1])
  }

  /** The positions of the last knot: where it starts, and where it is after each move. */
  function Visited(rope: seq<Pos>, moves: seq<Direction>): set<Pos>
    requires rope != []
  {
    set j | 0 <= j <= |moves| :: Last(After(rope, moves[..j]))
  }

  /** The commands' unit moves: each direction as many times as its count. */
  function Moves(commands: seq<Command>): seq<Direction>
    decreases |commands|
  {
    if commands == [] then []
    else
      var c := commands[|commands| - 1];
      Moves(commands[..|commands| - 1]) + Repeat(c.direction, c.count)
  }

  function Repeat(d: Direction, n: nat): (r: seq<Direction>)
    ensures |r| == n && forall i :: 0 <= i < n ==> r[i] == d
  {
    seq(n, _ => d)
  }

  // ---------------------------------------------------------------------------
  // Properties of the rope.

  /** Every knot touches the one before it. */
  predicate Taut(rope: seq<Pos>) {
    forall i :: 0 < i < |rope| ==> Touch(rope[i - 1], rope[i])
  }

  /** At most one apart on each axis. */
  predicate Near(a: Pos, b: Pos) {
    Abs(a.0 - b.0) <= 1 && Abs(a.1 - b.1) <= 1
  }

  /** A leader that moved at most one on each axis away from a touching position is
      still at most two away on each axis. */
  lemma NearTouch(leader: Pos, prev: Pos, knot: Pos)
    requires Near(leader, prev) && Touch(prev, knot)
    ensures Chebyshev(leader, knot) <= 2
  {
  }

  /** Knots that each touched their predecessor still do after following a leader that
      moved at most one on each axis. */
  lemma {:induction false} FollowTaut(leader: Pos, prev: Pos, knots: seq<Pos>)
    requires Near(leader, prev) && Taut([prev] + knots)
    ensures Taut([leader] + Follow(leader, knots))
    decreases |knots|
  {
    if knots != [] {
      var k := MoveKnot(leader, knots[0]);
      assert ([prev] + knots)[0] == prev && ([prev] + knots)[1] == knots[0];
      NearTouch(leader, prev, knots[0]);
      var rest := knots[1..];
      assert Taut([knots[0]] + rest) by {
        forall i | 0 < i < |[knots[0]] + rest|
          ensures Touch(([knots[0]] + rest)[i - 1], ([knots[0]] + rest)[i])
        {
          assert ([knots[0]] + rest)[i - 1] == ([prev] + knots)[i];
          assert ([knots[0]] + rest)[i] == ([prev] + knots)[i + 1];
        }
      }
      FollowTaut(k, knots[0], rest);
      var r := [leader] + Follow(leader, knots);
      var t := [k] + Follow(k, rest);
      assert r == [leader] + t;
      forall i | 0 < i < |r| ensures Touch(r[i - 1], r[i]) {
        if i > 1 {
          assert r[i - 1] == t[i - 2] && r[i] == t[i - 1];
        }
      }
    }
  }

  /** A unit move keeps a taut rope taut: the invariant behind both parts. */
  lemma StepKeepsTaut(rope: seq<Pos>, d: Direction)
    requires rope != [] && Taut(rope)
    ensures Taut(StepRope(rope, d))
  {
    var rest := rope[1..];
    assert rope == [rope[0]] + rest;
    FollowTaut(Step(rope[0], d), rope[0], rest);
  }

  lemma {:induction false} AfterTaut(rope: seq<Pos>, moves: seq<Direction>)
    requires rope != [] && Taut(rope)
    ensures Taut(After(rope, moves))
    decreases |moves|
  {
    if moves != [] {
      AfterTaut(rope, moves[..|moves| - 1]);
      StepKeepsTaut(After(rope, moves[..|moves| - 1]), moves[|moves| - 1]);
    }
  }

  lemma AfterSnoc(rope: seq<Pos>, moves: seq<Direction>, d: Direction)
    requires rope != []
    ensures After(rope, moves + [d]) == StepRope(After(rope, moves), d)
  {
    assert (moves + [d])[..|moves|] == moves;
  }

  /** Both ropes start with every knot at the origin, so they stay taut whatever the
      moves. */
  lemma RopesStayTaut(moves: seq<Direction>)
    ensures Taut(After([Origin, Origin], moves)) && Taut(After(Start10(), moves))
  {
    assert Taut([Origin, Origin]);
    assert Taut(Start10()) by {
      forall i | 0 < i < 10 ensures Touch(Start10()[i - 1], Start10()[i]) {
        assert Start10()[i - 1] == Origin && Start10()[i] == Origin;
      }
    }
    AfterTaut([Origin, Origin], moves);
    AfterTaut(Start10(), moves);
  }

  /** One more move adds the last knot's new position and nothing else. */
  lemma VisitedExtend(rope: seq<Pos>, moves: seq<Direction>, d: Direction)
    requires rope != []
    ensures Visited(rope, moves + [d]) == Visited(rope, moves) + {Last(After(rope, moves + [d]))}
  {
    var ms := moves + [d];
    var x := Last(After(rope, ms));
    var a, b := Visited(rope, ms), Visited(rope, moves) + {x};
    forall p | p in a ensures p in b {
      var j :| 0 <= j <= |ms| && p == Last(After(rope, ms[..j]));
      if j <= |moves| {
        assert ms[..j] == moves[..j];
        assert Last(After(rope, moves[..j])) in Visited(rope, moves);
      } else {
        assert ms[..j] == ms;
      }
    }
    forall p | p in b ensures p in a {
      if p == x {
        assert ms[..|ms|] == ms;
        assert Last(After(rope, ms[..|ms|])) in a;
      } else {
        var j :| 0 <= j <= |moves| && p == Last(After(rope, moves[..j]));
        assert ms[..j] == moves[..j];
        assert Last(After(rope, ms[..j])) in a;
      }
    }
  }

  lemma VisitedStart(rope: seq<Pos>)
    requires rope != []
    ensures Visited(rope, []) == {Last(rope)}
  {
    var none: seq<Direction> := [];
    assert none[..0] == none;
  }

  /** The starting position is always counted, and each move adds at most one position. */
  lemma {:induction false} VisitedBounds(rope: seq<Pos>, moves: seq<Direction>)
    requires rope != []
    ensures Last(rope) in Visited(rope, moves)
    ensures 1 <= |Visited(rope, moves)| <= |moves| + 1
    decreases |moves|
  {
    if moves == [] {
      VisitedStart(rope);
    } else {
      var init := moves[..|moves| - 1];
      VisitedBounds(rope, init);
      assert init + [moves[|moves| - 1]] == moves;
      VisitedExtend(rope, init, moves[|moves| - 1]);
    }
  }

  lemma MovesSnoc(commands: seq<Command>, c: Command)
    ensures Moves(commands + [c]) == Moves(commands) + Repeat(c.direction, c.count)
  {
    assert (commands + [c])[..|commands|] == commands;
  }

  lemma RepeatSnoc(d: Direction, n: nat)
    ensures Repeat(d, n + 1) == Repeat(d, n) + [d]
  {
  }

  // ---------------------------------------------------------------------------
  // The input and the two simulations.

  /** Every line is a command `from_str` reads; a line it refuses would make the
      `unwrap` panic. */
  predicate ValidInput(input: string) {
    var lines := Text.Lines(input);
    forall i :: 0 <= i < |lines| ==> Readable(lines[i]) && ParseCommand(lines[i]).Ok?
  }

  function Commands(input: string): (commands: seq<Command>)
    requires ValidInput(input)
    ensures |commands| == |Text.Lines(input)|
    ensures forall i :: 0 <= i < |commands| ==>
      commands[i] == ParseCommand(Text.Lines(input)[i]).value
  {
    var lines := Text.Lines(input);
    seq(|lines|, i requires 0 <= i < |lines| => ParseCommand(lines[i]).value)
  }

  const Origin: Pos := (0, 0)

  /** `part1`: the commands of the input's lines, then the two-knot simulation. */
  method Part1(input: string) returns (answer: nat)
    requires ValidInput(input)
    ensures answer == |Visited([Origin, Origin], Moves(Commands(input)))|
  {
    answer := TailVisits(Commands(input));
  }

  /** The loops of `part1`: a head and a tail, both at the origin; after every unit move
      of the head the tail follows and its position is recorded. */
  method TailVisits(commands: seq<Command>) returns (answer: nat)
    ensures answer == |Visited([Origin, Origin], Moves(commands))|
  {
    ghost var rope0 := [Origin, Origin];
    var visited: set<Pos> := {};
    var head: Pos := Origin;
    var tail: Pos := Origin;
    visited := visited + {tail};
    VisitedStart(rope0);
    ghost var done: seq<Direction> := [];
    var i := 0;
    while i < |commands|
      invariant i <= |commands|
      invariant done == Moves(commands[..i])
      invariant [head, tail] == After(rope0, done)
      invariant visited == Visited(rope0, done)
    {
      var c := commands[i];
      head, tail, visited := TailCommand(head, tail, visited, c, rope0, done);
      done := done + Repeat(c.direction, c.count);
      TakeOneMore(commands, i);
      MovesSnoc(commands[..i], c);
      i := i + 1;
    }
    assert commands[..i] == commands;
    answer := |visited|;
  }

  lemma TakeOneMore<T>(s: seq<T>, i: nat)
    requires i < |s|
    ensures s[..i + 1] == s[..i] + [s[i]]
  {
  }

  /** The inner loop of `part1`: the command's unit moves, each followed by the tail,
      whose position is recorded. */
  method TailCommand(head: Pos, tail: Pos, visited: set<Pos>, c: Command,
                     ghost rope0: seq<Pos>, ghost done: seq<Direction>)
      returns (head': Pos, tail': Pos, visited': set<Pos>)
    requires rope0 != [] && [head, tail] == After(rope0, done) && visited == Visited(rope0, done)
    ensures [head', tail'] == After(rope0, done + Repeat(c.direction, c.count))
    ensures visited' == Visited(rope0, done + Repeat(c.direction, c.count))
  {
    head', tail', visited' := head, tail, visited;
    ghost var moved := done;
    var j := 0;
    while j < c.count
      invariant j <= c.count
      invariant moved == done + Repeat(c.direction, j)
      invariant [head', tail'] == After(rope0, moved)
      invariant visited' == Visited(rope0, moved)
    {
      StepPair(head', tail', c.direction);
      head' := Step(head', c.direction);
      tail' := MoveKnot(head', tail');
      visited' := visited' + {tail'};
      AfterSnoc(rope0, moved, c.direction);
      VisitedExtend(rope0, moved, c.direction);
      RepeatSnoc(c.direction, j);
      moved := moved + [c.direction];
      j := j + 1;
    }
  }

  /** A unit move of a two-knot rope: the head steps and the tail follows it. */
  lemma StepPair(head: Pos, tail: Pos, d: Direction)
    ensures StepRope([head, tail], d) == [Step(head, d), MoveKnot(Step(head, d), tail)]
    ensures Last([Step(head, d), MoveKnot(Step(head, d), tail)]) == MoveKnot(Step(head, d), tail)
  {
    assert [head, tail][1..] == [tail];
  }

  /** The ten knots of `part2`, all at the origin. */
  function Start10(): (r: seq<Pos>)
    ensures |r| == 10
  {
    seq(10, _ => Origin)
  }

  /** The inner loop of `part2`: knots 1 to 9 follow in order, in place. */
  method FollowInPlace(rope: array<Pos>)
    requires rope.Length >= 1
    modifies rope
    ensures rope[..] == [old(rope[0])] + Follow(old(rope[0]), old(rope[1..]))
  {
    ghost var r0 := rope[..];
    ghost var goal := [r0[0]] + Follow(r0[0], r0[1..]);
    var i := 1;
    while i < rope.Length
      invariant 1 <= i <= rope.Length
      invariant rope[..i] == goal[..i]
      invariant rope[i..] == r0[i..]
    {
      assert goal[i] == MoveKnot(goal[i - 1], r0[i]);
      assert rope[i - 1] == goal[i - 1] && rope[i] == r0[i];
      rope[i] := MoveKnot(rope[i - 1], rope[i]);
      assert rope[..i + 1] == rope[..i] + [rope[i]];
      assert goal[..i + 1] == goal[..i] + [goal[i]];
      assert rope[i + 1..] == r0[i + 1..];
      i := i + 1;
    }
    assert rope[..] == rope[..i];
    assert goal[..] == goal[..i];
  }

  /** One unit move of `part2`: the head steps, then the knots follow it. */
  method StepInPlace(rope: array<Pos>, d: Direction)
    requires rope.Length >= 1
    modifies rope
    ensures rope[..] == StepRope(old(rope[..]), d)
  {
    ghost var before := rope[..];
    rope[0] := Step(rope[0], d);
    assert rope[1..] == before[1..];
    FollowInPlace(rope);
  }

  /** `part2`: the same for a rope of ten knots. */
  method Part2(input: string) returns (answer: nat)
    requires ValidInput(input)
    ensures answer == |Visited(Start10(), Moves(Commands(input)))|
  {
    answer := KnotVisits(Commands(input));
  }

  /** The loops of `part2`: the ten knots are kept in a vector updated in place. */
  method KnotVisits(commands: seq<Command>) returns (answer: nat)
    ensures answer == |Visited(Start10(), Moves(commands))|
  {
    ghost var rope0 := Start10();
    var visited: set<Pos> := {};
    var rope := new Pos[10](_ => Origin);
    assert rope[..] == rope0;
    visited := visited + {rope[9]};
    VisitedStart(rope0);
    ghost var done: seq<Direction> := [];
    var i := 0;
    while i < |commands|
      invariant i <= |commands|
      invariant done == Moves(commands[..i])
      invariant rope[..] == After(rope0, done)
      invariant visited == Visited(rope0, done)
    {
      var c := commands[i];
      visited := RopeCommand(rope, visited, c, rope0, done);
      done := done + Repeat(c.direction, c.count);
      TakeOneMore(commands, i);
      MovesSnoc(commands[..i], c);
      i := i + 1;
    }
    assert commands[..i] == commands;
    answer := |visited|;
  }

  /** The middle loop of `part2`: the command's unit moves of the ten-knot rope, each
      followed by recording the last knot. */
  method RopeCommand(rope: array<Pos>, visited: set<Pos>, c: Command,
                     ghost rope0: seq<Pos>, ghost done: seq<Direction>)
      returns (visited': set<Pos>)
    requires rope0 != [] && rope.Length == 10
    requires rope[..] == After(rope0, done) && visited == Visited(rope0, done)
    modifies rope
    ensures rope[..] == After(rope0, done + Repeat(c.direction, c.count))
    ensures visited' == Visited(rope0, done + Repeat(c.direction, c.count))
  {
    visited' := visited;
    ghost var moved := done;
    var j := 0;
    while j < c.count
      invariant j <= c.count
      invariant moved == done + Repeat(c.direction, j)
      invariant rope[..] == After(rope0, moved)
      invariant visited' == Visited(rope0, moved)
    {
      StepInPlace(rope, c.direction);
      visited' := visited' + {rope[9]};
      AfterSnoc(rope0, moved, c.direction);
      VisitedExtend(rope0, moved, c.direction);
      RepeatSnoc(c.direction, j);
      moved := moved + [c.direction];
      j := j + 1;
    }
  }
}

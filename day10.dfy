/** Day 10, "Cathode-Ray Tube" (day10/src/lib.rs): a CPU with one register X runs
    `noop` (one cycle) and `addx` (two cycles, then X changes). The trace holds X during
    every cycle; part 1 adds up signal strengths at cycles 20, 60, 100, ..., part 2
    draws a 40 by 6 screen where a pixel is lit when the sprite at X covers it. */
module Day10 {
  import opened Wrappers
  import Parsing
  import Text

  datatype Op = Noop | Addx

  /** A `noop` always carries the argument 0. */
  datatype Command = Command(operation: Op, arg: int)

  // ---------------------------------------------------------------------------
  // `Command::from_str`.

  const MinArg: int := -0x8000_0000
  const MaxArg: int := 0x7FFF_FFFF

  /** A line `from_str` reads without panicking: a first word and, after "addx", a
      second word that `parse::<i32>` accepts. */
  predicate Readable(line: string) {
    var parts := Text.Words(line);
    parts != []
    && (parts[0] == "addx" ==>
          |parts| >= 2 && Parsing.ParseSigned(parts[1]).Some?
          && MinArg <= Parsing.ParseSigned(parts[1]).value <= MaxArg)
  }

  function ParseCommand(line: string): (r: Result<Command, string>)
    requires Readable(line)
    ensures r.Ok? <==> Text.Words(line)[0] == "noop" || Text.Words(line)[0] == "addx"
    ensures r.Err? ==> r.error == "Unknown direction"
    ensures r.Ok? && r.value.operation == Noop ==> r.value.arg == 0
    ensures r.Ok? ==> MinArg <= r.value.arg <= MaxArg
  {
    var parts := Text.Words(line);
    if parts[0] == "noop" then Ok(Command(Noop, 0))
    else if parts[0] == "addx" then Ok(Command(Addx, Parsing.ParseSigned(parts[1]).value))
    else Err("Unknown direction")
  }

  /** A command as the puzzle input writes it. */
  function ShowCommand(c: Command): string {
    match c.operation
    case Noop => "noop"
    case Addx => "addx " + Parsing.ShowInt(c.arg)
  }

  lemma ShowIntIsWord(i: int)
    ensures Text.IsWord(Parsing.ShowInt(i))
  {
    var s := Parsing.ShowInt(i);
    var d := Parsing.Show(if i < 0 then -i else i);
    assert forall k :: 0 <= k < |d| ==> Parsing.IsDigit(d[k]);
    forall k | 0 <= k < |s| ensures !Text.IsWhitespace(s[k]) {
      if i < 0 {
        assert s == "-" + d;
        if k > 0 {
          assert s[k] == d[k - 1];
        }
      }
    }
  }

  /** `from_str` reads back every command with an `i32` argument (0 for `noop`). */
  lemma ParseShowCommand(c: Command)
    requires MinArg <= c.arg <= MaxArg
    requires c.operation == Noop ==> c.arg == 0
    ensures Readable(ShowCommand(c)) && ParseCommand(ShowCommand(c)) == Ok(c)
  {
    match c.operation
    case Noop =>
      assert Text.IsWord("noop");
      assert Text.UnWords(["noop"]) == "noop";
      Text.WordsUnWords(["noop"]);
    case Addx =>
      var n := Parsing.ShowInt(c.arg);
      assert Text.IsWord("addx");
      ShowIntIsWord(c.arg);
      assert Text.UnWords(["addx", n]) == ShowCommand(c);
      Text.WordsUnWords(["addx", n]);
      Parsing.ParseSignedShow(c.arg);
  }

  /** Every line is a command `from_str` reads; a line it refuses would make the
      `unwrap` panic. */
  predicate ValidInput(input: string) {
    var lines := Text.Lines(input);
    forall i :: 0 <= i < |lines| ==> Readable(lines[i]) && ParseCommand(lines[i]).Ok?
  }

  function Commands(input: string): (commands: seq<Command>)
    requires ValidInput(input)
    ensures |commands| == |Text.Lines(input)|
    ensures forall i :: 0 <= i < |commands| ==>
      commands[i] == ParseCommand(Text.Lines(input)[i]).value
  {
    var lines := Text.Lines(input);
    seq(|lines|, i requires 0 <= i < |lines| => ParseCommand(lines[i]).value)
  }

  // ---------------------------------------------------------------------------
  // The cycle trace.

  /** The cycles a command takes. */
  function Cycles(c: Command): nat {
    match c.operation
    case Noop => 1
    case Addx => 2
  }

  /** What a command adds to X once it has finished. */
  function Delta(c: Command): int {
    match c.operation
    case Noop => 0
    case Addx => c.arg
  }

  /** X during each cycle of `commands`, X being `x` when they start. */
  function Run(commands: seq<Command>, x: int): seq<int>
    decreases |commands|
  {
    if commands == [] then []
    else
      var c := commands[0];
      (match c.operation case Noop => [x] case Addx => [x, x]) + Run(commands[1..], x + Delta(c))
  }

  /** The number of cycles of all the commands. */
  function CycleCount(commands: seq<Command>): nat
    decreases |commands|
  {
    if commands == [] then 0 else Cycles(commands[0]) + CycleCount(commands[1..])
  }

  /** The number of `noop`s and of `addx`s. */
  function NoopCount(commands: seq<Command>): nat
    decreases |commands|
  {
    if commands == [] then 0
    else (if commands[0].operation == Noop then 1 else 0) + NoopCount(commands[1..])
  }

  function AddxCount(commands: seq<Command>): nat
    decreases |commands|
  {
    if commands == [] then 0
    else (if commands[0].operation == Addx then 1 else 0) + AddxCount(commands[1..])
  }

  /** X after the commands, starting from `x`. */
  function Register(commands: seq<Command>, x: int): int
    decreases |commands|
  {
    if commands == [] then x else Register(commands[1..], x + Delta(commands[0]))
  }

  /** The trace has one entry per `noop` and two per `addx`. */
  lemma {:induction false} RunLength(commands: seq<Command>, x: int)
    ensures |Run(commands, x)| == CycleCount(commands) == NoopCount(commands) + 2 * AddxCount(commands)
    decreases |commands|
  {
    if commands != [] {
      RunLength(commands[1..], x + Delta(commands[0]));
    }
  }

  /** During every cycle of command `j`, the trace holds X as the commands before `j`
      left it: entry `k` is X during cycle `k + 1`. */
  lemma {:induction false} RunAt(commands: seq<Command>, x: int, j: nat, t: nat)
    requires j < |commands| && t < Cycles(commands[j])
    ensures CycleCount(commands[..j]) + t < |Run(commands, x)|
    ensures Run(commands, x)[CycleCount(commands[..j]) + t] == Register(commands[..j], x)
    decreases j
  {
    var c := commands[0];
    var head: seq<int> := match c.operation case Noop => [x] case Addx => [x, x];
    var rest := commands[1..];
    RunLength(rest, x + Delta(c));
    if j > 0 {
      RunAt(rest, x + Delta(c), j - 1, t);
      assert commands[..j][1..] == rest[..j - 1];
      assert commands[..j][0] == c;
    }
  }

  /** `part1`/`part2`'s first loop: one entry for `noop`, two for `addx`, then X moves. */
  method Trace(commands: seq<Command>) returns (signalStrengths: seq<int>)
    ensures signalStrengths == Run(commands, 1)
  {
    signalStrengths := [];
    var xRegister := 1;
    var i := 0;
    while i < |commands|
      invariant i <= |commands|
      invariant signalStrengths + Run(commands[i..], xRegister) == Run(commands, 1)
    {
      var command := commands[i];
      assert commands[i..][1..] == commands[i + 1..];
      match command.operation {
        case Addx =>
          signalStrengths := signalStrengths + [xRegister];
          signalStrengths := signalStrengths + [xRegister];
          xRegister := xRegister + command.arg;
        case Noop =>
          signalStrengths := signalStrengths + [xRegister];
      }
      i := i + 1;
    }
    assert commands[i..] == [];
  }

  // ---------------------------------------------------------------------------
  // Part 1: signal strengths.

  /** `i * trace[i - 1]` for `i`, `i + 40`, `i + 80`, ... as long as `i` is below the
      trace's length. */
  function SignalFrom(trace: seq<int>, i: nat): int
    requires i >= 1
    decreases |trace| - i
  {
    if i < |trace| then i * trace[i - 1] + SignalFrom(trace, i + 40) else 0
  }

  /** `part1`'s second loop. */
  method SignalSum(signalStrengths: seq<int>) returns (sum: int)
    ensures sum == SignalFrom(signalStrengths, 20)
  {
    var i := 20;
    sum := 0;
    while i < |signalStrengths|
      invariant i >= 20
      invariant sum + SignalFrom(signalStrengths, i) == SignalFrom(signalStrengths, 20)
      decreases |signalStrengths| - i
    {
      sum := sum + i * signalStrengths[i - 1];
      i := i + 40;
    }
  }

  /** The strengths read only the trace's length and its entries 19, 59, 99, ... */
  lemma {:induction false} SignalReadsSamplePoints(t: seq<int>, u: seq<int>, i: nat)
    requires i >= 1 && |t| == |u|
    requires forall k: nat :: i + 40 * k < |t| ==> t[i + 40 * k - 1] == u[i + 40 * k - 1]
    ensures SignalFrom(t, i) == SignalFrom(u, i)
    decreases |t| - i
  {
    if i < |t| {
      assert t[i + 40 * 0 - 1] == u[i + 40 * 0 - 1];
      forall k: nat | i + 40 + 40 * k < |t|
        ensures t[i + 40 + 40 * k - 1] == u[i + 40 + 40 * k - 1]
      {
        assert i + 40 * (k + 1) == i + 40 + 40 * k;
      }
      SignalReadsSamplePoints(t, u, i + 40);
    }
  }

  /** A trace of 20 cycles or fewer has no signal strength at all: cycle 20 counts only
      when the trace is longer than 20. */
  lemma ShortTrace(t: seq<int>)
    requires |t| <= 20
    ensures SignalFrom(t, 20) == 0
  {
  }

  method Part1(input: string) returns (answer: int)
    requires ValidInput(input)
    ensures answer == SignalFrom(Run(Commands(input), 1), 20)
  {
    var signalStrengths := Trace(Commands(input));
    answer := SignalSum(signalStrengths);
  }

  // ---------------------------------------------------------------------------
  // Part 2: the screen.

  /** The pixel in column `col` is lit when the three-wide sprite centred at `sprite`
      covers it. */
  function Pixel(sprite: int, col: int): char {
    if sprite - 1 <= col <= sprite + 1 then '#' else '.'
  }

  lemma PixelLit(sprite: int, col: int)
    ensures Pixel(sprite, col) == '#' <==> -1 <= sprite - col <= 1
    ensures Pixel(sprite, col) == '#' || Pixel(sprite, col) == '.'
  {
  }

  const Width: nat := 40
  const Height: nat := 6

  /** The first `n` pixels of row `c`. */
  function RowPrefix(trace: seq<int>, c: nat, n: nat): (r: string)
    requires c < Height && n <= Width && |trace| >= Width * Height
    ensures |r| == n
  {
    if n == 0 then [] else RowPrefix(trace, c, n - 1) + [Pixel(trace[Width * c + (n - 1)], n - 1)]
  }

  /** The first `c` rows, each ended by a line break. */
  function Rows(trace: seq<int>, c: nat): (r: string)
    requires c <= Height && |trace| >= Width * Height
    ensures |r| == (Width + 1) * c
  {
    if c == 0 then [] else Rows(trace, c - 1) + RowPrefix(trace, c - 1, Width) + "\n"
  }

  function Screen(trace: seq<int>): string
    requires |trace| >= Width * Height
  {
    Rows(trace, Height)
  }

  lemma {:induction false} RowPrefixAt(trace: seq<int>, c: nat, n: nat, i: nat)
    requires c < Height && i < n <= Width && |trace| >= Width * Height
    ensures RowPrefix(trace, c, n)[i] == Pixel(trace[Width * c + i], i)
  {
    if i < n - 1 {
      RowPrefixAt(trace, c, n - 1, i);
    }
  }

  lemma {:induction false} RowsAt(trace: seq<int>, rows: nat, c: nat, i: nat)
    requires c < rows <= Height && i <= Width && |trace| >= Width * Height
    ensures (Width + 1) * c + i < |Rows(trace, rows)|
    ensures Rows(trace, rows)[(Width + 1) * c + i]
         == if i == Width then '\n' else Pixel(trace[Width * c + i], i)
  {
    var prev := Rows(trace, rows - 1);
    var row := RowPrefix(trace, rows - 1, Width);
    assert Rows(trace, rows) == prev + row + "\n";
    if c < rows - 1 {
      RowsAt(trace, rows - 1, c, i);
    } else {
      assert |prev| == (Width + 1) * c;
      if i < Width {
        RowPrefixAt(trace, c, Width, i);
      }
    }
  }

  /** The screen is 6 lines of 40 pixels and a line break, 246 characters; character
      `41 * c + i` is row `c`'s pixel `i`, lit exactly when the sprite X during cycle
      `40 * c + i + 1` covers column `i`. */
  lemma ScreenLayout(trace: seq<int>, c: nat, i: nat)
    requires |trace| >= 240 && c < 6 && i <= 40
    ensures |Screen(trace)| == 246
    ensures Screen(trace)[41 * c + i] == '\n' <==> i == 40
    ensures i < 40 ==> (Screen(trace)[41 * c + i] == '#' <==> -1 <= trace[40 * c + i] - i <= 1)
  {
    RowsAt(trace, Height, c, i);
    if i < 40 {
      PixelLit(trace[40 * c + i], i);
    }
  }

  /** `part2`'s drawing loops: six rows of forty pixels, each row ended by '\n'. */
  method Draw(signalStrengths: seq<int>) returns (screen: string)
    requires |signalStrengths| >= 240
    ensures screen == Screen(signalStrengths)
  {
    screen := [];
    var c := 0;
    while c < 6
      invariant c <= 6
      invariant screen == Rows(signalStrengths, c)
    {
      var i := 0;
      while i < 40
        invariant i <= 40
        invariant screen == Rows(signalStrengths, c) + RowPrefix(signalStrengths, c, i)
      {
        var spritePosition := signalStrengths[40 * c + i];
        if spritePosition - 1 <= i <= spritePosition + 1 {
          screen := screen + ['#'];
        } else {
          screen := screen + ['.'];
        }
        i := i + 1;
      }
      screen := screen + ['\n'];
      c := c + 1;
    }
  }

  method Part2(input: string) returns (screen: string)
    requires ValidInput(input) && |Run(Commands(input), 1)| >= 240
    ensures screen == Screen(Run(Commands(input), 1))
  {
    var signalStrengths := Trace(Commands(input));
    screen := Draw(signalStrengths);
  }
}

/** Day 8, "Treetop Tree House" (day8/src/lib.rs): a grid of tree heights, one digit
    per tree. Part 1 counts the trees visible from outside the grid, part 2 finds the
    highest scenic score, the product of the viewing distances in the four directions.
    Both parts take `map.len()`, the number of rows, as the bound of both axes. */
module Day8 {
  import Parsing
  import Text

  /** Tree heights by row, then column (the source's `map`). */
  type Map = seq<seq<nat>>

  /** Every row holds at least `w` trees. */
  predicate Wide(heights: Map, w: int) {
    forall r :: 0 <= r < |heights| ==> |heights[r]| >= w
  }

  // ---------------------------------------------------------------------------
  // Reading the grid: `c.to_digit(10).unwrap()` for every character of every line.

  predicate ValidInput(input: string) {
    var lines := Text.Lines(input);
    forall r, c :: 0 <= r < |lines| && 0 <= c < |lines[r]| ==> Parsing.IsDigit(lines[r][c])
  }

  function Grid(input: string): (heights: Map)
    requires ValidInput(input)
    ensures |heights| == |Text.Lines(input)|
    ensures forall r :: 0 <= r < |heights| ==> |heights[r]| == |Text.Lines(input)[r]|
    ensures forall r, c :: 0 <= r < |heights| && 0 <= c < |heights[r]| ==>
      heights[r][c] < 10 && heights[r][c] == Parsing.DigitValue(Text.Lines(input)[r][c])
  {
    var lines := Text.Lines(input);
    seq(|lines|, r requires 0 <= r < |lines| =>
      seq(|lines[r]|, c requires 0 <= c < |lines[r]| => Parsing.DigitValue(lines[r][c])))
  }

  /** A row of heights written as digits. */
  function ShowRow(row: seq<nat>): (s: string)
    requires forall c :: 0 <= c < |row| ==> row[c] < 10
    ensures |s| == |row|
    ensures forall c :: 0 <= c < |row| ==> Parsing.IsDigit(s[c]) && Parsing.DigitValue(s[c]) == row[c]
  {
    seq(|row|, c requires 0 <= c < |row| => Parsing.DigitChar(row[c]))
  }

  /** Every height is a single digit. */
  predicate Digits(heights: Map) {
    forall r, c :: 0 <= r < |heights| && 0 <= c < |heights[r]| ==> heights[r][c] < 10
  }

  /** The grid written one row per line. */
  function ShowGrid(heights: Map): (s: string)
    requires Digits(heights)
  {
    Text.UnLines(seq(|heights|, r requires 0 <= r < |heights| => ShowRow(heights[r])))
  }

  /** Reading a printed grid gives the heights back, when the last row is not empty
      (`lines` drops a final empty line). */
  lemma GridShow(heights: Map)
    requires Digits(heights)
    requires heights != [] ==> heights[|heights| - 1] != []
    ensures ValidInput(ShowGrid(heights)) && Grid(ShowGrid(heights)) == heights
  {
    var ls := seq(|heights|, r requires 0 <= r < |heights| => ShowRow(heights[r]));
    forall r | 0 <= r < |ls|
      ensures '\n' !in ls[r] && !Text.EndsInCarriageReturn(ls[r])
    {
      forall c | 0 <= c < |ls[r]| ensures ls[r][c] != '\n' && ls[r][c] != '\r' {
        assert Parsing.IsDigit(ls[r][c]);
      }
    }
    Text.LinesUnLines(ls);
    assert Text.Lines(ShowGrid(heights)) == ls;
    var g := Grid(ShowGrid(heights));
    assert |g| == |heights|;
    forall r | 0 <= r < |g| ensures g[r] == heights[r] {
      assert |g[r]| == |heights[r]|;
    }
  }

  // ---------------------------------------------------------------------------
  // `visible`.

  /** On the outer ring of an `n` by `n` grid. */
  predicate Border(n: nat, i: nat, j: nat) {
    i == 0 || j == 0 || j == n - 1 || i == n - 1
  }

  predicate AllBelow(h: nat, trees: seq<nat>) {
    forall k :: 0 <= k < |trees| ==> trees[k] < h
  }

  /** Column `j` of rows `lo` to `hi - 1`. */
  function Column(heights: Map, j: nat, lo: nat, hi: nat): (col: seq<nat>)
    requires lo <= hi <= |heights| && forall r :: lo <= r < hi ==> j < |heights[r]|
    ensures |col| == hi - lo
  {
    seq(hi - lo, k requires 0 <= k < hi - lo => heights[lo + k][j])
  }

  /** A border tree is visible; an inner tree is visible when it is strictly taller
      than every tree above it, below it, left of it or right of it (to the end of its
      row). Inner trees need column `j` in every row. */
  predicate Visible(heights: Map, i: nat, j: nat)
    requires i < |heights| && j < |heights|
    requires !Border(|heights|, i, j) ==> Wide(heights, j + 1)
  {
    var n := |heights|;
    Border(n, i, j)
    || (var h := heights[i][j];
        AllBelow(h, Column(heights, j, 0, i)) || AllBelow(h, Column(heights, j, i + 1, n))
        || AllBelow(h, heights[i][..j]) || AllBelow(h, heights[i][j + 1..]))
  }

  // ---------------------------------------------------------------------------
  // Lines of sight.

  datatype Direction = Up | Down | Left | Right

  /** The trees seen from (i, j) looking in direction `d`, nearest first, up to the
      edge of the `n` by `n` grid (`n` the number of rows). */
  function Ray(heights: Map, i: nat, j: nat, d: Direction): (ray: seq<nat>)
    requires i < |heights| && j < |heights| && Wide(heights, |heights|)
    ensures |ray| == match d case Up => i case Down => |heights| - 1 - i
                             case Left => j case Right => |heights| - 1 - j
  {
    var n := |heights|;
    match d
    case Up => seq(i, k requires 0 <= k < i => heights[i - 1 - k][j])
    case Down => seq(n - 1 - i, k requires 0 <= k < n - 1 - i => heights[i + 1 + k][j])
    case Left => seq(j, k requires 0 <= k < j => heights[i][j - 1 - k])
    case Right => seq(n - 1 - j, k requires 0 <= k < n - 1 - j => heights[i][j + 1 + k])
  }

  lemma AllBelowReversed(h: nat, s: seq<nat>, t: seq<nat>)
    requires |s| == |t| && forall k :: 0 <= k < |t| ==> t[k] == s[|s| - 1 - k]
    ensures AllBelow(h, s) <==> AllBelow(h, t)
  {
    if AllBelow(h, s) {
      forall k | 0 <= k < |t| ensures t[k] < h {
        assert t[k] == s[|s| - 1 - k];
      }
    }
    if AllBelow(h, t) {
      forall k | 0 <= k < |s| ensures s[k] < h {
        assert s[k] == t[|s| - 1 - k];
      }
    }
  }

  /** On a square grid a tree is visible exactly when it is on the border or some line
      of sight holds only strictly lower trees. */
  lemma VisibleIffClearRay(heights: Map, i: nat, j: nat)
    requires i < |heights| && j < |heights| && forall r :: 0 <= r < |heights| ==> |heights[r]| == |heights|
    ensures Visible(heights, i, j) <==>
      Border(|heights|, i, j) || exists d: Direction :: AllBelow(heights[i][j], Ray(heights, i, j, d))
  {
    var n := |heights|;
    var h := heights[i][j];
    AllBelowReversed(h, Column(heights, j, 0, i), Ray(heights, i, j, Up));
    assert Column(heights, j, i + 1, n) == Ray(heights, i, j, Down);
    AllBelowReversed(h, heights[i][..j], Ray(heights, i, j, Left));
    assert heights[i][j + 1..] == Ray(heights, i, j, Right);
  }

  // ---------------------------------------------------------------------------
  // `scenic_score`.

  /** `r` is the viewing distance over `trees` from a tree house `h` tall: the trees
      before the `r`-th are all lower, and the `r`-th is the last tree or at least `h`
      tall; an empty line of sight has distance 0. */
  predicate Sees(h: nat, trees: seq<nat>, r: nat) {
    r <= |trees| && (trees != [] ==> r >= 1)
    && (forall k :: 0 <= k < r - 1 ==> trees[k] < h)
    && (r < |trees| ==> trees[r - 1] >= h)
  }

  /** The viewing distance: the trees up to and including the first one at least `h`
      tall, or all of them when there is none. */
  function ViewDistance(h: nat, trees: seq<nat>): (r: nat)
    ensures r <= |trees|
    decreases |trees|
  {
    if trees == [] then 0
    else if trees[0] >= h then 1
    else 1 + ViewDistance(h, trees[1..])
  }

  lemma {:induction false} ViewDistanceSees(h: nat, trees: seq<nat>)
    ensures Sees(h, trees, ViewDistance(h, trees))
    decreases |trees|
  {
    if trees != [] && trees[0] < h {
      var rest := trees[1..];
      ViewDistanceSees(h, rest);
      var r := ViewDistance(h, trees);
      forall k | 0 <= k < r - 1 ensures trees[k] < h {
        if k > 0 {
          assert trees[k] == rest[k - 1];
        }
      }
      if r < |trees| {
        assert trees[r - 1] == rest[r - 2];
      }
    }
  }

  /** Only the viewing distance meets `Sees`. */
  lemma SeesUnique(h: nat, trees: seq<nat>, r: nat)
    requires Sees(h, trees, r)
    ensures ViewDistance(h, trees) == r
  {
    ViewDistanceSees(h, trees);
  }

  /** A line of sight is clear exactly when the view reaches the edge and the tree at
      the edge is lower. */
  lemma ClearRay(h: nat, trees: seq<nat>)
    ensures AllBelow(h, trees) <==>
      ViewDistance(h, trees) == |trees| && (trees == [] || trees[|trees| - 1] < h)
  {
    var r := ViewDistance(h, trees);
    ViewDistanceSees(h, trees);
    if r == |trees| && (trees == [] || trees[|trees| - 1] < h) {
      forall k | 0 <= k < |trees| ensures trees[k] < h {
        if k < r - 1 {
        }
      }
    }
  }

  /** `iter().product()`: the product of all the entries, 1 for none. */
  function Product(xs: seq<nat>): nat
    decreases |xs|
  {
    if xs == [] then 1 else xs[0] * Product(xs[1..])
  }

  /** A product with a zero factor is zero. */
  lemma {:induction false} ProductZero(xs: seq<nat>, k: nat)
    requires k < |xs| && xs[k] == 0
    ensures Product(xs) == 0
    decreases |xs|
  {
    if k > 0 {
      ProductZero(xs[1..], k - 1);
    }
  }

  /** The product grows with each of its factors. */
  lemma {:induction false} ProductMono(xs: seq<nat>, ys: seq<nat>)
    requires |xs| == |ys| && forall k :: 0 <= k < |xs| ==> xs[k] <= ys[k]
    ensures Product(xs) <= Product(ys)
    decreases |xs|
  {
    if xs != [] {
      ProductMono(xs[1..], ys[1..]);
      MulMono(xs[0], ys[0], Product(xs[1..]), Product(ys[1..]));
    }
  }

  lemma MulMono(a: nat, b: nat, c: nat, d: nat)
    requires a <= b && c <= d
    ensures a * c <= b * d
  {
    assert a * c <= b * c;
  }

  /** The four viewing distances, in the order up, down, left, right. */
  function Distances(heights: Map, i: nat, j: nat): (ds: seq<nat>)
    requires i < |heights| && j < |heights| && Wide(heights, |heights|)
    ensures |ds| == 4
  {
    var h := heights[i][j];
    [ViewDistance(h, Ray(heights, i, j, Up)), ViewDistance(h, Ray(heights, i, j, Down)),
     ViewDistance(h, Ray(heights, i, j, Left)), ViewDistance(h, Ray(heights, i, j, Right))]
  }

  /** The scenic score: the product of the four viewing distances. */
  function Score(heights: Map, i: nat, j: nat): nat
    requires i < |heights| && j < |heights| && Wide(heights, |heights|)
  {
    Product(Distances(heights, i, j))
  }

  /** A border tree sees nothing in one direction, so its score is 0. */
  lemma BorderScoreZero(heights: Map, i: nat, j: nat)
    requires i < |heights| && j < |heights| && Wide(heights, |heights|) && Border(|heights|, i, j)
    ensures Score(heights, i, j) == 0
  {
    var n := |heights|;
    var ds := Distances(heights, i, j);
    var k := if i == 0 then 0 else if i == n - 1 then 1 else if j == 0 then 2 else 3;
    ProductZero(ds, k);
  }

  /** Each viewing distance is at most the distance to the edge, so the score is at most
      the product of the four distances to the edges. */
  lemma ScoreBound(heights: Map, i: nat, j: nat)
    requires i < |heights| && j < |heights| && Wide(heights, |heights|)
    ensures Score(heights, i, j) <= Product([i, |heights| - 1 - i, j, |heights| - 1 - j])
  {
    var n := |heights|;
    ProductMono(Distances(heights, i, j), [i, n - 1 - i, j, n - 1 - j]);
  }

  /** `scenic_score`'s upward scan: rows `i - 1` down to 0, counting every tree and
      stopping after the first one at least as tall as the tree house. */
  method ViewUp(heights: Map, i: nat, j: nat) returns (count: nat)
    requires i < |heights| && j < |heights| && Wide(heights, |heights|)
    ensures count == ViewDistance(heights[i][j], Ray(heights, i, j, Up))
  {
    var treehouseHeight := heights[i][j];
    ghost var ray := Ray(heights, i, j, Up);
    count := 0;
    for x := i downto 0
      invariant count == i - x
      invariant forall k :: 0 <= k < count ==> ray[k] < treehouseHeight
    {
      assert ray[i - 1 - x] == heights[x][j];
      if heights[x][j] < treehouseHeight {
        count := count + 1;
      } else if heights[x][j] >= treehouseHeight {
        count := count + 1;
        break;
      }
    }
    SeesUnique(treehouseHeight, ray, count);
  }

  /** The downward scan: rows `i + 1` to `n - 1`. */
  method ViewDown(heights: Map, i: nat, j: nat) returns (count: nat)
    requires i < |heights| && j < |heights| && Wide(heights, |heights|)
    ensures count == ViewDistance(heights[i][j], Ray(heights, i, j, Down))
  {
    var treehouseHeight := heights[i][j];
    ghost var ray := Ray(heights, i, j, Down);
    count := 0;
    for x := i + 1 to |heights|
      invariant count == x - (i + 1)
      invariant forall k :: 0 <= k < count ==> ray[k] < treehouseHeight
    {
      assert ray[x - (i + 1)] == heights[x][j];
      if heights[x][j] < treehouseHeight {
        count := count + 1;
      } else if heights[x][j] >= treehouseHeight {
        count := count + 1;
        break;
      }
    }
    SeesUnique(treehouseHeight, ray, count);
  }

  /** The leftward scan: columns `j - 1` down to 0. */
  method ViewLeft(heights: Map, i: nat, j: nat) returns (count: nat)
    requires i < |heights| && j < |heights| && Wide(heights, |heights|)
    ensures count == ViewDistance(heights[i][j], Ray(heights, i, j, Left))
  {
    var treehouseHeight := heights[i][j];
    ghost var ray := Ray(heights, i, j, Left);
    count := 0;
    for x := j downto 0
      invariant count == j - x
      invariant forall k :: 0 <= k < count ==> ray[k] < treehouseHeight
    {
      assert ray[j - 1 - x] == heights[i][x];
      if heights[i][x] < treehouseHeight {
        count := count + 1;
      } else if heights[i][x] >= treehouseHeight {
        count := count + 1;
        break;
      }
    }
    SeesUnique(treehouseHeight, ray, count);
  }

  /** The rightward scan: columns `j + 1` to `n - 1`, bounded by the number of rows. */
  method ViewRight(heights: Map, i: nat, j: nat) returns (count: nat)
    requires i < |heights| && j < |heights| && Wide(heights, |heights|)
    ensures count == ViewDistance(heights[i][j], Ray(heights, i, j, Right))
  {
    var treehouseHeight := heights[i][j];
    ghost var ray := Ray(heights, i, j, Right);
    count := 0;
    for x := j + 1 to |heights|
      invariant count == x - (j + 1)
      invariant forall k :: 0 <= k < count ==> ray[k] < treehouseHeight
    {
      assert ray[x - (j + 1)] == heights[i][x];
      if heights[i][x] < treehouseHeight {
        count := count + 1;
      } else if heights[i][x] >= treehouseHeight {
        count := count + 1;
        break;
      }
    }
    SeesUnique(treehouseHeight, ray, count);
  }

  /** `scenic_score`: the four scans, multiplied together. */
  method ScenicScore(heights: Map, i: nat, j: nat) returns (score: nat)
    requires i < |heights| && j < |heights| && Wide(heights, |heights|)
    ensures score == Score(heights, i, j)
  {
    var up := ViewUp(heights, i, j);
    var down := ViewDown(heights, i, j);
    var left := ViewLeft(heights, i, j);
    var right := ViewRight(heights, i, j);
    var scores := [up, down, left, right];
    score := Product(scores);
  }

  // ---------------------------------------------------------------------------
  // Part 1: counting visible trees.

  /** The number of visible trees among the first `m` of row `i`. */
  function VisibleInRow(heights: Map, i: nat, m: nat): (count: nat)
    requires i < |heights| && m <= |heights| && Wide(heights, |heights| - 1)
    ensures count <= m
  {
    if m == 0 then 0
    else VisibleInRow(heights, i, m - 1) + (if Visible(heights, i, m - 1) then 1 else 0)
  }

  /** The number of visible trees in the first `r` rows. */
  function VisibleCount(heights: Map, r: nat): (count: nat)
    requires r <= |heights| && Wide(heights, |heights| - 1)
    ensures count <= r * |heights|
  {
    if r == 0 then 0 else VisibleCount(heights, r - 1) + VisibleInRow(heights, r - 1, |heights|)
  }

  /** Every tree of the top and bottom rows is visible. */
  lemma {:induction false} OuterRowVisible(heights: Map, i: nat, m: nat)
    requires (i == 0 || i == |heights| - 1) && i < |heights| && m <= |heights| && Wide(heights, |heights| - 1)
    ensures VisibleInRow(heights, i, m) == m
  {
    if m > 0 {
      OuterRowVisible(heights, i, m - 1);
    }
  }

  /** The first and last tree of every row are visible. */
  lemma {:induction false} InnerRowVisible(heights: Map, i: nat, m: nat)
    requires i < |heights| && 1 <= m <= |heights| && Wide(heights, |heights| - 1)
    ensures VisibleInRow(heights, i, m) >= (if m == |heights| && m >= 2 then 2 else 1)
  {
    if m > 1 {
      InnerRowVisible(heights, i, m - 1);
    }
  }

  /** All trees on the border are visible: at least `4 * (n - 1)` on an `n` by `n`
      grid with `n >= 2`, and at most all `n * n` trees. */
  lemma {:induction false} BorderVisible(heights: Map, r: nat)
    requires 1 <= r <= |heights| && |heights| >= 2 && Wide(heights, |heights| - 1)
    ensures VisibleCount(heights, r) >= |heights| + 2 * (r - 1) + (if r == |heights| then |heights| - 2 else 0)
  {
    var n := |heights|;
    if r == 1 {
      OuterRowVisible(heights, 0, n);
    } else {
      BorderVisible(heights, r - 1);
      if r == n {
        OuterRowVisible(heights, r - 1, n);
      } else {
        InnerRowVisible(heights, r - 1, n);
      }
    }
  }

  lemma VisibleCountBounds(heights: Map)
    requires |heights| >= 2 && Wide(heights, |heights| - 1)
    ensures 4 * (|heights| - 1) <= VisibleCount(heights, |heights|) <= |heights| * |heights|
  {
    BorderVisible(heights, |heights|);
  }

  /** `process_part1`'s nested loops. */
  method CountVisible(heights: Map) returns (total: nat)
    requires Wide(heights, |heights| - 1)
    ensures total == VisibleCount(heights, |heights|)
  {
    total := 0;
    for i := 0 to |heights|
      invariant total == VisibleCount(heights, i)
    {
      for j := 0 to |heights|
        invariant total == VisibleCount(heights, i) + VisibleInRow(heights, i, j)
      {
        if Visible(heights, i, j) {
          total := total + 1;
        }
      }
    }
  }

  /** Rows may be one tree short of the grid's height: the last column is border. */
  method Part1(input: string) returns (answer: nat)
    requires ValidInput(input) && Wide(Grid(input), |Grid(input)| - 1)
    ensures answer == VisibleCount(Grid(input), |Grid(input)|)
  {
    answer := CountVisible(Grid(input));
  }

  // ---------------------------------------------------------------------------
  // Part 2: the highest scenic score.

  /** Every tree's scenic score, by row and column. */
  function Scores(heights: Map): (table: seq<seq<nat>>)
    requires Wide(heights, |heights|)
    ensures |table| == |heights|
    ensures forall i :: 0 <= i < |table| ==> |table[i]| == |heights|
  {
    var n := |heights|;
    seq(n, i requires 0 <= i < n => seq(n, j requires 0 <= j < n => Score(heights, i, j)))
  }

  /** The highest of the first `m` entries of `row`, 0 when there are none. */
  function RowMax(row: seq<nat>, m: nat): nat
    requires m <= |row|
  {
    if m == 0 then 0
    else
      var best := RowMax(row, m - 1);
      if row[m - 1] > best then row[m - 1] else best
  }

  /** The highest entry of the first `r` rows, each `w` long. */
  function TableMax(table: seq<seq<nat>>, r: nat, w: nat): nat
    requires r <= |table| && forall i :: 0 <= i < |table| ==> |table[i]| == w
  {
    if r == 0 then 0
    else
      var best := TableMax(table, r - 1, w);
      var row := RowMax(table[r - 1], w);
      if row > best then row else best
  }

  /** `RowMax` bounds every entry of its range and is one of them, or 0 for none. */
  lemma {:induction false} RowMaxIsMax(row: seq<nat>, m: nat)
    requires m <= |row|
    ensures forall j :: 0 <= j < m ==> row[j] <= RowMax(row, m)
    ensures m == 0 || exists j :: 0 <= j < m && row[j] == RowMax(row, m)
  {
    if m > 0 {
      RowMaxIsMax(row, m - 1);
      if m > 1 && RowMax(row, m) == RowMax(row, m - 1) {
        var j :| 0 <= j < m - 1 && row[j] == RowMax(row, m - 1);
        assert row[j] == RowMax(row, m);
      } else {
        assert row[m - 1] == RowMax(row, m);
      }
    }
  }

  /** `TableMax` bounds every entry of its rows and is one of them, or 0 for none. */
  lemma {:induction false} TableMaxIsMax(table: seq<seq<nat>>, r: nat, w: nat)
    requires r <= |table| && forall i :: 0 <= i < |table| ==> |table[i]| == w
    ensures forall i, j :: 0 <= i < r && 0 <= j < w ==> table[i][j] <= TableMax(table, r, w)
    ensures r == 0 || w == 0 ||
      exists i, j :: 0 <= i < r && 0 <= j < w && table[i][j] == TableMax(table, r, w)
  {
    if r > 0 {
      TableMaxIsMax(table, r - 1, w);
      RowMaxIsMax(table[r - 1], w);
      var best := TableMax(table, r, w);
      forall i, j | 0 <= i < r && 0 <= j < w ensures table[i][j] <= best {
        if i == r - 1 {
          assert table[i][j] <= RowMax(table[r - 1], w);
        }
      }
      if w > 0 {
        if r > 1 && best == TableMax(table, r - 1, w) {
          var i, j :| 0 <= i < r - 1 && 0 <= j < w && table[i][j] == TableMax(table, r - 1, w);
          assert table[i][j] == best;
        } else {
          var row := RowMax(table[r - 1], w);
          var j :| 0 <= j < w && table[r - 1][j] == row;
          assert r == 1 ==> TableMax(table, r - 1, w) == 0;
          assert best == row;
        }
      }
    }
  }

  /** `score` is the highest scenic score of the grid: no tree scores more, and some
      tree scores exactly that (0 for an empty grid). */
  predicate IsHighestScore(heights: Map, score: nat)
    requires Wide(heights, |heights|)
  {
    var n := |heights|;
    (forall i, j :: 0 <= i < n && 0 <= j < n ==> Score(heights, i, j) <= score)
    && (n == 0 ==> score == 0)
    && (n > 0 ==> exists i, j :: 0 <= i < n && 0 <= j < n && Score(heights, i, j) == score)
  }

  /** An entry of the score table is the scenic score of its tree. */
  lemma ScoreEntry(heights: Map, i: nat, j: nat)
    requires Wide(heights, |heights|) && i < |heights| && j < |heights|
    ensures Scores(heights)[i][j] == Score(heights, i, j)
  {
  }

  /** A bound on every table entry bounds every scenic score. */
  lemma ScoresBelow(heights: Map, best: nat)
    requires Wide(heights, |heights|)
    requires forall i, j :: 0 <= i < |heights| && 0 <= j < |heights| ==> Scores(heights)[i][j] <= best
    ensures forall i, j :: 0 <= i < |heights| && 0 <= j < |heights| ==> Score(heights, i, j) <= best
  {
    forall i, j | 0 <= i < |heights| && 0 <= j < |heights| ensures Score(heights, i, j) <= best {
      ScoreEntry(heights, i, j);
    }
  }

  /** A table entry equal to `best` is a tree whose scenic score is `best`. */
  lemma ScoreAttained(heights: Map, best: nat)
    requires Wide(heights, |heights|)
    requires exists i, j :: 0 <= i < |heights| && 0 <= j < |heights| && Scores(heights)[i][j] == best
    ensures exists i, j :: 0 <= i < |heights| && 0 <= j < |heights| && Score(heights, i, j) == best
  {
    var i, j :| 0 <= i < |heights| && 0 <= j < |heights| && Scores(heights)[i][j] == best;
    ScoreEntry(heights, i, j);
  }

  /** `TableMax` over the whole score table is the highest scenic score. */
  lemma TableMaxIsHighest(heights: Map)
    requires Wide(heights, |heights|)
    ensures IsHighestScore(heights, TableMax(Scores(heights), |heights|, |heights|))
  {
    var n := |heights|;
    var table := Scores(heights);
    TableMaxIsMax(table, n, n);
    var best := TableMax(table, n, n);
    ScoresBelow(heights, best);
    if n > 0 {
      ScoreAttained(heights, best);
    }
  }

  /** `process_part2`'s nested loops, keeping the highest score seen so far. */
  method HighestScore(heights: Map) returns (highestScore: nat)
    requires Wide(heights, |heights|)
    ensures IsHighestScore(heights, highestScore)
  {
    ghost var table := Scores(heights);
    highestScore := 0;
    for i := 0 to |heights|
      invariant highestScore == TableMax(table, i, |heights|)
    {
      highestScore := HighestInRow(heights, i, highestScore);
    }
    TableMaxIsHighest(heights);
  }

  /** The inner loop over row `i`, starting from the best score of the earlier rows. */
  method HighestInRow(heights: Map, i: nat, best: nat) returns (highestScore: nat)
    requires i < |heights| && Wide(heights, |heights|)
    ensures var row := RowMax(Scores(heights)[i], |heights|);
      highestScore == if row > best then row else best
  {
    ghost var row := Scores(heights)[i];
    highestScore := best;
    for j := 0 to |heights|
      invariant highestScore == if RowMax(row, j) > best then RowMax(row, j) else best
    {
      var score := ScenicScore(heights, i, j);
      assert score == row[j];
      if score > highestScore {
        highestScore := score;
      }
    }
  }

  method Part2(input: string) returns (answer: nat)
    requires ValidInput(input) && Wide(Grid(input), |Grid(input)|)
    ensures IsHighestScore(Grid(input), answer)
  {
    answer := HighestScore(Grid(input));
  }
}

/** Day 12, "Hill Climbing Algorithm" (day12/src/lib.rs): a grid of letters is read
    as elevations, every cell gets the directed edges to the orthogonal neighbours
    that are at most one unit higher, and a breadth-first search counts the fewest
    steps from a start cell to the goal. Part 1 starts at the 'S' marker; part 2
    takes the least count over every 'S' or 'a' cell. */
module Day12 {
  import opened Wrappers
  import Parsing
  import Text

  // ---------------------------------------------------------------------------
  // Grid parser: `separated_list1(newline, alpha1)`; whatever follows is ignored.

  predicate IsLetterRow(row: string) {
    row != [] && forall i :: 0 <= i < |row| ==> Parsing.IsAlpha(row[i])
  }

  /** `grid`: the first row of letters, then every further row introduced by '\n'. */
  function ParseGrid(s: string): (r: Option<seq<string>>)
    ensures r.Some? <==> s != [] && Parsing.IsAlpha(s[0])
    ensures r.Some? ==> |r.value| >= 1 && forall i :: 0 <= i < |r.value| ==> IsLetterRow(r.value[i])
  {
    match Parsing.Alpha1(s)
    case None => None
    case Some((row, rest)) => Some([row] + MoreRows(rest))
  }

  /** The rows after the first one: a '\n' that is not followed by a letter ends the grid
      and is left unread. */
  function MoreRows(s: string): (rows: seq<string>)
    ensures forall i :: 0 <= i < |rows| ==> IsLetterRow(rows[i])
    decreases |s|
  {
    if s != [] && s[0] == '\n' then
      match Parsing.Alpha1(s[1..])
      case None => []
      case Some((row, rest)) => [row] + MoreRows(rest)
    else []
  }

  /** What may follow the last row without being read as another row. */
  predicate EndsGrid(rest: string) {
    rest == [] || (rest[0] != '\n' && !Parsing.IsAlpha(rest[0]))
    || (rest[0] == '\n' && (|rest| == 1 || !Parsing.IsAlpha(rest[1])))
  }

  lemma {:induction false} MoreRowsOf(rows: seq<string>, rest: string)
    requires forall i :: 0 <= i < |rows| ==> IsLetterRow(rows[i])
    requires EndsGrid(rest)
    ensures MoreRows(Prefixed(rows) + rest) == rows
  {
    if rows != [] {
      FirstRow(rows, rest);
      MoreRowsOf(rows[1..], rest);
    } else {
      assert Prefixed(rows) + rest == rest;
    }
  }

  /** The first of the written rows is read first. */
  lemma FirstRow(rows: seq<string>, rest: string)
    requires rows != [] && IsLetterRow(rows[0]) && EndsGrid(rest)
    ensures MoreRows(Prefixed(rows) + rest) == [rows[0]] + MoreRows(Prefixed(rows[1..]) + rest)
  {
    var tail := Prefixed(rows[1..]) + rest;
    assert Prefixed(rows) + rest == "\n" + rows[0] + tail;
    NoLetterNext(rows[1..], rest);
    OneRow(rows[0], tail);
  }

  /** One row introduced by '\n' and ended by a non-letter is read as a row. */
  lemma OneRow(row: string, tail: string)
    requires IsLetterRow(row)
    requires tail == [] || !Parsing.IsAlpha(tail[0])
    ensures MoreRows("\n" + row + tail) == [row] + MoreRows(tail)
  {
    var text := "\n" + row + tail;
    assert text[1..] == row + tail;
    Parsing.TakeWhile1Of(row, tail, Parsing.IsAlpha);
  }

  /** Each row preceded by '\n'. */
  function Prefixed(rows: seq<string>): string {
    if rows == [] then [] else "\n" + rows[0] + Prefixed(rows[1..])
  }

  /** After a row comes either nothing or a non-letter. */
  lemma NoLetterNext(rows: seq<string>, rest: string)
    requires EndsGrid(rest)
    ensures var tail := Prefixed(rows) + rest; tail == [] || !Parsing.IsAlpha(tail[0])
  {
    if rows != [] {
      assert (Prefixed(rows) + rest)[0] == '\n';
    }
  }

  /** The first row is read up to the first non-letter. */
  lemma GridHead(row: string, tail: string)
    requires IsLetterRow(row)
    requires tail == [] || !Parsing.IsAlpha(tail[0])
    ensures ParseGrid(row + tail) == Some([row] + MoreRows(tail))
  {
    Parsing.TakeWhile1Of(row, tail, Parsing.IsAlpha);
  }

  /** Reading the grid back: rows of letters written one per line are recovered, whatever
      ends the text after them. */
  lemma ParseGridOf(rows: seq<string>, rest: string)
    requires |rows| >= 1 && forall i :: 0 <= i < |rows| ==> IsLetterRow(rows[i])
    requires EndsGrid(rest)
    ensures ParseGrid(rows[0] + (Prefixed(rows[1..]) + rest)) == Some(rows)
  {
    var tail := Prefixed(rows[1..]) + rest;
    NoLetterNext(rows[1..], rest);
    GridHead(rows[0], tail);
    MoreRowsOf(rows[1..], rest);
    assert [rows[0]] + rows[1..] == rows;
  }

  // ---------------------------------------------------------------------------
  // Elevations.

  /** The characters the elevation mapping accepts: lower-case terrain and the markers.
      Any other letter would underflow the `u8` subtraction. */
  predicate IsTerrain(c: char) {
    c == 'S' || c == 'E' || Parsing.IsLower(c)
  }

  /** 'S' is the lowest elevation, 'E' the highest, 'a'..'z' are 1..26. */
  function Elevation(c: char): (h: nat)
    requires IsTerrain(c)
    ensures 1 <= h <= 26
    ensures Parsing.IsLower(c) ==> h == c as int - 'a' as int + 1
    ensures h == 1 <==> c == 'S' || c == 'a'
    ensures h == 26 <==> c == 'E' || c == 'z'
  {
    match c
    case 'S' => 1
    case 'E' => 26
    case _ => c as int - 'a' as int + 1
  }

  predicate AllTerrain(rows: seq<string>) {
    forall i, j :: 0 <= i < |rows| && 0 <= j < |rows[i]| ==> IsTerrain(rows[i][j])
  }

  type Heights = seq<seq<nat>>

  /** The grid of elevations: the same shape as the letters, cell by cell. */
  function HeightsOf(rows: seq<string>): (h: Heights)
    requires AllTerrain(rows)
    ensures |h| == |rows|
    ensures forall i :: 0 <= i < |rows| ==> |h[i]| == |rows[i]|
    ensures forall i, j :: 0 <= i < |rows| && 0 <= j < |rows[i]| ==> h[i][j] == Elevation(rows[i][j])
  {
    seq(|rows|, i requires 0 <= i < |rows| =>
      seq(|rows[i]|, j requires 0 <= j < |rows[i]| => Elevation(rows[i][j])))
  }

  /** Every row as long as the first: graph construction indexes every row with the
      first row's width. */
  predicate IsRectangular<T>(g: seq<seq<T>>) {
    forall i :: 0 <= i < |g| ==> |g[i]| == |g[0]|
  }

  // ---------------------------------------------------------------------------
  // Graph builder.

  /** A node is a position with its elevation, like the source's `Node`. */
  datatype Node = Node(x: int, y: int, height: nat)

  /** Each node with the nodes one admissible step away, in the order found. */
  type Graph = map<Node, seq<Node>>

  /** The elevation at (x, y), when (x, y) lies in the grid. */
  function CellAt(h: Heights, x: int, y: int): (r: Option<nat>)
    ensures r.Some? <==> 0 <= x < |h| && 0 <= y < |h[x]|
  {
    if 0 <= x < |h| && 0 <= y < |h[x]| then Some(h[x][y]) else None
  }

  /** One arm of the neighbour `filter_map`: the cell at (x, y), if there is one and
      it is at most one unit higher than `cur`. */
  function StepTo(h: Heights, cur: Node, x: int, y: int): seq<Node> {
    match CellAt(h, x, y)
    case Some(e) => if cur.height + 1 >= e then [Node(x, y, e)] else []
    case None => []
  }

  /** The outgoing edges of cell (i, j): down, up, right, left, each kept when in the
      grid and not more than one unit higher. */
  function Neighbours(h: Heights, i: int, j: int): seq<Node>
    requires 0 <= i < |h| && 0 <= j < |h[i]|
  {
    var cur := Node(i, j, h[i][j]);
    StepTo(h, cur, i + 1, j) + StepTo(h, cur, i - 1, j)
    + StepTo(h, cur, i, j + 1) + StepTo(h, cur, i, j - 1)
  }

  predicate Adjacent(i: int, j: int, x: int, y: int) {
    (x == i + 1 && y == j) || (x == i - 1 && y == j) || (x == i && y == j + 1) || (x == i && y == j - 1)
  }

  /** The node of the grid cell at its own position. */
  predicate InGrid(h: Heights, n: Node) {
    0 <= n.x < |h| && 0 <= n.y < |h[n.x]| && n.height == h[n.x][n.y]
  }

  /** The climb rule: there is an edge from (i, j) to n exactly when n is an orthogonal
      neighbour inside the grid that is at most one unit higher. */
  lemma EdgeRule(h: Heights, i: int, j: int, n: Node)
    requires 0 <= i < |h| && 0 <= j < |h[i]|
    ensures n in Neighbours(h, i, j) <==>
      Adjacent(i, j, n.x, n.y) && InGrid(h, n) && n.height <= h[i][j] + 1
  {
    var cur := Node(i, j, h[i][j]);
    StepToRule(h, cur, i + 1, j, n);
    StepToRule(h, cur, i - 1, j, n);
    StepToRule(h, cur, i, j + 1, n);
    StepToRule(h, cur, i, j - 1, n);
  }

  lemma StepToRule(h: Heights, cur: Node, x: int, y: int, n: Node)
    ensures n in StepTo(h, cur, x, y) <==> n.x == x && n.y == y && InGrid(h, n) && n.height <= cur.height + 1
  {
  }

  /** No edge leaves the grid: the graph is closed under its edges. */
  lemma EdgeTargetsInGrid(h: Heights, i: int, j: int, n: Node)
    requires 0 <= i < |h| && 0 <= j < |h[i]|
    requires n in Neighbours(h, i, j)
    ensures InGrid(h, n)
  {
    EdgeRule(h, i, j, n);
  }

  /** The rule is directional: two units up is refused while the step back down is
      admitted, and any descent is admitted. */
  lemma ClimbIsDirectional(h: Heights, a: Node, b: Node)
    requires InGrid(h, a) && InGrid(h, b) && Adjacent(a.x, a.y, b.x, b.y)
    ensures b.height == a.height + 2 ==> b !in Neighbours(h, a.x, a.y) && a in Neighbours(h, b.x, b.y)
    ensures b.height <= a.height ==> b in Neighbours(h, a.x, a.y)
  {
    EdgeRule(h, a.x, a.y, b);
    EdgeRule(h, b.x, b.y, a);
  }

  /** The nodes of the grid. */
  function Cells(h: Heights): set<Node> {
    set i, j | 0 <= i < |h| && 0 <= j < |h[i]| :: Node(i, j, h[i][j])
  }

  /** The graph the construction loops build. */
  function GraphOf(h: Heights): (g: Graph)
    ensures forall n :: n in g <==> InGrid(h, n)
  {
    map n | n in Cells(h) :: Neighbours(h, n.x, n.y)
  }

  /** The nested loops that insert each cell's edge list into the graph. */
  method BuildGraph(h: Heights) returns (g: Graph)
    requires IsRectangular(h)
    ensures g == GraphOf(h)
  {
    g := map[];
    assert BuiltUpTo(h, g, 0, 0) by {
      forall n ensures CellBuilt(h, g, 0, 0, n) {
      }
    }
    for i := 0 to |h|
      invariant BuiltUpTo(h, g, i, 0)
    {
      for j := 0 to |h[0]|
        invariant BuiltUpTo(h, g, i, j)
      {
        InsertCell(h, g, i, j);
        g := g[Node(i, j, h[i][j]) := Neighbours(h, i, j)];
      }
      NextRow(h, g, i);
    }
    SameGraph(h, g);
  }

  /** Whether the loops have reached n before column j of row i. */
  predicate Scanned(n: Node, i: int, j: int) {
    n.x < i || (n.x == i && n.y < j)
  }

  /** `g` holds n exactly when n is a grid node already scanned, and then with its edges. */
  ghost predicate CellBuilt(h: Heights, g: Graph, i: int, j: int, n: Node) {
    && (n in g <==> InGrid(h, n) && Scanned(n, i, j))
    && (n in g ==> InGrid(h, n) && g[n] == Neighbours(h, n.x, n.y))
  }

  /** The graph as it stands before column j of row i. */
  ghost predicate BuiltUpTo(h: Heights, g: Graph, i: int, j: int) {
    forall n :: CellBuilt(h, g, i, j, n)
  }

  lemma InsertCell(h: Heights, g: Graph, i: int, j: int)
    requires 0 <= i < |h| && 0 <= j < |h[i]| && BuiltUpTo(h, g, i, j)
    ensures BuiltUpTo(h, g[Node(i, j, h[i][j]) := Neighbours(h, i, j)], i, j + 1)
  {
    var g' := g[Node(i, j, h[i][j]) := Neighbours(h, i, j)];
    var j' := j + 1;
    forall n ensures CellBuilt(h, g', i, j', n) {
      assert CellBuilt(h, g, i, j, n);
    }
  }

  lemma NextRow(h: Heights, g: Graph, i: int)
    requires IsRectangular(h) && 0 <= i < |h| && BuiltUpTo(h, g, i, |h[0]|)
    ensures BuiltUpTo(h, g, i + 1, 0)
  {
    var i' := i + 1;
    forall n ensures CellBuilt(h, g, i', 0, n) {
      assert CellBuilt(h, g, i, |h[0]|, n);
    }
  }

  /** Once every row is scanned, the map is the graph. */
  lemma SameGraph(h: Heights, g: Graph)
    requires BuiltUpTo(h, g, |h|, 0)
    ensures g == GraphOf(h)
  {
    forall n ensures n in g <==> n in GraphOf(h) {
      assert CellBuilt(h, g, |h|, 0, n);
    }
    assert g.Keys == GraphOf(h).Keys;
    forall n | n in g ensures g[n] == GraphOf(h)[n] {
      assert CellBuilt(h, g, |h|, 0, n);
    }
  }

  /** Every edge of a grid graph ends at a node of the graph. */
  predicate Closed(g: Graph) {
    forall n, m :: n in g && m in g[n] ==> m in g
  }

  lemma GraphOfClosed(h: Heights)
    ensures Closed(GraphOf(h))
  {
    var g := GraphOf(h);
    forall n, m | n in g && m in g[n] ensures m in g {
      EdgeTargetsInGrid(h, n.x, n.y, m);
    }
  }

  // ---------------------------------------------------------------------------
  // Shortest paths.

  /** `w` is a walk along edges of `g` from `s` to `t`; it takes |w| - 1 steps. */
  ghost predicate IsPath(g: Graph, w: seq<Node>, s: Node, t: Node) {
    |w| >= 1 && w[0] == s && w[|w| - 1] == t
    && forall k :: 0 <= k < |w| - 1 ==> w[k] in g && w[k + 1] in g[w[k]]
  }

  /** The nodes one edge away from some node of `nodes`. */
  ghost function Successors(g: Graph, nodes: set<Node>): set<Node> {
    set u, v | u in nodes && u in g && v in g[u] :: v
  }

  /** The nodes at most `k` steps from `s`. */
  ghost function Within(g: Graph, s: Node, k: nat): set<Node> {
    if k == 0 then {s} else Within(g, s, k - 1) + Successors(g, Within(g, s, k - 1))
  }

  /** `v` is exactly `d` steps from `s`: within `d` steps and not within fewer. */
  ghost predicate AtDistance(g: Graph, s: Node, v: Node, d: nat) {
    v in Within(g, s, d) && (d > 0 ==> v !in Within(g, s, d - 1))
  }

  /** The fewest steps from `s` to `t`, or None when `t` cannot be reached. */
  ghost function Distance(g: Graph, s: Node, t: Node): Option<nat> {
    if exists d: nat :: AtDistance(g, s, t, d) then
      var d: nat :| AtDistance(g, s, t, d); Some(d)
    else None
  }

  lemma {:induction false} WithinMonotone(g: Graph, s: Node, i: nat, j: nat)
    requires i <= j
    ensures Within(g, s, i) <= Within(g, s, j)
    decreases j
  {
    if i < j {
      WithinMonotone(g, s, i, j - 1);
    }
  }

  lemma AtDistanceUnique(g: Graph, s: Node, v: Node, d1: nat, d2: nat)
    requires AtDistance(g, s, v, d1) && AtDistance(g, s, v, d2)
    ensures d1 == d2
  {
    if d1 < d2 {
      WithinMonotone(g, s, d1, d2 - 1);
    } else if d2 < d1 {
      WithinMonotone(g, s, d2, d1 - 1);
    }
  }

  lemma DistanceIs(g: Graph, s: Node, t: Node, d: nat)
    requires AtDistance(g, s, t, d)
    ensures Distance(g, s, t) == Some(d)
  {
    var d': nat :| AtDistance(g, s, t, d') && Distance(g, s, t) == Some(d');
    AtDistanceUnique(g, s, t, d, d');
  }

  /** A walk of k steps ends within k steps. */
  lemma {:induction false} PathWithin(g: Graph, w: seq<Node>, s: Node, t: Node)
    requires IsPath(g, w, s, t)
    ensures t in Within(g, s, |w| - 1)
    decreases |w|
  {
    if |w| > 1 {
      var u := w[|w| - 2];
      assert IsPath(g, w[..|w| - 1], s, u);
      PathWithin(g, w[..|w| - 1], s, u);
      assert t in Successors(g, Within(g, s, |w| - 2));
    }
  }

  /** Whatever lies within k steps is the end of a walk of at most k steps. */
  lemma {:induction false} WithinPath(g: Graph, s: Node, t: Node, k: nat) returns (w: seq<Node>)
    requires t in Within(g, s, k)
    ensures IsPath(g, w, s, t) && |w| <= k + 1
    decreases k
  {
    if k == 0 {
      w := [s];
    } else if t in Within(g, s, k - 1) {
      w := WithinPath(g, s, t, k - 1);
    } else {
      var u :| u in Within(g, s, k - 1) && u in g && t in g[u];
      var w' := WithinPath(g, s, u, k - 1);
      w := w' + [t];
      assert forall i :: 0 <= i < |w'| ==> w[i] == w'[i];
    }
  }

  /** Everything reachable from `s` stays inside any node set that holds `s` and is
      closed under edges. */
  lemma {:induction false} WithinClosedSet(g: Graph, s: Node, nodes: set<Node>, k: nat)
    requires s in nodes
    requires forall u, v :: u in nodes && u in g && v in g[u] ==> v in nodes
    ensures Within(g, s, k) <= nodes
  {
    if k > 0 {
      WithinClosedSet(g, s, nodes, k - 1);
    }
  }

  /** The meaning of `Distance`: `Some(d)` names a walk of d steps and no shorter one;
      `None` means there is no walk at all. */
  lemma DistanceIsShortestWalk(g: Graph, s: Node, t: Node)
    ensures Distance(g, s, t).Some? ==>
      (exists w :: IsPath(g, w, s, t) && |w| == Distance(g, s, t).value + 1)
      && (forall w :: IsPath(g, w, s, t) ==> |w| >= Distance(g, s, t).value + 1)
    ensures Distance(g, s, t).None? <==> forall w :: !IsPath(g, w, s, t)
  {
    forall w | IsPath(g, w, s, t) ensures Distance(g, s, t).Some? {
      WalkGivesDistance(g, s, t, w);
    }
    if Distance(g, s, t).Some? {
      var d := Distance(g, s, t).value;
      var w := WithinPath(g, s, t, d);
      forall w' | IsPath(g, w', s, t) ensures |w'| >= d + 1 {
        NoShorterWalk(g, s, t, d, w');
      }
      NoShorterWalk(g, s, t, d, w);
    }
  }

  /** A walk to a node first reached in d steps takes at least d steps. */
  lemma NoShorterWalk(g: Graph, s: Node, t: Node, d: nat, w: seq<Node>)
    requires AtDistance(g, s, t, d) && IsPath(g, w, s, t)
    ensures |w| >= d + 1
  {
    PathWithin(g, w, s, t);
    if |w| < d + 1 {
      WithinMonotone(g, s, |w| - 1, d - 1);
    }
  }

  /** The end of any walk has a distance. */
  lemma WalkGivesDistance(g: Graph, s: Node, t: Node, w: seq<Node>)
    requires IsPath(g, w, s, t)
    ensures Distance(g, s, t).Some?
  {
    PathWithin(g, w, s, t);
    FirstReach(g, s, t, |w| - 1);
  }

  /** A node within k steps is at some exact distance d <= k. */
  lemma {:induction false} FirstReach(g: Graph, s: Node, t: Node, k: nat)
    requires t in Within(g, s, k)
    ensures exists d: nat :: d <= k && AtDistance(g, s, t, d)
  {
    if k > 0 && t in Within(g, s, k - 1) {
      FirstReach(g, s, t, k - 1);
    } else {
      assert AtDistance(g, s, t, k);
    }
  }

  /** A start is zero steps from itself. */
  lemma DistanceToItself(g: Graph, s: Node)
    ensures Distance(g, s, s) == Some(0)
  {
    DistanceIs(g, s, s, 0);
  }

  /** The distance recorded for `v`, if any, is exact. */
  ghost predicate Exact(g: Graph, s: Node, dist: map<Node, nat>, v: Node) {
    v in dist ==> AtDistance(g, s, v, dist[v])
  }

  /** If `v` is nearer than the current level, it has been recorded and taken off the queue. */
  ghost predicate Settled(g: Graph, s: Node, dist: map<Node, nat>, queue: seq<Node>, level: nat, v: Node) {
    level > 0 && v in Within(g, s, level - 1) ==> v in dist && v !in queue
  }

  /** If `v` has been recorded, taken off the queue and is not in `skip`, all its
      neighbours are recorded. */
  ghost predicate Done(g: Graph, dist: map<Node, nat>, queue: seq<Node>, skip: set<Node>, v: Node) {
    v in dist && v !in queue && v !in skip && v in g ==> forall m :: m in g[v] ==> m in dist
  }

  /** The queue holds recorded nodes in order of distance, all on the current level or
      the next one. */
  ghost predicate Ordered(dist: map<Node, nat>, queue: seq<Node>, level: nat) {
    && (forall i :: 0 <= i < |queue| ==> queue[i] in dist && level <= dist[queue[i]] <= level + 1)
    && (forall i, j :: 0 <= i <= j < |queue| ==> dist[queue[i]] <= dist[queue[j]])
  }

  /** What breadth-first search keeps true of the recorded distances `dist`, the
      `queue` and the current `level`: every recorded distance is exact, the queue is
      ordered by distance and spans at most two neighbouring levels, and everything
      nearer than the current level has been found and taken off the queue. */
  ghost predicate Frontier(g: Graph, s: Node, dist: map<Node, nat>, queue: seq<Node>, level: nat) {
    && dist.Keys <= g.Keys
    && s in dist && dist[s] == 0
    && (forall v :: Exact(g, s, dist, v))
    && Ordered(dist, queue, level)
    && (forall v :: Settled(g, s, dist, queue, level, v))
  }

  /** Every recorded node that has left the queue, other than those in `skip`, has all its
      neighbours recorded. */
  ghost predicate Expanded(g: Graph, dist: map<Node, nat>, queue: seq<Node>, skip: set<Node>) {
    forall v :: Done(g, dist, queue, skip, v)
  }

  /** Popping the head of the queue: the level becomes the head's distance, and only the
      head is left to expand. */
  lemma Pop(g: Graph, s: Node, dist: map<Node, nat>, queue: seq<Node>, level: nat)
    requires queue != []
    requires Frontier(g, s, dist, queue, level) && Expanded(g, dist, queue, {})
    ensures Frontier(g, s, dist, queue[1..], dist[queue[0]])
    ensures Expanded(g, dist, queue[1..], {queue[0]})
  {
    var d := dist[queue[0]];
    assert Ordered(dist, queue[1..], d);
    if d == level + 1 {
      LevelDone(g, s, dist, queue, level);
      forall v ensures Settled(g, s, dist, queue[1..], d, v) {
      }
    } else {
      forall v ensures Settled(g, s, dist, queue[1..], d, v) {
        assert Settled(g, s, dist, queue, level, v);
      }
    }
    forall v ensures Done(g, dist, queue[1..], {queue[0]}, v) {
      assert Done(g, dist, queue, {}, v);
    }
  }

  /** When the head of the queue is one level further out, everything within the current
      level has been recorded and taken off the queue. */
  lemma LevelDone(g: Graph, s: Node, dist: map<Node, nat>, queue: seq<Node>, level: nat)
    requires queue != []
    requires Frontier(g, s, dist, queue, level) && Expanded(g, dist, queue, {})
    requires dist[queue[0]] == level + 1
    ensures forall v :: v in Within(g, s, level) ==> v in dist && v !in queue[1..]
  {
    forall v | v in Within(g, s, level) ensures v in dist && v !in queue[1..] {
      assert Settled(g, s, dist, queue, level, v);
      if level > 0 && v in Within(g, s, level - 1) {
        assert v !in queue;
      } else {
        if level > 0 {
          assert v in Successors(g, Within(g, s, level - 1));
          var x :| x in Within(g, s, level - 1) && x in g && v in g[x];
          assert Settled(g, s, dist, queue, level, x);
          assert Done(g, dist, queue, {}, x);
        }
        assert Exact(g, s, dist, v);
        if dist[v] > level {
          WithinMonotone(g, s, level, dist[v] - 1);
        }
        NotQueued(dist, queue, v);
      }
    }
  }

  /** A node nearer than the head of a distance-ordered queue is not on the queue. */
  lemma NotQueued(dist: map<Node, nat>, queue: seq<Node>, v: Node)
    requires queue != [] && queue[0] in dist && v in dist
    requires forall i :: 0 <= i < |queue| ==> queue[i] in dist && dist[queue[0]] <= dist[queue[i]]
    requires dist[v] < dist[queue[0]]
    ensures v !in queue
  {
  }

  /** Recording `nb`, found from the popped `node` at distance d, at distance d + 1 and
      queueing it keeps the search invariant. */
  lemma Discover(g: Graph, s: Node, dist: map<Node, nat>, queue: seq<Node>, node: Node, nb: Node, d: nat)
    requires Frontier(g, s, dist, queue, d) && Expanded(g, dist, queue, {node})
    requires node in dist && dist[node] == d && node in g && nb in g[node] && nb in g && nb !in dist
    ensures Frontier(g, s, dist[nb := d + 1], queue + [nb], d)
    ensures Expanded(g, dist[nb := d + 1], queue + [nb], {node})
    ensures |g.Keys - dist[nb := d + 1].Keys| == |g.Keys - dist.Keys| - 1
  {
    var dist' := dist[nb := d + 1];
    assert dist'.Keys == dist.Keys + {nb};
    NewNodeExact(g, s, dist, queue, node, nb, d);
    forall v ensures Exact(g, s, dist', v) {
      if v != nb {
        assert Exact(g, s, dist, v);
      }
    }
    forall v ensures Settled(g, s, dist', queue + [nb], d, v) {
      assert Settled(g, s, dist, queue, d, v);
    }
    forall v ensures Done(g, dist', queue + [nb], {node}, v) {
      assert Done(g, dist, queue, {node}, v);
    }
    assert Ordered(dist', queue + [nb], d);
    assert g.Keys - dist.Keys == (g.Keys - dist'.Keys) + {nb};
  }

  /** The newly found `nb` is exactly one step further than `node`. */
  lemma NewNodeExact(g: Graph, s: Node, dist: map<Node, nat>, queue: seq<Node>, node: Node, nb: Node, d: nat)
    requires Frontier(g, s, dist, queue, d) && Expanded(g, dist, queue, {node})
    requires node in dist && dist[node] == d && node in g && nb in g[node] && nb !in dist
    ensures AtDistance(g, s, nb, d + 1)
  {
    assert Exact(g, s, dist, node);
    assert nb in Successors(g, Within(g, s, d));
    if d > 0 {
      assert Settled(g, s, dist, queue, d, nb);
      forall x | x in Within(g, s, d - 1) && x in g ensures nb !in g[x] {
        assert Settled(g, s, dist, queue, d, x);
        assert Done(g, dist, queue, {node}, x);
      }
      assert nb !in Successors(g, Within(g, s, d - 1));
    }
  }

  /** Once every neighbour of `node` is recorded, nothing is left to expand. */
  lemma Finished(g: Graph, dist: map<Node, nat>, queue: seq<Node>, node: Node)
    requires Expanded(g, dist, queue, {node})
    requires node in g && Recorded(g[node][..|g[node]|], dist)
    ensures Expanded(g, dist, queue, {})
  {
    assert g[node][..|g[node]|] == g[node];
    forall v ensures Done(g, dist, queue, {}, v) {
      assert Done(g, dist, queue, {node}, v);
    }
  }

  /** When the queue has run dry, the recorded nodes hold everything reachable. */
  lemma Exhausted(g: Graph, s: Node, t: Node, dist: map<Node, nat>, level: nat)
    requires Frontier(g, s, dist, [], level) && Expanded(g, dist, [], {})
    requires t !in dist
    ensures Distance(g, s, t).None?
  {
    forall u, v | u in dist.Keys && u in g && v in g[u] ensures v in dist.Keys {
      assert Done(g, dist, [], {}, u);
    }
    forall k: nat ensures t !in Within(g, s, k) {
      WithinClosedSet(g, s, dist.Keys, k);
    }
  }

  /** `shortest_path`: breadth-first search from `start`, recording for each discovered
      node its number of steps (the length of the recorded path in the source). */
  method ShortestPath(g: Graph, start: Node, goal: Node) returns (r: Option<nat>)
    requires start in g && Closed(g)
    ensures r == Distance(g, start, goal)
  {
    var queue := [start];
    var dist := map[start := 0];
    ghost var level: nat := 0;
    Start(g, start);
    while queue != []
      invariant Frontier(g, start, dist, queue, level) && Expanded(g, dist, queue, {})
      invariant goal in dist ==> goal in queue
      decreases 2 * |g.Keys - dist.Keys| + |queue|
    {
      ghost var measure := 2 * |g.Keys - dist.Keys| + |queue|;
      var node := queue[0];
      Pop(g, start, dist, queue, level);
      level := dist[node];
      assert goal in dist && goal != node ==> goal in queue[1..];
      queue := queue[1..];
      if node == goal {
        assert Exact(g, start, dist, node);
        DistanceIs(g, start, goal, dist[node]);
        return Some(dist[node]);
      }
      var d := dist[node];
      var neighbours := g[node];
      for k := 0 to |neighbours|
        invariant Frontier(g, start, dist, queue, level) && Expanded(g, dist, queue, {node})
        invariant node in dist && dist[node] == d == level
        invariant Recorded(neighbours[..k], dist)
        invariant goal in dist ==> goal in queue
        invariant 2 * |g.Keys - dist.Keys| + |queue| < measure
      {
        var nb := neighbours[k];
        if nb !in dist {
          Discover(g, start, dist, queue, node, nb, d);
          StillRecorded(neighbours, k, dist, nb, d + 1);
          queue := queue + [nb];
          dist := dist[nb := d + 1];
        } else {
          AlreadyRecorded(neighbours, k, dist);
        }
      }
      Finished(g, dist, queue, node);
    }
    Exhausted(g, start, goal, dist, level);
    return None;
  }

  /** The search starts with only `start` recorded, at distance 0, and queued. */
  lemma Start(g: Graph, s: Node)
    requires s in g
    ensures Frontier(g, s, map[s := 0], [s], 0) && Expanded(g, map[s := 0], [s], {})
  {
    forall v ensures Exact(g, s, map[s := 0], v) {
    }
    forall v ensures Done(g, map[s := 0], [s], {}, v) {
    }
  }

  /** Every node of `ns` is recorded. */
  ghost predicate Recorded(ns: seq<Node>, dist: map<Node, nat>) {
    forall i :: 0 <= i < |ns| ==> ns[i] in dist
  }

  lemma StillRecorded(ns: seq<Node>, k: nat, dist: map<Node, nat>, nb: Node, d: nat)
    requires k < |ns| && ns[k] == nb && Recorded(ns[..k], dist)
    ensures Recorded(ns[..k + 1], dist[nb := d])
  {
  }

  lemma AlreadyRecorded(ns: seq<Node>, k: nat, dist: map<Node, nat>)
    requires k < |ns| && ns[k] in dist && Recorded(ns[..k], dist)
    ensures Recorded(ns[..k + 1], dist)
  {
  }

  lemma SubsetSize<T>(a: set<T>, b: set<T>)
    requires a <= b
    ensures |a| <= |b|
  {
    assert b == a + (b - a);
  }

  // ---------------------------------------------------------------------------
  // Query coordinator.

  /** The last cell holding `c` in row-major order. */
  function LastMarker(rows: seq<string>, c: char): (p: Option<(nat, nat)>)
    ensures p.Some? ==> (p.value.0 < |rows| && p.value.1 < |rows[p.value.0]|
                         && rows[p.value.0][p.value.1] == c)
    ensures p.Some? ==> NoneAfter(rows, c, p.value.0, p.value.1)
    ensures p.None? <==> NoMarker(rows, c)
  {
    if rows == [] then None
    else
      var last := |rows| - 1;
      match LastInRow(rows[last], c)
      case Some(j) => Some((last, j))
      case None =>
        var p := LastMarker(rows[..last], c);
        assert forall i :: 0 <= i < last ==> rows[..last][i] == rows[i];
        p
  }

  /** No cell after (x, y) in row-major order holds `c`. */
  predicate NoneAfter(rows: seq<string>, c: char, x: nat, y: nat) {
    forall i, j :: (0 <= i < |rows| && 0 <= j < |rows[i]| && rows[i][j] == c
                    ==> i < x || (i == x && j <= y))
  }

  /** No cell holds `c`. */
  predicate NoMarker(rows: seq<string>, c: char) {
    forall i, j :: 0 <= i < |rows| && 0 <= j < |rows[i]| ==> rows[i][j] != c
  }

  function LastInRow(row: string, c: char): (j: Option<nat>)
    ensures j.Some? ==> (j.value < |row| && row[j.value] == c
                         && forall k :: j.value < k < |row| ==> row[k] != c)
    ensures j.None? <==> c !in row
  {
    if row == [] then None
    else if row[|row| - 1] == c then Some(|row| - 1)
    else
      var j := LastInRow(row[..|row| - 1], c);
      assert forall k :: 0 <= k < |row| - 1 ==> row[..|row| - 1][k] == row[k];
      j
  }

  /** Where the scan leaves its position: the last marker, or (0, 0) when there is none. */
  function MarkerOr00(rows: seq<string>, c: char): (int, int) {
    match LastMarker(rows, c)
    case Some((i, j)) => (i, j)
    case None => (0, 0)
  }

  predicate IsLow(c: char) {
    c == 'S' || c == 'a'
  }

  /** The 'S' and 'a' cells of row i with column below j, as start nodes in scan order. */
  function RowLows(rows: seq<string>, i: nat, j: nat): seq<Node>
    requires i < |rows| && j <= |rows[i]|
  {
    if j == 0 then []
    else RowLows(rows, i, j - 1) + (if IsLow(rows[i][j - 1]) then [Node(i, j - 1, 1)] else [])
  }

  /** The 'S' and 'a' cells of the first i rows, in scan order. */
  function Lows(rows: seq<string>, i: nat): seq<Node>
    requires i <= |rows|
  {
    if i == 0 then [] else Lows(rows, i - 1) + RowLows(rows, i - 1, |rows[i - 1]|)
  }

  lemma {:induction false} RowLowsAre(rows: seq<string>, i: nat, j: nat, n: Node)
    requires i < |rows| && j <= |rows[i]|
    ensures n in RowLows(rows, i, j) <==> n.x == i && 0 <= n.y < j && n.height == 1 && IsLow(rows[i][n.y])
  {
    if j > 0 {
      RowLowsAre(rows, i, j - 1, n);
    }
  }

  /** The part 2 start set is exactly the 'S' and 'a' cells, each with elevation 1. */
  lemma {:induction false} LowsAre(rows: seq<string>, i: nat, n: Node)
    requires i <= |rows|
    ensures n in Lows(rows, i) <==>
      0 <= n.x < i && 0 <= n.y < |rows[n.x]| && n.height == 1 && IsLow(rows[n.x][n.y])
  {
    if i > 0 {
      LowsAre(rows, i - 1, n);
      RowLowsAre(rows, i - 1, |rows[i - 1]|, n);
    }
  }

  /** Part 1's marker scan: the positions of the 'S' and 'E' cells, each (0, 0) when the
      marker is missing; a later marker overrides an earlier one. */
  method FindStartAndGoal(rows: seq<string>) returns (start: Node, goal: Node)
    ensures (start.x, start.y) == MarkerOr00(rows, 'S') && start.height == 1
    ensures (goal.x, goal.y) == MarkerOr00(rows, 'E') && goal.height == 26
  {
    start := Node(0, 0, 1);
    goal := Node(0, 0, 26);
    for i := 0 to |rows|
      invariant (start.x, start.y) == ScanMarker(rows, 'S', i, 0) && start.height == 1
      invariant (goal.x, goal.y) == ScanMarker(rows, 'E', i, 0) && goal.height == 26
    {
      for j := 0 to |rows[i]|
        invariant (start.x, start.y) == ScanMarker(rows, 'S', i, j) && start.height == 1
        invariant (goal.x, goal.y) == ScanMarker(rows, 'E', i, j) && goal.height == 26
      {
        if rows[i][j] == 'S' {
          start := start.(x := i, y := j);
        } else if rows[i][j] == 'E' {
          goal := goal.(x := i, y := j);
        }
      }
    }
    ScanIsLast(rows, 'S', |rows|);
    ScanIsLast(rows, 'E', |rows|);
    assert rows[..|rows|] == rows;
  }

  /** The position a row-major scan holds after visiting every cell before row i, column j:
      the last cell seen holding `c`, or (0, 0). */
  function ScanMarker(rows: seq<string>, c: char, i: nat, j: nat): (int, int)
    requires i < |rows| ==> j <= |rows[i]|
    requires i <= |rows| && (i == |rows| ==> j == 0)
    decreases i, j
  {
    if j > 0 then (if rows[i][j - 1] == c then (i, j - 1) else ScanMarker(rows, c, i, j - 1))
    else if i == 0 then (0, 0)
    else ScanMarker(rows, c, i - 1, |rows[i - 1]|)
  }

  /** Within row i the scan holds the last `c` of the row so far, if any. */
  lemma {:induction false} ScanRow(rows: seq<string>, c: char, i: nat, j: nat)
    requires i < |rows| && j <= |rows[i]|
    ensures ScanMarker(rows, c, i, j) == match LastInRow(rows[i][..j], c)
                                         case Some(y) => (i, y)
                                         case None => ScanMarker(rows, c, i, 0)
  {
    if j > 0 {
      ScanRow(rows, c, i, j - 1);
      assert rows[i][..j][..j - 1] == rows[i][..j - 1];
    }
  }

  /** The scan over the first i rows ends on the last marker among them, or (0, 0). */
  lemma {:induction false} ScanIsLast(rows: seq<string>, c: char, i: nat)
    requires i <= |rows|
    ensures ScanMarker(rows, c, i, 0) == MarkerOr00(rows[..i], c)
  {
    if i > 0 {
      ScanIsLast(rows, c, i - 1);
      ScanRow(rows, c, i - 1, |rows[i - 1]|);
      assert rows[i - 1][..|rows[i - 1]|] == rows[i - 1];
      assert rows[..i][..i - 1] == rows[..i - 1];
    }
  }

  /** Part 2's scan: every 'S' or 'a' cell as a start node, in scan order, and the
      position of the 'E' cell. */
  method FindStartPointsAndGoal(rows: seq<string>) returns (starts: seq<Node>, goal: Node)
    ensures starts == Lows(rows, |rows|)
    ensures (goal.x, goal.y) == MarkerOr00(rows, 'E') && goal.height == 26
  {
    starts := [];
    goal := Node(0, 0, 26);
    for i := 0 to |rows|
      invariant starts == Lows(rows, i)
      invariant (goal.x, goal.y) == ScanMarker(rows, 'E', i, 0) && goal.height == 26
    {
      for j := 0 to |rows[i]|
        invariant starts == Lows(rows, i) + RowLows(rows, i, j)
        invariant (goal.x, goal.y) == ScanMarker(rows, 'E', i, j) && goal.height == 26
      {
        if rows[i][j] == 'S' || rows[i][j] == 'a' {
          starts := starts + [Node(i, j, 1)];
        } else if rows[i][j] == 'E' {
          goal := goal.(x := i, y := j);
        }
      }
    }
    ScanIsLast(rows, 'E', |rows|);
    assert rows[..|rows|] == rows;
  }

  /** What part 2 counts for one start: its distance, or 9999 when the goal cannot be
      reached from it. */
  ghost function StepsOrSentinel(g: Graph, s: Node, goal: Node): nat {
    match Distance(g, s, goal)
    case Some(d) => d
    case None => 9999
  }

  /** The `map(..).min()` over the start points: the least count over every start, with
      9999 standing for an unreachable goal. `None` is where the source's `unwrap`
      panics: there are no start points. */
  method FewestStepsFrom(g: Graph, starts: seq<Node>, goal: Node) returns (best: Option<nat>)
    requires Closed(g) && forall i :: 0 <= i < |starts| ==> starts[i] in g
    ensures best.None? <==> starts == []
    ensures best.Some? ==> exists i :: 0 <= i < |starts| && best.value == StepsOrSentinel(g, starts[i], goal)
    ensures best.Some? ==> forall i :: 0 <= i < |starts| ==> best.value <= StepsOrSentinel(g, starts[i], goal)
  {
    best := None;
    ghost var at := 0;
    for i := 0 to |starts|
      invariant best.None? <==> i == 0
      invariant best.Some? ==> at < i && best.value == StepsOrSentinel(g, starts[at], goal)
      invariant best.Some? ==> forall k :: 0 <= k < i ==> best.value <= StepsOrSentinel(g, starts[k], goal)
    {
      var dist := ShortestPath(g, starts[i], goal);
      var steps := if dist.Some? then dist.value else 9999;
      assert steps == StepsOrSentinel(g, starts[i], goal);
      if best.None? || steps < best.value {
        best := Some(steps);
        at := i;
      }
    }
  }

  /** The sentinel is sound for grids of at most 9999 cells: no real distance reaches
      9999 there, so the least count is 9999 exactly when no start reaches the goal. */
  lemma SentinelMeansUnreachable(g: Graph, starts: seq<Node>, goal: Node, best: nat)
    requires Closed(g) && |g.Keys| <= 9999
    requires forall i :: 0 <= i < |starts| ==> starts[i] in g
    requires exists i :: 0 <= i < |starts| && best == StepsOrSentinel(g, starts[i], goal)
    requires forall i :: 0 <= i < |starts| ==> best <= StepsOrSentinel(g, starts[i], goal)
    ensures best == 9999 <==> forall i :: 0 <= i < |starts| ==> Distance(g, starts[i], goal).None?
  {
    var at :| 0 <= at < |starts| && best == StepsOrSentinel(g, starts[at], goal);
    DistanceBelowNodeCount(g, starts[at], goal);
    if best == 9999 {
      forall i | 0 <= i < |starts| ensures Distance(g, starts[i], goal).None? {
        DistanceBelowNodeCount(g, starts[i], goal);
      }
    }
  }

  /** Whatever a node of a closed graph reaches lies in the graph. */
  lemma WithinGraph(g: Graph, s: Node, k: nat)
    requires s in g && Closed(g)
    ensures Within(g, s, k) <= g.Keys
  {
    WithinClosedSet(g, s, g.Keys, k);
  }

  /** A node first reached in d > 0 steps has an edge from a node first reached in d - 1. */
  lemma Predecessor(g: Graph, s: Node, t: Node, d: nat) returns (u: Node)
    requires AtDistance(g, s, t, d) && d > 0
    ensures AtDistance(g, s, u, d - 1)
  {
    assert t in Successors(g, Within(g, s, d - 1));
    u :| u in Within(g, s, d - 1) && u in g && t in g[u];
  }

  /** Below a node d steps away, every smaller distance is taken by some node. */
  lemma {:induction false} OnTheWay(g: Graph, s: Node, t: Node, d: nat, k: nat) returns (v: Node)
    requires AtDistance(g, s, t, d) && k <= d
    ensures AtDistance(g, s, v, k)
    decreases d - k
  {
    if k == d {
      v := t;
    } else {
      var w := OnTheWay(g, s, t, d, k + 1);
      v := Predecessor(g, s, w, k + 1);
    }
  }

  /** A chain of sets, each a proper subset of the next, grows by at least one element a step. */
  lemma {:induction false} ChainGrows<T>(sets: seq<set<T>>, k: nat)
    requires k < |sets|
    requires forall j :: 0 <= j < |sets| - 1 ==> sets[j] < sets[j + 1]
    ensures |sets[k]| >= k + |sets[0]|
  {
    if k > 0 {
      ChainGrows(sets, k - 1);
      StrictSubsetSize(sets[k - 1], sets[k]);
    }
  }

  /** Before reaching a node d steps away, every step adds a node. */
  lemma Proper(g: Graph, s: Node, t: Node, d: nat, k: nat)
    requires AtDistance(g, s, t, d) && k < d
    ensures Within(g, s, k) < Within(g, s, k + 1)
  {
    var v := OnTheWay(g, s, t, d, k + 1);
    WithinMonotone(g, s, k, k + 1);
    assert v in Within(g, s, k + 1) && v !in Within(g, s, k);
  }

  lemma StrictSubsetSize<T>(a: set<T>, b: set<T>)
    requires a <= b && a != b
    ensures |a| < |b|
  {
    assert b == a + (b - a);
    assert b - a != {};
  }

  /** The sets of nodes within 0, 1, ..., d steps of `s` strictly grow when some node is
      first reached in d steps. */
  lemma WithinChain(g: Graph, s: Node, t: Node, d: nat) returns (chain: seq<set<Node>>)
    requires AtDistance(g, s, t, d)
    ensures |chain| == d + 1 && chain[0] == {s} && chain[d] == Within(g, s, d)
    ensures forall j :: 0 <= j < |chain| - 1 ==> chain[j] < chain[j + 1]
  {
    chain := seq(d + 1, j requires 0 <= j <= d => Within(g, s, j));
    forall j | 0 <= j < |chain| - 1 ensures chain[j] < chain[j + 1] {
      Proper(g, s, t, d, j);
    }
  }

  /** A node first reached in d steps in a closed graph leaves at least d + 1 nodes. */
  lemma NodeCountBound(g: Graph, s: Node, t: Node, d: nat)
    requires s in g && Closed(g) && AtDistance(g, s, t, d)
    ensures d < |g.Keys|
  {
    var chain := WithinChain(g, s, t, d);
    ChainGrows(chain, d);
    WithinGraph(g, s, d);
    SubsetSize(chain[d], g.Keys);
  }

  /** A distance in a closed graph is below its number of nodes. */
  lemma DistanceBelowNodeCount(g: Graph, s: Node, t: Node)
    requires s in g && Closed(g)
    ensures Distance(g, s, t).Some? ==> Distance(g, s, t).value < |g.Keys|
  {
    if Distance(g, s, t).Some? {
      NodeCountBound(g, s, t, Distance(g, s, t).value);
    }
  }

  /** What both parts demand of the input before they can run: a grid of terrain letters
      whose rows are equally long. */
  predicate WellFormed(input: string) {
    var grid := ParseGrid(input);
    grid.Some? && AllTerrain(grid.value) && IsRectangular(grid.value)
  }

  /** Part 1: the fewest steps from the 'S' cell to the 'E' cell. `None` is where the
      source's `unwrap` panics: the goal cannot be reached. Without an 'S' the search
      starts at (0, 0), which then has to be an 'a' for the start to be a node. */
  method Part1(input: string) returns (r: Option<nat>)
    requires WellFormed(input)
    requires var rows := ParseGrid(input).value; LastMarker(rows, 'S').Some? || rows[0][0] == 'a'
    ensures var rows := ParseGrid(input).value;
      var (sx, sy) := MarkerOr00(rows, 'S');
      var (gx, gy) := MarkerOr00(rows, 'E');
      r == Distance(GraphOf(HeightsOf(rows)), Node(sx, sy, 1), Node(gx, gy, 26))
  {
    var rows := ParseGrid(input).value;
    var start, goal := FindStartAndGoal(rows);
    var h := HeightsOf(rows);
    var g := BuildGraph(h);
    GraphOfClosed(h);
    assert InGrid(h, start);
    r := ShortestPath(g, start, goal);
  }

  /** Part 2: the fewest steps to the 'E' cell from any 'S' or 'a' cell, unreachable
      starts counting 9999. `None` is where the source's `unwrap` panics: the grid has
      no such cell. */
  method Part2(input: string) returns (r: Option<nat>)
    requires WellFormed(input)
    ensures var rows := ParseGrid(input).value;
      var g := GraphOf(HeightsOf(rows));
      var starts := Lows(rows, |rows|);
      var (gx, gy) := MarkerOr00(rows, 'E');
      var goal := Node(gx, gy, 26);
      && (r.None? <==> starts == [])
      && (r.Some? ==> exists i :: 0 <= i < |starts| && r.value == StepsOrSentinel(g, starts[i], goal))
      && (r.Some? ==> forall i :: 0 <= i < |starts| ==> r.value <= StepsOrSentinel(g, starts[i], goal))
  {
    var rows := ParseGrid(input).value;
    var starts, goal := FindStartPointsAndGoal(rows);
    var h := HeightsOf(rows);
    var g := BuildGraph(h);
    GraphOfClosed(h);
    forall i | 0 <= i < |starts| ensures starts[i] in g {
      LowsAre(rows, |rows|, starts[i]);
    }
    r := FewestStepsFrom(g, starts, goal);
  }
}

/**
 * The object graph of utils.py: `getDist` (A* between two tiles with every
 * other object treated as a wall), `convertToGraph` (the distance table over
 * the agent, coin and shutdown-delay objects) and `omitFromGrid` (a copy of
 * the grid with visited objects erased).
 */
module ObjectGraph {
  import opened Options
  import opened Tokens
  import opened FindAllProps
  import opened PathFinder
  import opened AStar

  // ---------------------------------------------------------------------
  // getDist

  /** A tile `getDist(start, end, grid)` lets the search enter. */
  predicate Passable(grid: Grid, start: Tile, end: Tile, t: Tile)
  {
    InGrid(grid, t.0, t.1) && (grid[t.0][t.1] == "." || grid[t.0][t.1] == "A" || t == start || t == end)
  }

  /** The `binGrid` comprehension: 0 for `.` and `A`, 1 for every other token. */
  function Occupancy(grid: Grid): BinGrid
  {
    seq(|grid|, x requires 0 <= x < |grid| =>
      seq(|grid[x]|, y requires 0 <= y < |grid[x]| => if grid[x][y] == "." || grid[x][y] == "A" then 0 else 1))
  }

  predicate RouteStep(grid: Grid, start: Tile, end: Tile, a: Tile, b: Tile)
  {
    ManhattanDist(a, b) == 1 && Passable(grid, start, end, b)
  }

  /** A walk through passable tiles only. */
  predicate IsRoute(grid: Grid, start: Tile, end: Tile, p: seq<Tile>)
  {
    |p| >= 1 && forall i :: 0 <= i < |p| - 1 ==> RouteStep(grid, start, end, p[i], p[i + 1])
  }

  ghost predicate RouteOfLength(grid: Grid, start: Tile, end: Tile, n: nat)
  {
    exists p :: IsRoute(grid, start, end, p) && p[0] == start && p[|p| - 1] == end && |p| == n + 1
  }

  ghost predicate NoRoute(grid: Grid, start: Tile, end: Tile)
  {
    forall p :: IsRoute(grid, start, end, p) && p[0] == start ==> p[|p| - 1] != end
  }

  /** What a `getDist` result promises about the grid. */
  ghost predicate DistSound(grid: Grid, start: Tile, end: Tile, d: Dist)
  {
    match d
    case Finite(n) => RouteOfLength(grid, start, end, n) && n >= ManhattanDist(start, end)
    case Unreachable => NoRoute(grid, start, end)
  }

  /** The grid A* runs on: a tile is free exactly when it is passable. */
  lemma PassGridFree(grid: Grid, start: Tile, end: Tile, bin: BinGrid, t: Tile)
    requires InGrid(grid, start.0, start.1) && InGrid(grid, end.0, end.1)
    requires bin == var b0 := Occupancy(grid);
                    var b1 := b0[start.0 := b0[start.0][start.1 := 0]];
                    b1[end.0 := b1[end.0][end.1 := 0]]
    ensures IsFree(bin, t) <==> Passable(grid, start, end, t)
  {
  }

  lemma WalkIsRoute(grid: Grid, start: Tile, end: Tile, bin: BinGrid, p: seq<Tile>)
    requires forall t :: IsFree(bin, t) <==> Passable(grid, start, end, t)
    ensures IsWalk(bin, p) <==> IsRoute(grid, start, end, p)
  {
    if IsWalk(bin, p) {
      forall i | 0 <= i < |p| - 1 ensures RouteStep(grid, start, end, p[i], p[i + 1]) {
        assert IsStep(bin, p[i], p[i + 1]);
      }
    }
    if IsRoute(grid, start, end, p) {
      forall i | 0 <= i < |p| - 1 ensures IsStep(bin, p[i], p[i + 1]) {
        assert RouteStep(grid, start, end, p[i], p[i + 1]);
      }
    }
  }

  /**
   * `getDist(start, end, grid)`: the A* distance on the grid where only `.`,
   * `A`, `start` and `end` are passable. A finite result is the length of a
   * route of passable tiles and at least the Manhattan distance; MAXDIST means
   * there is no such route.
   */
  method GetDist(start: Tile, end: Tile, grid: Grid) returns (distance: Dist)
    requires InGrid(grid, start.0, start.1) && InGrid(grid, end.0, end.1)
    ensures DistSound(grid, start, end, distance)
    ensures start == end ==> distance == Finite(0)
  {
    var binGrid := Occupancy(grid);
    binGrid := binGrid[start.0 := binGrid[start.0][start.1 := 0]];
    binGrid := binGrid[end.0 := binGrid[end.0][end.1 := 0]];
    forall t ensures IsFree(binGrid, t) <==> Passable(grid, start, end, t) {
      PassGridFree(grid, start, end, binGrid, t);
    }
    var path;
    distance, path := AStarSearch(start, end, binGrid, (a, b) => ManhattanDist(a, b));
    if distance.Finite? {
      WalkIsRoute(grid, start, end, binGrid, path);
    } else {
      forall p | IsRoute(grid, start, end, p) && p[0] == start ensures p[|p| - 1] != end {
        WalkIsRoute(grid, start, end, binGrid, p);
      }
    }
  }

  // ---------------------------------------------------------------------
  // convertToGraph

  /** `[x for target in ["A", "C", "SD"] for x in findAll(target, grid)]`. */
  function NonObstacles(grid: Grid): Option<seq<Object>>
  {
    match (FoundIn("A", grid), FoundIn("C", grid), FoundIn("SD", grid))
    case (Some(a), Some(c), Some(sd)) => Some(a + c + sd)
    case _ => None
  }

  /** The nested adjacency dictionary, with its key order (dictionary insertion order). */
  datatype Graph = Graph(keys: seq<Object>, adj: map<Object, map<Object, Dist>>)

  /** Every key has a row and every row has a column for every key. */
  ghost predicate HasEntries(g: Graph)
  {
    && (forall i :: 0 <= i < |g.keys| ==> g.keys[i] in g.adj)
    && (forall i, j :: 0 <= i < |g.keys| && 0 <= j < |g.keys| ==> g.keys[j] in g.adj[g.keys[i]])
    && (forall a :: a in g.adj ==> a in g.keys)
    && (forall a, b :: a in g.adj && b in g.adj[a] ==> b in g.keys)
  }

  /** What `convertToGraph(grid)` builds. */
  ghost predicate GraphOk(grid: Grid, g: Graph)
  {
    && NonObstacles(grid) == Some(g.keys)
    && HasEntries(g)
    && (forall a :: a in g.keys ==> g.adj[a][a] == Finite(0))
    && (forall i, j :: 0 <= i < |g.keys| && 0 <= j < |g.keys| ==> g.adj[g.keys[i]][g.keys[j]] == g.adj[g.keys[j]][g.keys[i]])
    && (forall i, j {:trigger DistSound(grid, g.keys[i].Loc(), g.keys[j].Loc(), g.adj[g.keys[i]][g.keys[j]])} ::
          0 <= i < j < |g.keys| ==> DistSound(grid, g.keys[i].Loc(), g.keys[j].Loc(), g.adj[g.keys[i]][g.keys[j]]))
  }

  predicate Distinct<T(==)>(s: seq<T>)
  {
    forall i, j :: 0 <= i < j < |s| ==> s[i] != s[j]
  }

  predicate DistinctLocs(s: seq<Object>)
  {
    forall i, j :: 0 <= i < j < |s| ==> s[i].Loc() != s[j].Loc()
  }

  /** The objects of a grid sit on pairwise different tiles, all inside the grid. */
  lemma NonObstaclesDistinct(grid: Grid)
    requires NonObstacles(grid).Some?
    ensures DistinctLocs(NonObstacles(grid).value)
    ensures Distinct(NonObstacles(grid).value)
    ensures forall o :: o in NonObstacles(grid).value ==> InGrid(grid, o.x, o.y)
  {
    var a, c, sd := FoundIn("A", grid).value, FoundIn("C", grid).value, FoundIn("SD", grid).value;
    FindAllSpec("A", grid);
    FindAllSpec("C", grid);
    FindAllSpec("SD", grid);
    var all := a + c + sd;
    forall i, j | 0 <= i < j < |all| ensures all[i].Loc() != all[j].Loc() {
      var o, o' := all[i], all[j];
      if i < |a| && j < |a| {
        assert Before(a[i], a[j]);
      } else if |a| <= i && j < |a| + |c| {
        assert Before(c[i - |a|], c[j - |a|]);
      } else if |a| + |c| <= i {
        assert Before(sd[i - |a| - |c|], sd[j - |a| - |c|]);
      } else {
        var t := if i < |a| then "A" else "C";
        var t' := if j < |a| + |c| then "C" else "SD";
        assert o in (if i < |a| then a else c);
        assert o' in (if j < |a| + |c| then c else sd);
        assert Matches(t, grid, o) && Matches(t', grid, o');
        ExclusivePrefixes(grid[o.x][o.y]);
      }
    }
    forall o | o in all ensures InGrid(grid, o.x, o.y) {
      assert Matches("A", grid, o) || Matches("C", grid, o) || Matches("SD", grid, o);
    }
  }

  /** No token starts with two of the prefixes `A`, `C`, `SD`. */
  lemma ExclusivePrefixes(tok: Token)
    ensures !(StartsWith(tok, "A") && StartsWith(tok, "C"))
    ensures !(StartsWith(tok, "A") && StartsWith(tok, "SD"))
    ensures !(StartsWith(tok, "C") && StartsWith(tok, "SD"))
  {
    if StartsWith(tok, "A") {
      assert tok[0] == 'A';
    } else if StartsWith(tok, "C") {
      assert tok[0] == 'C';
    }
  }

  /**
   * `convertToGraph(grid)`: keyed by the A, then C, then SD objects; the table
   * is symmetric with a zero diagonal and each pair holds `getDist` of their
   * tiles. It fails exactly when `findAll` does.
   */
  method ConvertToGraph(grid: Grid) returns (graph: Option<Graph>)
    ensures graph.None? <==> NonObstacles(grid).None?
    ensures graph.Some? ==> GraphOk(grid, graph.value)
  {
    var agents := FindAll("A", grid);
    var coins := FindAll("C", grid);
    var delays := FindAll("SD", grid);
    if agents.None? || coins.None? || delays.None? {
      return None;
    }
    var nonObstacles := agents.value + coins.value + delays.value;
    NonObstaclesDistinct(grid);
    var adjMatrix := map source | source in nonObstacles :: map target | target in nonObstacles :: Finite(0);
    TableStart(grid, nonObstacles, adjMatrix);
    var n := |nonObstacles|;
    for i := 0 to n
      invariant TableInv(grid, nonObstacles, adjMatrix, i, 0)
    {
      TableRowStart(grid, nonObstacles, adjMatrix, i);
      for j := i + 1 to n
        invariant TableInv(grid, nonObstacles, adjMatrix, i, j)
      {
        var source, target := nonObstacles[i], nonObstacles[j];
        assert InGrid(grid, source.x, source.y) && InGrid(grid, target.x, target.y) by {
          assert source in nonObstacles && target in nonObstacles;
        }
        var dist := GetDist(source.Loc(), target.Loc(), grid);
        ghost var before := adjMatrix;
        assert source in adjMatrix && target in adjMatrix[source] && target in adjMatrix && source in adjMatrix[target] by {
          assert source in nonObstacles && target in nonObstacles;
        }
        adjMatrix := SetPair(adjMatrix, source, target, dist);
        PairUpdate(grid, nonObstacles, before, adjMatrix, i, j, dist);
      }
      TableRowEnd(grid, nonObstacles, adjMatrix, i);
    }
    TableEnd(grid, nonObstacles, adjMatrix);
    graph := Some(Graph(nonObstacles, adjMatrix));
  }

  lemma TableStart(grid: Grid, keys: seq<Object>, adj: map<Object, map<Object, Dist>>)
    requires adj == map a | a in keys :: map b | b in keys :: Finite(0)
    ensures TableInv(grid, keys, adj, 0, 0)
  {
  }

  lemma TableRowStart(grid: Grid, keys: seq<Object>, adj: map<Object, map<Object, Dist>>, i: nat)
    requires TableInv(grid, keys, adj, i, 0)
    ensures TableInv(grid, keys, adj, i, i + 1)
  {
  }

  lemma TableRowEnd(grid: Grid, keys: seq<Object>, adj: map<Object, map<Object, Dist>>, i: nat)
    requires TableInv(grid, keys, adj, i, |keys|)
    ensures TableInv(grid, keys, adj, i + 1, 0)
  {
  }

  lemma TableEnd(grid: Grid, keys: seq<Object>, adj: map<Object, map<Object, Dist>>)
    requires TableInv(grid, keys, adj, |keys|, 0)
    ensures forall i, j :: 0 <= i < j < |keys| ==>
      DistSound(grid, keys[i].Loc(), keys[j].Loc(), adj[keys[i]][keys[j]])
  {
  }

  /**
   * The table after the pairs before (i, j) in loop order are written: it has
   * every entry, a zero diagonal, is symmetric, and the written pairs are sound.
   */
  ghost predicate TableInv(grid: Grid, keys: seq<Object>, adj: map<Object, map<Object, Dist>>, i: nat, j: nat)
  {
    && HasEntries(Graph(keys, adj))
    && (forall a :: a in keys ==> adj[a][a] == Finite(0))
    && (forall p, q :: 0 <= p < |keys| && 0 <= q < |keys| ==> adj[keys[p]][keys[q]] == adj[keys[q]][keys[p]])
    && (forall p, q :: 0 <= p < q < |keys| && (p < i || (p == i && q < j)) ==>
          DistSound(grid, keys[p].Loc(), keys[q].Loc(), adj[keys[p]][keys[q]]))
  }

  /** Writing the pair (i, j) symmetrically touches no other pair of distinct keys. */
  lemma PairUpdate(grid: Grid, keys: seq<Object>, before: map<Object, map<Object, Dist>>,
                   after: map<Object, map<Object, Dist>>, i: nat, j: nat, d: Dist)
    requires Distinct(keys) && i < j < |keys|
    requires TableInv(grid, keys, before, i, j)
    requires after == SetPair(before, keys[i], keys[j], d)
    requires DistSound(grid, keys[i].Loc(), keys[j].Loc(), d)
    ensures TableInv(grid, keys, after, i, j + 1)
  {
    PairUpdateEntries(keys, before, i, j, d);
    PairUpdateSymmetric(keys, before, i, j, d);
    PairUpdateSound(grid, keys, before, i, j, d);
  }

  lemma PairUpdateSound(grid: Grid, keys: seq<Object>, before: map<Object, map<Object, Dist>>, i: nat, j: nat, d: Dist)
    requires Distinct(keys) && i < j < |keys|
    requires HasEntries(Graph(keys, before))
    requires forall p, q :: 0 <= p < q < |keys| && (p < i || (p == i && q < j)) ==>
      DistSound(grid, keys[p].Loc(), keys[q].Loc(), before[keys[p]][keys[q]])
    requires DistSound(grid, keys[i].Loc(), keys[j].Loc(), d)
    ensures forall p, q :: 0 <= p < q < |keys| && (p < i || (p == i && q < j + 1)) ==>
      DistSound(grid, keys[p].Loc(), keys[q].Loc(), SetPair(before, keys[i], keys[j], d)[keys[p]][keys[q]])
  {
    var ki, kj := keys[i], keys[j];
    forall p, q | 0 <= p < q < |keys| && (p < i || (p == i && q < j + 1))
      ensures DistSound(grid, keys[p].Loc(), keys[q].Loc(), SetPair(before, ki, kj, d)[keys[p]][keys[q]])
    {
      if p != i || q != j {
        EntryKept(before, ki, kj, d, keys[p], keys[q]);
      }
    }
  }

  lemma PairUpdateEntries(keys: seq<Object>, before: map<Object, map<Object, Dist>>, i: nat, j: nat, d: Dist)
    requires Distinct(keys) && i < j < |keys|
    requires HasEntries(Graph(keys, before))
    requires forall a :: a in keys ==> before[a][a] == Finite(0)
    ensures HasEntries(Graph(keys, SetPair(before, keys[i], keys[j], d)))
    ensures forall a :: a in keys ==> SetPair(before, keys[i], keys[j], d)[a][a] == Finite(0)
  {
    var ki, kj := keys[i], keys[j];
    var after := SetPair(before, ki, kj, d);
    forall a | a in keys ensures after[a][a] == Finite(0) {
      EntryKept(before, ki, kj, d, a, a);
    }
  }

  lemma PairUpdateSymmetric(keys: seq<Object>, before: map<Object, map<Object, Dist>>, i: nat, j: nat, d: Dist)
    requires Distinct(keys) && i < j < |keys|
    requires HasEntries(Graph(keys, before))
    requires forall p, q :: 0 <= p < |keys| && 0 <= q < |keys| ==> before[keys[p]][keys[q]] == before[keys[q]][keys[p]]
    ensures forall p, q :: 0 <= p < |keys| && 0 <= q < |keys| ==>
      SetPair(before, keys[i], keys[j], d)[keys[p]][keys[q]] == SetPair(before, keys[i], keys[j], d)[keys[q]][keys[p]]
  {
    var ki, kj := keys[i], keys[j];
    forall p, q | 0 <= p < |keys| && 0 <= q < |keys|
      ensures SetPair(before, ki, kj, d)[keys[p]][keys[q]] == SetPair(before, ki, kj, d)[keys[q]][keys[p]]
    {
      if (p, q) != (i, j) && (p, q) != (j, i) {
        EntryKept(before, ki, kj, d, keys[p], keys[q]);
        EntryKept(before, ki, kj, d, keys[q], keys[p]);
      }
    }
  }

  /** The two writes `adjMatrix[ki][kj] = d` and `adjMatrix[kj][ki] = d`. */
  function SetPair(adj: map<Object, map<Object, Dist>>, ki: Object, kj: Object, d: Dist): (r: map<Object, map<Object, Dist>>)
    requires ki in adj && kj in adj && kj in adj[ki] && ki in adj[kj]
    ensures forall a :: a in r <==> a in adj
    ensures forall a, b :: a in r ==> (b in r[a] <==> b in adj[a])
  {
    var a1 := adj[ki := adj[ki][kj := d]];
    a1[kj := a1[kj][ki := d]]
  }

  /** The symmetric write of (ki, kj) leaves every other entry as it was. */
  lemma EntryKept(before: map<Object, map<Object, Dist>>, ki: Object, kj: Object, d: Dist, a: Object, b: Object)
    requires ki != kj && ki in before && kj in before && kj in before[ki] && ki in before[kj]
    requires a in before && b in before[a]
    requires (a, b) != (ki, kj) && (a, b) != (kj, ki)
    ensures a in SetPair(before, ki, kj, d) && b in SetPair(before, ki, kj, d)[a]
    ensures SetPair(before, ki, kj, d)[a][b] == before[a][b]
  {
  }

  function Reversed<T>(p: seq<T>): (r: seq<T>)
    ensures |r| == |p| && forall i :: 0 <= i < |p| ==> r[i] == p[|p| - 1 - i]
  {
    seq(|p|, i requires 0 <= i < |p| => p[|p| - 1 - i])
  }

  /** A route read backwards is a route between the same two tiles the other way round. */
  lemma RouteReversed(grid: Grid, start: Tile, end: Tile, p: seq<Tile>)
    requires IsRoute(grid, start, end, p) && p[0] == start && InGrid(grid, start.0, start.1)
    ensures IsRoute(grid, end, start, Reversed(p))
    ensures Reversed(p)[0] == p[|p| - 1] && Reversed(p)[|p| - 1] == start
  {
    var r := Reversed(p);
    forall i | 0 <= i < |r| - 1 ensures RouteStep(grid, end, start, r[i], r[i + 1]) {
      var k := |p| - 2 - i;
      assert RouteStep(grid, start, end, p[k], p[k + 1]);
      ManhattanIsMetric(p[k], p[k + 1], p[k]);
      if k > 0 {
        assert RouteStep(grid, start, end, p[k - 1], p[k]);
      }
    }
  }

  /** `getDist` is symmetric in what it promises. */
  lemma DistSoundSymmetric(grid: Grid, start: Tile, end: Tile, d: Dist)
    requires InGrid(grid, start.0, start.1) && InGrid(grid, end.0, end.1)
    requires DistSound(grid, start, end, d)
    ensures DistSound(grid, end, start, d)
  {
    ManhattanIsMetric(start, end, start);
    match d
    case Finite(n) =>
      var p :| IsRoute(grid, start, end, p) && p[0] == start && p[|p| - 1] == end && |p| == n + 1;
      RouteReversed(grid, start, end, p);
      assert IsRoute(grid, end, start, Reversed(p)) && Reversed(p)[0] == end;
    case Unreachable =>
      forall p | IsRoute(grid, end, start, p) && p[0] == end ensures p[|p| - 1] != start {
        if p[|p| - 1] == start {
          RouteReversed(grid, end, start, p);
          assert false;
        }
      }
  }

  /** Every entry of a `convertToGraph` table, not only those above the diagonal, is sound. */
  lemma GraphPairSound(grid: Grid, g: Graph, a: Object, b: Object)
    requires GraphOk(grid, g) && a in g.keys && b in g.keys
    ensures DistSound(grid, a.Loc(), b.Loc(), g.adj[a][b])
  {
    var i := KeyIndex(g.keys, a);
    var j := KeyIndex(g.keys, b);
    if i < j {
      GraphOkAbove(grid, g, i, j);
    } else if j < i {
      GraphOkBelow(grid, g, i, j);
    } else {
      assert g.adj[a][a] == Finite(0);
      StayIsSound(grid, a.Loc());
    }
  }

  /** A position of `a` in `keys`. */
  lemma KeyIndex(keys: seq<Object>, a: Object) returns (i: nat)
    requires a in keys
    ensures i < |keys| && keys[i] == a
  {
    i :| 0 <= i < |keys| && keys[i] == a;
  }

  /** The one-tile route: every tile is at distance 0 from itself. */
  lemma StayIsSound(grid: Grid, t: Tile)
    ensures DistSound(grid, t, t, Finite(0))
  {
    assert IsRoute(grid, t, t, [t]);
  }

  lemma GraphOkBelow(grid: Grid, g: Graph, i: nat, j: nat)
    requires GraphOk(grid, g) && j < i < |g.keys|
    ensures DistSound(grid, g.keys[i].Loc(), g.keys[j].Loc(), g.adj[g.keys[i]][g.keys[j]])
  {
    var a, b := g.keys[i], g.keys[j];
    GraphOkAbove(grid, g, j, i);
    NonObstaclesDistinct(grid);
    assert a in NonObstacles(grid).value && b in NonObstacles(grid).value;
    DistSoundSymmetric(grid, b.Loc(), a.Loc(), g.adj[b][a]);
  }

  lemma GraphOkAbove(grid: Grid, g: Graph, i: nat, j: nat)
    requires GraphOk(grid, g) && i < j < |g.keys|
    ensures DistSound(grid, g.keys[i].Loc(), g.keys[j].Loc(), g.adj[g.keys[i]][g.keys[j]])
    ensures g.adj[g.keys[i]][g.keys[j]] == g.adj[g.keys[j]][g.keys[i]]
  {
  }

  // ---------------------------------------------------------------------
  // omitFromGrid

  function LocsOf(objs: set<Object>): set<Tile>
  {
    set o | o in objs :: o.Loc()
  }

  /** The grid with the tiles of `locs` replaced by `.` and nothing else changed. */
  function Erased(grid: Grid, locs: set<Tile>): (r: Grid)
    ensures |r| == |grid|
    ensures forall x :: 0 <= x < |r| ==> |r[x]| == |grid[x]|
    ensures forall x, y :: InGrid(grid, x, y) ==> r[x][y] == if (x, y) in locs then "." else grid[x][y]
  {
    seq(|grid|, x requires 0 <= x < |grid| =>
      seq(|grid[x]|, y requires 0 <= y < |grid[x]| => if (x, y) in locs then "." else grid[x][y]))
  }

  /**
   * `omitFromGrid(grid, visited)`: a copy of the grid, same dimensions, with
   * each visited object's tile set to `.` and every other tile unchanged. The
   * input is a value and so is unchanged by construction.
   */
  method OmitFromGrid(grid: Grid, visited: set<Object>) returns (alteredGrid: Grid)
    requires forall o :: o in visited ==> InGrid(grid, o.x, o.y)
    ensures alteredGrid == Erased(grid, LocsOf(visited))
  {
    alteredGrid := grid;
    var remaining := visited;
    assert LocsOf(visited - remaining) == {};
    forall x | 0 <= x < |grid| ensures Erased(grid, {})[x] == grid[x] {
      assert forall y :: 0 <= y < |grid[x]| ==> Erased(grid, {})[x][y] == grid[x][y];
    }
    while remaining != {}
      invariant remaining <= visited
      invariant alteredGrid == Erased(grid, LocsOf(visited - remaining))
      decreases remaining
    {
      var obj :| obj in remaining;
      ghost var done := visited - remaining;
      alteredGrid := alteredGrid[obj.x := alteredGrid[obj.x][obj.y := "."]];
      remaining := remaining - {obj};
      assert LocsOf(visited - remaining) == LocsOf(done) + {obj.Loc()};
      ghost var target := Erased(grid, LocsOf(visited - remaining));
      assert |alteredGrid| == |target|;
      forall x | 0 <= x < |alteredGrid| ensures alteredGrid[x] == target[x] {
        assert |alteredGrid[x]| == |target[x]|;
      }
    }
    assert visited - remaining == visited;
  }
}

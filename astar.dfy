/**
 * `aStarSearch` of utils.py: best-first search from `start` to `end` on an
 * occupancy grid, unit step cost, a `visited` set marked when a node is
 * popped, and the path rebuilt from parent links when the goal is popped.
 */
module AStar {
  import opened Options
  import opened PathFinder

  /** `AStarNode(parent, loc, g, h)`: parent link, tile, cost so far and heuristic estimate. */
  datatype AStarNode = AStarNode(parent: Option<AStarNode>, loc: Tile, g: nat, h: int)

  /** The priority of a node: estimated total cost g + h. */
  function Key(n: AStarNode): int { n.g + n.h }

  /** The tiles from the root to `n`, following the parent links. */
  function PathOf(n: AStarNode): (p: seq<Tile>)
    ensures |p| >= 1 && p[|p| - 1] == n.loc
    decreases n
  {
    match n.parent
    case None => [n.loc]
    case Some(q) => PathOf(q) + [n.loc]
  }

  function PathFrom(t: Option<AStarNode>): seq<Tile>
  {
    match t
    case None => []
    case Some(n) => PathOf(n)
  }

  /** The `while tracker != None: path.insert(0, tracker.loc)` loop. */
  method RebuildPath(node: AStarNode) returns (path: seq<Tile>)
    ensures path == PathOf(node)
  {
    path := [];
    var tracker: Option<AStarNode> := Some(node);
    while tracker.Some?
      invariant PathFrom(tracker) + path == PathOf(node)
      decreases tracker
    {
      path := [tracker.value.loc] + path;
      tracker := tracker.value.parent;
    }
  }

  /** The heap pop: an element of minimal g + h (the first such, in insertion order). */
  method PopMin(pq: seq<AStarNode>) returns (k: nat)
    requires pq != []
    ensures k < |pq|
    ensures forall j :: 0 <= j < |pq| ==> Key(pq[k]) <= Key(pq[j])
    ensures forall j :: 0 <= j < k ==> Key(pq[k]) < Key(pq[j])
  {
    k := 0;
    for i := 1 to |pq|
      invariant k < i
      invariant forall j :: 0 <= j < i ==> Key(pq[k]) <= Key(pq[j])
      invariant forall j :: 0 <= j < k ==> Key(pq[k]) < Key(pq[j])
    {
      if Key(pq[i]) < Key(pq[k]) {
        k := i;
      }
    }
  }

  /** The nodes pushed for the neighbours `ns` of `cur` that are not yet visited, in order. */
  function Children(cur: AStarNode, ns: seq<Tile>, visited: set<Tile>, end: Tile, heuristic: (Tile, Tile) -> int)
    : seq<AStarNode>
  {
    if ns == [] then []
    else
      var n := ns[|ns| - 1];
      Children(cur, ns[..|ns| - 1], visited, end, heuristic)
        + (if n in visited then [] else [AStarNode(Some(cur), n, cur.g + 1, heuristic(n, end))])
  }

  /** The `for neighbour in neighbours` loop: push every neighbour that is not visited. */
  method PushUnvisited(pq: seq<AStarNode>, cur: AStarNode, neighbours: seq<Tile>, visited: set<Tile>,
                       end: Tile, heuristic: (Tile, Tile) -> int)
    returns (pq': seq<AStarNode>)
    ensures pq' == pq + Children(cur, neighbours, visited, end, heuristic)
  {
    pq' := pq;
    for i := 0 to |neighbours|
      invariant pq' == pq + Children(cur, neighbours[..i], visited, end, heuristic)
    {
      assert neighbours[..i + 1][..i] == neighbours[..i];
      var neighbour := neighbours[i];
      if neighbour in visited {
        continue;
      }
      pq' := pq' + [AStarNode(Some(cur), neighbour, cur.g + 1, heuristic(neighbour, end))];
    }
    assert neighbours[..|neighbours|] == neighbours;
  }

  // ---------------------------------------------------------------------
  // The search invariant.

  ghost function Cells(grid: BinGrid): set<Tile>
  {
    set x, y | 0 <= x < |grid| && 0 <= y < |grid[x]| :: (x, y)
  }

  function Locs(pq: seq<AStarNode>): set<Tile>
  {
    set i | 0 <= i < |pq| :: pq[i].loc
  }

  /** How many queued nodes sit on a tile of `visited`. */
  function CountIn(pq: seq<AStarNode>, visited: set<Tile>): nat
  {
    if pq == [] then 0
    else CountIn(pq[..|pq| - 1], visited) + (if pq[|pq| - 1].loc in visited then 1 else 0)
  }

  /** A queued node: its parent links spell a walk from `start`, and g counts its steps. */
  predicate NodeOk(grid: BinGrid, start: Tile, end: Tile, heuristic: (Tile, Tile) -> int, n: AStarNode)
  {
    var p := PathOf(n);
    p[0] == start && IsWalk(grid, p) && n.g == |p| - 1 && n.h == heuristic(n.loc, end)
  }

  lemma {:induction false} CountInAppend(a: seq<AStarNode>, b: seq<AStarNode>, visited: set<Tile>)
    ensures CountIn(a + b, visited) == CountIn(a, visited) + CountIn(b, visited)
    decreases |b|
  {
    if b == [] {
      assert a + b == a;
    } else {
      var b' := b[..|b| - 1];
      assert (a + b)[..|a + b| - 1] == a + b';
      CountInAppend(a, b', visited);
    }
  }

  lemma LocsAppend(a: seq<AStarNode>, b: seq<AStarNode>)
    ensures Locs(a + b) == Locs(a) + Locs(b)
  {
    forall t | t in Locs(a + b) ensures t in Locs(a) + Locs(b) {
      var i :| 0 <= i < |a + b| && (a + b)[i].loc == t;
      if i >= |a| {
        assert b[i - |a|].loc == t;
      }
    }
    forall t | t in Locs(a) ensures t in Locs(a + b) {
      var i :| 0 <= i < |a| && a[i].loc == t;
      assert (a + b)[i].loc == t;
    }
    forall t | t in Locs(b) ensures t in Locs(a + b) {
      var i :| 0 <= i < |b| && b[i].loc == t;
      assert (a + b)[|a| + i].loc == t;
    }
  }

  /** Removing the popped element: what stays, and how the queue's measure drops. */
  lemma PopFacts(pq: seq<AStarNode>, k: nat, visited: set<Tile>)
    requires k < |pq|
    ensures Locs(pq) == Locs(pq[..k] + pq[k + 1..]) + {pq[k].loc}
    ensures CountIn(pq, visited) == CountIn(pq[..k] + pq[k + 1..], visited) + (if pq[k].loc in visited then 1 else 0)
  {
    assert pq == pq[..k] + [pq[k]] + pq[k + 1..];
    LocsAppend(pq[..k] + [pq[k]], pq[k + 1..]);
    LocsAppend(pq[..k], [pq[k]]);
    LocsAppend(pq[..k], pq[k + 1..]);
    assert Locs([pq[k]]) == {pq[k].loc};
    CountInAppend(pq[..k] + [pq[k]], pq[k + 1..], visited);
    CountInAppend(pq[..k], [pq[k]], visited);
    CountInAppend(pq[..k], pq[k + 1..], visited);
    assert [pq[k]][..0] == [];
  }

  /** What the pushed children are: valid nodes, on the unvisited neighbours, none on a visited tile. */
  lemma {:induction false} ChildrenFacts(grid: BinGrid, start: Tile, end: Tile, heuristic: (Tile, Tile) -> int,
                                         cur: AStarNode, ns: seq<Tile>, visited: set<Tile>)
    requires NodeOk(grid, start, end, heuristic, cur)
    requires forall n :: n in ns ==> IsStep(grid, cur.loc, n)
    ensures forall c :: c in Children(cur, ns, visited, end, heuristic) ==>
      NodeOk(grid, start, end, heuristic, c) && c.loc in Cells(grid)
    ensures forall t :: t in Locs(Children(cur, ns, visited, end, heuristic)) <==> t in ns && t !in visited
    ensures CountIn(Children(cur, ns, visited, end, heuristic), visited) == 0
  {
    if ns != [] {
      var pre := ns[..|ns| - 1];
      var n := ns[|ns| - 1];
      ChildrenFacts(grid, start, end, heuristic, cur, pre, visited);
      var cs := Children(cur, pre, visited, end, heuristic);
      var last: seq<AStarNode> := if n in visited then [] else [AStarNode(Some(cur), n, cur.g + 1, heuristic(n, end))];
      assert Children(cur, ns, visited, end, heuristic) == cs + last;
      LocsAppend(cs, last);
      CountInAppend(cs, last, visited);
      if n !in visited {
        ChildOk(grid, start, end, heuristic, cur, n);
        assert Locs(last) == {n};
        assert last[..0] == [];
      } else {
        assert Locs(last) == {};
      }
      forall t ensures t in ns <==> t in pre || t == n {
        assert ns == pre + [n];
      }
    }
  }

  /** One pushed child: its path is its parent's extended by one free step. */
  lemma ChildOk(grid: BinGrid, start: Tile, end: Tile, heuristic: (Tile, Tile) -> int, cur: AStarNode, n: Tile)
    requires NodeOk(grid, start, end, heuristic, cur)
    requires IsStep(grid, cur.loc, n)
    ensures NodeOk(grid, start, end, heuristic, AStarNode(Some(cur), n, cur.g + 1, heuristic(n, end)))
    ensures n in Cells(grid)
  {
    var p := PathOf(cur);
    assert PathOf(AStarNode(Some(cur), n, cur.g + 1, heuristic(n, end))) == p + [n];
    assert IsWalk(grid, p + [n]) by {
      forall i | 0 <= i < |p + [n]| - 1 ensures IsStep(grid, (p + [n])[i], (p + [n])[i + 1]) {
        if i < |p| - 1 {
          assert IsStep(grid, p[i], p[i + 1]);
        }
      }
    }
  }

  /** The closure invariant survives one pop and push. */
  lemma ClosureKept(grid: BinGrid, visited: set<Tile>, oldpq: seq<AStarNode>, rest: seq<AStarNode>,
                    cur: Tile, children: seq<AStarNode>)
    requires forall v, n :: v in visited && IsStep(grid, v, n) ==> n in visited || n in Locs(oldpq)
    requires Locs(oldpq) == Locs(rest) + {cur}
    requires forall t :: t in Locs(children) <==> t in FreeNeighbours(cur, grid) && t !in visited + {cur}
    ensures forall v, n :: v in visited + {cur} && IsStep(grid, v, n) ==>
      n in visited + {cur} || n in Locs(rest + children)
  {
    LocsAppend(rest, children);
    FreeNeighboursSpec(cur, grid);
  }

  /** The loop invariant of `aStarSearch`. */
  ghost predicate SearchInv(grid: BinGrid, start: Tile, end: Tile, heuristic: (Tile, Tile) -> int,
                            root: AStarNode, pq: seq<AStarNode>, visited: set<Tile>)
  {
    && (forall i :: 0 <= i < |pq| ==> NodeOk(grid, start, end, heuristic, pq[i]) && pq[i].loc in Cells(grid) + {start})
    && visited <= Cells(grid) + {start}
    && end !in visited
    && (visited == {} ==> pq == [root])
    && (visited != {} ==> start in visited)
    && (forall v, n :: v in visited && IsStep(grid, v, n) ==> n in visited || n in Locs(pq))
  }

  /** One iteration that pops a non-goal node keeps the invariant and decreases the measure. */
  lemma ExpandKeepsInv(grid: BinGrid, start: Tile, end: Tile, heuristic: (Tile, Tile) -> int,
                       root: AStarNode, pq: seq<AStarNode>, visited: set<Tile>, k: nat)
    requires root == AStarNode(None, start, 0, heuristic(start, end))
    requires SearchInv(grid, start, end, heuristic, root, pq, visited)
    requires k < |pq| && pq[k].loc != end
    ensures var cur := pq[k];
      var visited' := visited + {cur.loc};
      var pq' := pq[..k] + pq[k + 1..] + Children(cur, FreeNeighbours(cur.loc, grid), visited', end, heuristic);
      && SearchInv(grid, start, end, heuristic, root, pq', visited')
      && (|Cells(grid) + {start} - visited'| < |Cells(grid) + {start} - visited|
          || (visited' == visited && CountIn(pq', visited') < CountIn(pq, visited)))
  {
    var universe := Cells(grid) + {start};
    var cur := pq[k];
    var visited' := visited + {cur.loc};
    var rest := pq[..k] + pq[k + 1..];
    var neighbours := FreeNeighbours(cur.loc, grid);
    var children := Children(cur, neighbours, visited', end, heuristic);
    var pq' := rest + children;
    FreeNeighboursSpec(cur.loc, grid);
    assert NodeOk(grid, start, end, heuristic, cur);
    ChildrenFacts(grid, start, end, heuristic, cur, neighbours, visited');
    PopFacts(pq, k, visited);
    ClosureKept(grid, visited, pq, rest, cur.loc, children);
    CountInAppend(rest, children, visited');
    forall i | 0 <= i < |pq'| ensures NodeOk(grid, start, end, heuristic, pq'[i]) && pq'[i].loc in universe {
      if i < |rest| {
        if i < k {
          assert pq'[i] == pq[i];
        } else {
          assert pq'[i] == pq[i + 1];
        }
      } else {
        assert pq'[i] == children[i - |rest|];
        assert pq'[i] in children;
      }
    }
    if visited == {} {
      assert cur == root;
    }
    if cur.loc !in visited {
      assert universe - visited' == (universe - visited) - {cur.loc};
    }
  }

  /**
   * `aStarSearch(start, end, grid, heuristic)`. A finite distance comes with
   * a walk of free 4-neighbour steps from `start` to `end` whose length is
   * that distance, which is at least the Manhattan distance; `start == end`
   * gives (0, [start]). Otherwise the result is (MAXDIST, []) and no walk
   * from `start` reaches `end`.
   */
  method AStarSearch(start: Tile, end: Tile, grid: BinGrid, heuristic: (Tile, Tile) -> int)
    returns (distance: Dist, path: seq<Tile>)
    ensures distance.Finite? ==>
      && |path| == distance.n + 1
      && path[0] == start && path[|path| - 1] == end
      && IsWalk(grid, path)
      && distance.n >= ManhattanDist(start, end)
    ensures distance.Unreachable? ==>
      path == [] && forall p :: IsWalk(grid, p) && p[0] == start ==> p[|p| - 1] != end
    ensures start == end ==> distance == Finite(0) && path == [start]
  {
    var root := AStarNode(None, start, 0, heuristic(start, end));
    var pq := [root];
    var visited: set<Tile> := {};
    ghost var universe := Cells(grid) + {start};

    while pq != []
      invariant SearchInv(grid, start, end, heuristic, root, pq, visited)
      decreases |universe - visited|, CountIn(pq, visited)
    {
      var k := PopMin(pq);
      var currentNode := pq[k];
      ghost var oldpq, oldVisited := pq, visited;

      if currentNode.loc == end {
        assert NodeOk(grid, start, end, heuristic, currentNode);
        distance := Finite(currentNode.g);
        path := RebuildPath(currentNode);
        WalkLowerBound(grid, path);
        if start == end {
          assert visited == {};
        }
        return;
      }

      ExpandKeepsInv(grid, start, end, heuristic, root, pq, visited, k);
      pq := pq[..k] + pq[k + 1..];
      visited := visited + {currentNode.loc};
      var neighbours := GetFreeNeighbours(currentNode.loc, grid);
      pq := PushUnvisited(pq, currentNode, neighbours, visited, end, heuristic);
    }

    assert start in visited;
    forall p | IsWalk(grid, p) && p[0] == start ensures p[|p| - 1] != end {
      ClosedSetBlocksWalks(grid, visited, p);
    }
    distance, path := Unreachable, [];
  }
}

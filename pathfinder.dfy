/**
 * The path finder of utils.py: the Manhattan heuristic, the free
 * 4-neighbours of a tile on a 0/1 grid, and A* search with unit step cost.
 */
module PathFinder {

  type Tile = (int, int)

  /** Column-major occupancy grid: `grid[x][y]` is 0 for a free tile, anything else blocks. */
  type BinGrid = seq<seq<int>>

  /** A path length, or the `MAXDIST` sentinel for "no route". */
  datatype Dist = Finite(n: nat) | Unreachable

  function Abs(a: int): nat { if a < 0 then -a else a }

  /** `getManhattanDist` */
  function ManhattanDist(start: Tile, end: Tile): nat
  {
    Abs(end.0 - start.0) + Abs(end.1 - start.1)
  }

  lemma ManhattanIsMetric(a: Tile, b: Tile, c: Tile)
    ensures ManhattanDist(a, b) == ManhattanDist(b, a)
    ensures ManhattanDist(a, b) == 0 <==> a == b
    ensures ManhattanDist(a, c) <= ManhattanDist(a, b) + ManhattanDist(b, c)
  {
  }

  /** One step changes the heuristic by at most one: Manhattan distance is consistent. */
  lemma ManhattanConsistent(a: Tile, b: Tile, goal: Tile)
    requires ManhattanDist(a, b) == 1
    ensures ManhattanDist(a, goal) <= ManhattanDist(b, goal) + 1
    ensures ManhattanDist(b, goal) <= ManhattanDist(a, goal) + 1
  {
  }

  /** The four neighbours in the order `getFreeNeighbours` tries them: up, right, down, left. */
  function Candidates(t: Tile): seq<Tile>
  {
    [(t.0, t.1 - 1), (t.0 + 1, t.1), (t.0, t.1 + 1), (t.0 - 1, t.1)]
  }

  predicate InBounds(grid: BinGrid, t: Tile)
  {
    0 <= t.0 < |grid| && 0 <= t.1 < |grid[t.0]|
  }

  predicate IsFree(grid: BinGrid, t: Tile)
  {
    InBounds(grid, t) && grid[t.0][t.1] == 0
  }

  /** The free tiles of `ts`, in order. */
  function FreeOf(grid: BinGrid, ts: seq<Tile>): seq<Tile>
  {
    if ts == [] then []
    else if IsFree(grid, ts[0]) then [ts[0]] + FreeOf(grid, ts[1..])
    else FreeOf(grid, ts[1..])
  }

  /** What `getFreeNeighbours(t, grid)` is meant to return. */
  function FreeNeighbours(t: Tile, grid: BinGrid): seq<Tile>
  {
    FreeOf(grid, Candidates(t))
  }

  method GetFreeNeighbours(tile: Tile, grid: BinGrid) returns (neighbours: seq<Tile>)
    ensures neighbours == FreeNeighbours(tile, grid)
  {
    neighbours := [];
    var candidates := Candidates(tile);
    for i := 0 to 4
      invariant neighbours + FreeOf(grid, candidates[i..]) == FreeOf(grid, candidates)
    {
      var neighbour := candidates[i];
      assert candidates[i..][1..] == candidates[i + 1..];
      if InBounds(grid, neighbour) {
        var isWall := grid[neighbour.0][neighbour.1];
        if isWall == 0 {
          neighbours := neighbours + [neighbour];
        }
      }
    }
  }

  /** The position of a neighbour in the up, right, down, left order. */
  function Direction(t: Tile, n: Tile): nat
  {
    if n == (t.0, t.1 - 1) then 0
    else if n == (t.0 + 1, t.1) then 1
    else if n == (t.0, t.1 + 1) then 2
    else 3
  }

  lemma {:induction false} FreeOfMembers(grid: BinGrid, ts: seq<Tile>)
    ensures |FreeOf(grid, ts)| <= |ts|
    ensures forall n :: n in FreeOf(grid, ts) <==> n in ts && IsFree(grid, n)
  {
    if ts != [] {
      FreeOfMembers(grid, ts[1..]);
      assert ts == [ts[0]] + ts[1..];
    }
  }

  /**
   * `getFreeNeighbours` returns at most four tiles, in the order up, right,
   * down, left, and they are exactly the free in-grid tiles one step away.
   */
  lemma FreeNeighboursSpec(t: Tile, grid: BinGrid)
    ensures |FreeNeighbours(t, grid)| <= 4
    ensures forall n :: n in FreeNeighbours(t, grid) <==> ManhattanDist(t, n) == 1 && IsFree(grid, n)
    ensures forall i, j :: 0 <= i < j < |FreeNeighbours(t, grid)| ==>
      Direction(t, FreeNeighbours(t, grid)[i]) < Direction(t, FreeNeighbours(t, grid)[j])
  {
    var c := Candidates(t);
    FreeOfMembers(grid, c);
    forall n ensures n in c <==> ManhattanDist(t, n) == 1 {
      if ManhattanDist(t, n) == 1 {
        assert n == c[0] || n == c[1] || n == c[2] || n == c[3];
      }
    }
    assert forall i :: 0 <= i < 4 ==> Direction(t, c[i]) == i;
    FreeOfOrdered(grid, t, c);
  }

  lemma {:induction false} FreeOfOrdered(grid: BinGrid, t: Tile, ts: seq<Tile>)
    requires forall i, j :: 0 <= i < j < |ts| ==> Direction(t, ts[i]) < Direction(t, ts[j])
    ensures forall i, j :: 0 <= i < j < |FreeOf(grid, ts)| ==>
      Direction(t, FreeOf(grid, ts)[i]) < Direction(t, FreeOf(grid, ts)[j])
  {
    if ts != [] {
      var rest := ts[1..];
      FreeOfOrdered(grid, t, rest);
      FreeOfMembers(grid, rest);
      forall n | n in FreeOf(grid, rest) ensures Direction(t, ts[0]) < Direction(t, n) {
        var k :| 0 <= k < |rest| && rest[k] == n;
        assert ts[k + 1] == n;
      }
    }
  }

  // ---------------------------------------------------------------------
  // `getFreeNeighbours` as written relies on IndexError for the bounds
  // check, but a Python index in -len..-1 does not raise: it counts from the
  // end. The literal code therefore reports off-grid tiles past the low edges.

  /** Python's `s[i]` is defined for -|s| <= i < |s|; a negative index counts from the end. */
  function PyIndex(len: nat, i: int): nat
    requires -(len as int) <= i < len
  {
    if i < 0 then len + i else i
  }

  /** `grid[t[0]][t[1]]` does not raise IndexError. */
  predicate PyCellExists(grid: BinGrid, t: Tile)
  {
    && -(|grid| as int) <= t.0 < |grid|
    && -(|grid[PyIndex(|grid|, t.0)]| as int) <= t.1 < |grid[PyIndex(|grid|, t.0)]|
  }

  function PyCell(grid: BinGrid, t: Tile): int
    requires PyCellExists(grid, t)
  {
    var col := grid[PyIndex(|grid|, t.0)];
    col[PyIndex(|col|, t.1)]
  }

  function PyFreeOf(grid: BinGrid, ts: seq<Tile>): seq<Tile>
  {
    if ts == [] then []
    else if PyCellExists(grid, ts[0]) && PyCell(grid, ts[0]) == 0 then [ts[0]] + PyFreeOf(grid, ts[1..])
    else PyFreeOf(grid, ts[1..])
  }

  /** `getFreeNeighbours` exactly as written, with Python's negative indexing. */
  function FreeNeighboursAsWritten(t: Tile, grid: BinGrid): seq<Tile>
  {
    PyFreeOf(grid, Candidates(t))
  }

  /**
   * On an all-free 2x2 grid the literal code gives the corner (0, 0) the
   * off-grid neighbours (0, -1) and (-1, 0); the intended check gives only
   * the two in-grid ones.
   */
  lemma LowEdgeWrapsAround()
    ensures FreeNeighboursAsWritten((0, 0), [[0, 0], [0, 0]]) == [(0, -1), (1, 0), (0, 1), (-1, 0)]
    ensures FreeNeighbours((0, 0), [[0, 0], [0, 0]]) == [(1, 0), (0, 1)]
  {
    var c := Candidates((0, 0));
    assert c[1..] == [(1, 0), (0, 1), (-1, 0)];
    assert c[1..][1..] == [(0, 1), (-1, 0)];
    assert c[1..][1..][1..] == [(-1, 0)];
    assert c[1..][1..][1..][1..] == [];
  }

  // ---------------------------------------------------------------------
  // Walks on the occupancy grid.

  /** One move of the search: to a free in-grid tile at distance one. */
  predicate IsStep(grid: BinGrid, a: Tile, b: Tile)
  {
    ManhattanDist(a, b) == 1 && IsFree(grid, b)
  }

  predicate IsWalk(grid: BinGrid, p: seq<Tile>)
  {
    |p| >= 1 && forall i :: 0 <= i < |p| - 1 ==> IsStep(grid, p[i], p[i + 1])
  }

  /** A walk needs at least as many steps as the Manhattan distance of its ends. */
  lemma {:induction false} WalkLowerBound(grid: BinGrid, p: seq<Tile>)
    requires IsWalk(grid, p)
    ensures |p| - 1 >= ManhattanDist(p[0], p[|p| - 1])
  {
    if |p| > 1 {
      var q := p[..|p| - 1];
      assert IsWalk(grid, q) by {
        forall i | 0 <= i < |q| - 1 ensures IsStep(grid, q[i], q[i + 1]) {
          assert IsStep(grid, p[i], p[i + 1]);
        }
      }
      WalkLowerBound(grid, q);
      assert IsStep(grid, p[|p| - 2], p[|p| - 1]);
      ManhattanIsMetric(p[0], p[|p| - 2], p[|p| - 1]);
    }
  }

  /**
   * A set that holds `start`, misses `end` and contains every free neighbour
   * of its members shuts every walk from `start` out of `end`.
   */
  lemma {:induction false} ClosedSetBlocksWalks(grid: BinGrid, s: set<Tile>, p: seq<Tile>)
    requires forall v, n :: v in s && IsStep(grid, v, n) ==> n in s
    requires IsWalk(grid, p) && p[0] in s
    ensures p[|p| - 1] in s
  {
    if |p| > 1 {
      var q := p[..|p| - 1];
      assert IsWalk(grid, q) by {
        forall i | 0 <= i < |q| - 1 ensures IsStep(grid, q[i], q[i + 1]) {
          assert IsStep(grid, p[i], p[i + 1]);
        }
      }
      ClosedSetBlocksWalks(grid, s, q);
      assert IsStep(grid, p[|p| - 2], p[|p| - 1]);
    }
  }
}

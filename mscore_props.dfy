/**
 * What the finished `getMScores` search guarantees about its table: every
 * trajectory the budget allows is explored, every table entry is such a
 * trajectory, and every step of one is a real route on the grid with the
 * objects visited before it erased.
 */
module MScoreProps {
  import opened Options
  import opened Tokens
  import opened PathFinder
  import opened ObjectGraph
  import opened FindAllProps
  import opened DLS
  import opened MScores
  import opened ScoreSearch

  /** The agent the search starts from. */
  function Agent(grid: Grid): Object
    requires FoundIn("A", grid).Some? && FoundIn("A", grid).value != []
  {
    FoundIn("A", grid).value[0]
  }

  /**
   * Completeness: every node reachable from the root by allowed steps (on the
   * distances of the final cache) was popped by the search.
   */
  lemma {:induction false} Exhaustive(grid: Grid, defaultLimit: int, explored: seq<DLSNode>, cache: Cache, n: DLSNode)
    requires SearchDone(grid, defaultLimit, explored, cache)
    requires NodeOk(NonObstacles(grid).value, Root(Agent(grid), defaultLimit), cache, n)
    ensures n in explored
    decreases n
  {
    var keys := NonObstacles(grid).value;
    match n.parent
    case None =>
      assert explored[0] == n;
    case Some(p) =>
      Exhaustive(grid, defaultLimit, explored, cache, p);
      var k :| 0 <= k < |explored| && explored[k] == p;
      var j :| 0 <= j < |keys| && keys[j] == n.obj;
      assert Expanded(keys, cache, explored[k], |keys|, explored + []);
      assert explored + [] == explored;
  }

  /**
   * Each step of a trajectory the search can take is a route of exactly the
   * step's cost on the grid with the objects visited before the step erased,
   * and that cost is at least the Manhattan distance.
   */
  lemma StepIsRoute(grid: Grid, defaultLimit: int, explored: seq<DLSNode>, cache: Cache, n: DLSNode)
    requires SearchDone(grid, defaultLimit, explored, cache)
    requires NodeOk(NonObstacles(grid).value, Root(Agent(grid), defaultLimit), cache, n) && n.parent.Some?
    ensures n.cost >= n.parent.value.cost
    ensures DistSound(Erased(grid, LocsOf(n.parent.value.Visited())), n.parent.value.obj.Loc(), n.obj.Loc(),
                      Finite(n.cost - n.parent.value.cost))
  {
    var keys := NonObstacles(grid).value;
    var root := Root(Agent(grid), defaultLimit);
    var p := n.parent.value;
    RootFacts(grid);
    NodeInvariants(keys, root.obj, defaultLimit, cache, p);
    StepLookup(grid, cache, p, n.obj);
  }

  /** Optimality: no trajectory the search can take beats the table at its length. */
  lemma MScoresOptimal(grid: Grid, defaultLimit: int, explored: seq<DLSNode>, cache: Cache, n: DLSNode)
    requires SearchDone(grid, defaultLimit, explored, cache)
    requires NodeOk(NonObstacles(grid).value, Root(Agent(grid), defaultLimit), cache, n)
    ensures n.TrajLen() in TableOf(explored)
    ensures n.score <= TableOf(explored)[n.TrajLen()].score
  {
    Exhaustive(grid, defaultLimit, explored, cache, n);
    var i :| 0 <= i < |explored| && explored[i] == n;
    TableIsMax(explored, i);
  }

  /**
   * Every entry is the score and path of a trajectory the search can take:
   * the path starts at the agent and repeats no object, the score is the sum
   * of its coins and the length is the default limit plus its delays.
   */
  lemma MScoresWitnessed(grid: Grid, defaultLimit: int, explored: seq<DLSNode>, cache: Cache, len: int)
    returns (n: DLSNode)
    requires SearchDone(grid, defaultLimit, explored, cache) && len in TableOf(explored)
    ensures NodeOk(NonObstacles(grid).value, Root(Agent(grid), defaultLimit), cache, n)
    ensures n.TrajLen() == len && TableOf(explored)[len] == MEntry(n.score, n.Path())
    ensures n.Path()[0] == Agent(grid) && Distinct(n.Path())
    ensures n.score == SumCoins(n.Path()) && len == defaultLimit + SumDelays(n.Path())
  {
    var keys := NonObstacles(grid).value;
    var i := TableWitness(explored, len);
    n := explored[i];
    RootFacts(grid);
    NodeInvariants(keys, Agent(grid), defaultLimit, cache, n);
  }

  /** The root's own length, the default limit, is always a key, with a score of at least 0. */
  lemma DefaultLimitKey(grid: Grid, defaultLimit: int, explored: seq<DLSNode>, cache: Cache)
    requires SearchDone(grid, defaultLimit, explored, cache)
    ensures defaultLimit in TableOf(explored) && TableOf(explored)[defaultLimit].score >= 0
  {
    TableIsMax(explored, 0);
  }

  lemma {:induction false} NoDelaysOnPath(p: seq<Object>)
    requires forall o :: o in p ==> o.identifier != "SD"
    ensures SumDelays(p) == 0
  {
    if p != [] {
      NoDelaysOnPath(p[..|p| - 1]);
      assert p[|p| - 1] in p;
    }
  }

  /** Without shutdown-delay buttons on the grid, the default limit is the only trajectory length. */
  lemma NoDelaysSingleKey(grid: Grid, defaultLimit: int, explored: seq<DLSNode>, cache: Cache)
    requires SearchDone(grid, defaultLimit, explored, cache) && FoundIn("SD", grid) == Some([])
    ensures TableOf(explored).Keys == {defaultLimit}
  {
    var keys := NonObstacles(grid).value;
    DefaultLimitKey(grid, defaultLimit, explored, cache);
    forall len | len in TableOf(explored) ensures len == defaultLimit {
      var n := MScoresWitnessed(grid, defaultLimit, explored, cache, len);
      RootFacts(grid);
      NodeInvariants(keys, Agent(grid), defaultLimit, cache, n);
      FindAllSpec("A", grid);
      FindAllSpec("C", grid);
      assert keys == FoundIn("A", grid).value + FoundIn("C", grid).value + [];
      NoDelaysOnPath(n.Path());
    }
  }
}

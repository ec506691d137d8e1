/**
 * The nodes of the depth-limited search in `getMScores` (utils.py): a node
 * stands for a sequence of object visits starting at the agent, with the
 * time spent so far (`cost`), the time left before shutdown (`budget`) and
 * the coins collected (`score`).
 */
module DLS {
  import opened Options
  import opened Tokens
  import opened PathFinder
  import opened ObjectGraph

  datatype DLSNode = DLSNode(parent: Option<DLSNode>, obj: Object, cost: int, budget: int, score: int)
  {
    /** `getPath`: the objects from the root to this node. */
    function Path(): (p: seq<Object>)
      ensures |p| >= 1 && p[|p| - 1] == obj
      decreases this
    {
      match parent
      case None => [obj]
      case Some(pn) => pn.Path() + [obj]
    }

    /** `getVisited`: the objects on the path before this node's own. */
    function Visited(): set<Object>
    {
      (set o | o in Path()) - {obj}
    }

    /** `getTrajLen`: the episode length this node's trajectory ends up with. */
    function TrajLen(): int
    {
      cost + budget
    }
  }

  /** What a visit adds to the score: a coin's value. */
  function CoinValue(o: Object): int
  {
    if o.identifier == "C" then o.value else 0
  }

  /** What a visit adds to the budget: a shutdown-delay button's value. */
  function DelayValue(o: Object): int
  {
    if o.identifier == "SD" then o.value else 0
  }

  /** The start node `DLSNode(None, agent, 0, defaultLimit, 0)`. */
  function Root(agent: Object, defaultLimit: int): DLSNode
  {
    DLSNode(None, agent, 0, defaultLimit, 0)
  }

  /** The node for a step of length `d` from `p` to `o`. */
  function Child(p: DLSNode, o: Object, d: nat): DLSNode
  {
    DLSNode(Some(p), o, p.cost + d, p.budget - d + DelayValue(o), p.score + CoinValue(o))
  }

  /** `d > budget`, with MAXDIST above every budget. */
  predicate Exceeds(d: Dist, budget: int)
  {
    match d
    case Unreachable => true
    case Finite(n) => n > budget
  }

  /** The graphs built so far, one per set of visited objects (`graphs`). */
  type Cache = map<set<Object>, Graph>

  /** The cache has a distance from `n`'s object to `o` for `n`'s visited set. */
  predicate HasStep(cache: Cache, n: DLSNode, o: Object)
  {
    && n.Visited() in cache
    && n.obj in cache[n.Visited()].adj
    && o in cache[n.Visited()].adj[n.obj]
  }

  function StepDist(cache: Cache, n: DLSNode, o: Object): Dist
    requires HasStep(cache, n, o)
  {
    cache[n.Visited()].adj[n.obj][o]
  }

  /** The search moves from `n` to `o`: a key not yet on the path, within the budget. */
  predicate CanStep(keys: seq<Object>, cache: Cache, n: DLSNode, o: Object)
  {
    && o in keys
    && o !in n.Path()
    && HasStep(cache, n, o)
    && !Exceeds(StepDist(cache, n, o), n.budget)
  }

  function StepChild(keys: seq<Object>, cache: Cache, n: DLSNode, o: Object): DLSNode
    requires CanStep(keys, cache, n, o)
  {
    Child(n, o, StepDist(cache, n, o).n)
  }

  /** `n` is `root` or a chain of allowed steps from it: what the search can enqueue. */
  predicate NodeOk(keys: seq<Object>, root: DLSNode, cache: Cache, n: DLSNode)
    decreases n
  {
    match n.parent
    case None => n == root
    case Some(p) => NodeOk(keys, root, cache, p) && CanStep(keys, cache, p, n.obj) && n == StepChild(keys, cache, p, n.obj)
  }

  /** `c2` agrees with `c1` wherever `c1` is defined. */
  predicate Extends(c1: Cache, c2: Cache)
  {
    forall v :: v in c1 ==> v in c2 && c2[v] == c1[v]
  }

  lemma {:induction false} NodeOkExtends(keys: seq<Object>, root: DLSNode, c1: Cache, c2: Cache, n: DLSNode)
    requires Extends(c1, c2) && NodeOk(keys, root, c1, n)
    ensures NodeOk(keys, root, c2, n)
    decreases n
  {
    if n.parent.Some? {
      NodeOkExtends(keys, root, c1, c2, n.parent.value);
    }
  }

  function SumCoins(p: seq<Object>): int
  {
    if p == [] then 0 else SumCoins(p[..|p| - 1]) + CoinValue(p[|p| - 1])
  }

  function SumDelays(p: seq<Object>): int
  {
    if p == [] then 0 else SumDelays(p[..|p| - 1]) + DelayValue(p[|p| - 1])
  }

  /**
   * Every node the search can enqueue starts at the agent, never visits an
   * object twice and only visits graph keys; its score is the sum of the
   * coins on its path, and its cost plus budget is the default limit plus the
   * delays on its path.
   */
  lemma {:induction false} NodeInvariants(keys: seq<Object>, agent: Object, defaultLimit: int, cache: Cache, n: DLSNode)
    requires agent in keys && agent.identifier == "A"
    requires NodeOk(keys, Root(agent, defaultLimit), cache, n)
    ensures n.Path()[0] == agent
    ensures Distinct(n.Path())
    ensures forall o :: o in n.Path() ==> o in keys
    ensures n.score == SumCoins(n.Path())
    ensures n.cost + n.budget == defaultLimit + SumDelays(n.Path())
    decreases n
  {
    match n.parent
    case None =>
    case Some(p) =>
      NodeInvariants(keys, agent, defaultLimit, cache, p);
      var pp := p.Path();
      assert n.Path() == pp + [n.obj];
      assert n.Path()[..|pp|] == pp;
  }

  /**
   * The budget never goes negative, provided the default limit is not
   * negative and no shutdown-delay button has a negative value.
   */
  lemma {:induction false} BudgetNonNegative(keys: seq<Object>, root: DLSNode, cache: Cache, n: DLSNode)
    requires root.budget >= 0
    requires forall o :: o in keys ==> DelayValue(o) >= 0
    requires NodeOk(keys, root, cache, n)
    ensures n.budget >= 0
    decreases n
  {
    if n.parent.Some? {
      BudgetNonNegative(keys, root, cache, n.parent.value);
    }
  }
}

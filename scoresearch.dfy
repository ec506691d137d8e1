/**
 * `getMScores` (utils.py): breadth-first enumeration of every sequence of
 * object visits the time budget allows, starting at the agent, with one
 * distance graph per set of visited objects (the visited objects erased from
 * the grid), recording the best score per trajectory length.
 */
module ScoreSearch {
  import opened Options
  import opened Tokens
  import opened PathFinder
  import opened ObjectGraph
  import opened FindAllProps
  import opened Erasure
  import opened DLS
  import opened MScores

  /** Every cached graph is `convertToGraph` of the grid with its visited set erased. */
  ghost predicate CacheOk(grid: Grid, cache: Cache)
  {
    forall v {:trigger GraphOk(Erased(grid, LocsOf(v)), cache[v])} :: v in cache ==> GraphOk(Erased(grid, LocsOf(v)), cache[v])
  }

  /**
   * The first `j` keys, as steps from `n`: each one not on `n`'s path has a
   * cached distance, and when the step is allowed its node is in `reached`.
   */
  ghost predicate Expanded(keys: seq<Object>, cache: Cache, n: DLSNode, j: nat, reached: seq<DLSNode>)
  {
    forall j' :: 0 <= j' < j && j' < |keys| && keys[j'] !in n.Path() ==>
      && HasStep(cache, n, keys[j'])
      && (CanStep(keys, cache, n, keys[j']) ==> StepChild(keys, cache, n, keys[j']) in reached)
  }

  /** The first `m` explored nodes are fully expanded into `explored + pending`. */
  ghost predicate ClosedUpTo(keys: seq<Object>, cache: Cache, explored: seq<DLSNode>, m: nat, pending: seq<DLSNode>)
  {
    forall k {:trigger Expanded(keys, cache, explored[k], |keys|, explored + pending)} ::
      0 <= k < m && k < |explored| ==> Expanded(keys, cache, explored[k], |keys|, explored + pending)
  }

  ghost predicate AllOk(keys: seq<Object>, root: DLSNode, cache: Cache, s: seq<DLSNode>)
  {
    forall i :: 0 <= i < |s| ==> NodeOk(keys, root, cache, s[i])
  }

  /** The state `getMScores` ends in: the finished search over `grid` from the agent. */
  ghost predicate SearchDone(grid: Grid, defaultLimit: int, explored: seq<DLSNode>, cache: Cache)
  {
    && NonObstacles(grid).Some?
    && FoundIn("A", grid).Some? && FoundIn("A", grid).value != []
    && var keys := NonObstacles(grid).value;
       var root := Root(FoundIn("A", grid).value[0], defaultLimit);
       && CacheOk(grid, cache)
       && |explored| >= 1 && explored[0] == root
       && AllOk(keys, root, cache, explored)
       && ClosedUpTo(keys, cache, explored, |explored|, [])
  }

  // ---------------------------------------------------------------------
  // Looking distances up in the cache

  lemma CachedKeys(grid: Grid, cache: Cache, v: set<Object>)
    requires NonObstacles(grid).Some? && CacheOk(grid, cache) && v in cache
    ensures cache[v].keys == Surviving(NonObstacles(grid).value, LocsOf(v))
    ensures HasEntries(cache[v])
  {
    assert GraphOk(Erased(grid, LocsOf(v)), cache[v]);
    NonObstaclesErased(grid, LocsOf(v));
  }

  /**
   * From a node on graph keys, the cached graph of its visited set has an
   * entry to every key not visited before it, and that entry is what
   * `getDist` promises on the grid with the visited objects erased.
   */
  lemma StepLookup(grid: Grid, cache: Cache, n: DLSNode, o: Object)
    requires NonObstacles(grid).Some? && CacheOk(grid, cache) && n.Visited() in cache
    requires forall p :: p in n.Path() ==> p in NonObstacles(grid).value
    requires o in NonObstacles(grid).value && o !in n.Visited()
    ensures HasStep(cache, n, o)
    ensures DistSound(Erased(grid, LocsOf(n.Visited())), n.obj.Loc(), o.Loc(), StepDist(cache, n, o))
  {
    var keys := NonObstacles(grid).value;
    var v := n.Visited();
    var g := cache[v];
    CachedKeys(grid, cache, v);
    NonObstaclesDistinct(grid);
    assert n.obj in n.Path();
    KeptByErasure(keys, v, n.obj);
    KeptByErasure(keys, v, o);
    GraphPairSound(Erased(grid, LocsOf(v)), g, n.obj, o);
  }

  /** Erasing the tiles of some keys keeps every other key. */
  lemma KeptByErasure(keys: seq<Object>, v: set<Object>, o: Object)
    requires DistinctLocs(keys) && (forall w :: w in v ==> w in keys)
    requires o in keys && o !in v
    ensures o in Surviving(keys, LocsOf(v))
  {
    if o.Loc() in LocsOf(v) {
      var w :| w in v && w.Loc() == o.Loc();
      SameTileSameObject(keys, w, o);
    }
  }

  lemma SameTileSameObject(keys: seq<Object>, a: Object, b: Object)
    requires DistinctLocs(keys) && a in keys && b in keys && a.Loc() == b.Loc()
    ensures a == b
  {
    var i :| 0 <= i < |keys| && keys[i] == a;
    var j :| 0 <= j < |keys| && keys[j] == b;
    assert !(i < j) && !(j < i);
  }

  // ---------------------------------------------------------------------
  // Growing the cache

  lemma AllOkExtends(keys: seq<Object>, root: DLSNode, c1: Cache, c2: Cache, s: seq<DLSNode>)
    requires Extends(c1, c2) && AllOk(keys, root, c1, s)
    ensures AllOk(keys, root, c2, s)
  {
    forall i | 0 <= i < |s| ensures NodeOk(keys, root, c2, s[i]) {
      NodeOkExtends(keys, root, c1, c2, s[i]);
    }
  }

  lemma ExpandedExtends(keys: seq<Object>, c1: Cache, c2: Cache, n: DLSNode, j: nat, reached: seq<DLSNode>)
    requires Extends(c1, c2) && Expanded(keys, c1, n, j, reached)
    ensures Expanded(keys, c2, n, j, reached)
  {
    forall j' | 0 <= j' < j && j' < |keys| && keys[j'] !in n.Path()
      ensures HasStep(c2, n, keys[j'])
      ensures CanStep(keys, c2, n, keys[j']) ==> StepChild(keys, c2, n, keys[j']) in reached
    {
      assert HasStep(c1, n, keys[j']);
    }
  }

  /** Adding a graph for a new visited set keeps every fact about the old ones. */
  lemma GrowCache(grid: Grid, keys: seq<Object>, root: DLSNode, c1: Cache, c2: Cache, g: Graph,
                  explored: seq<DLSNode>, q: seq<DLSNode>, rest: seq<DLSNode>, j: nat)
    requires InnerInv(grid, keys, root, c1, explored, q, rest, j)
    requires explored[|explored| - 1].Visited() !in c1
    requires c2 == c1[explored[|explored| - 1].Visited() := g]
    requires GraphOk(Erased(grid, LocsOf(explored[|explored| - 1].Visited())), g)
    ensures InnerInv(grid, keys, root, c2, explored, q, rest, j)
  {
    var cur := explored[|explored| - 1];
    assert Extends(c1, c2);
    AllOkExtends(keys, root, c1, c2, explored);
    AllOkExtends(keys, root, c1, c2, q);
    forall k | 0 <= k < |explored| - 1 && k < |explored| ensures Expanded(keys, c2, explored[k], |keys|, explored + q) {
      ExpandedExtends(keys, c1, c2, explored[k], |keys|, explored + q);
    }
    ExpandedExtends(keys, c1, c2, cur, j, explored + q);
  }

  /** The graph of the whole grid is the one for the empty visited set. */
  lemma InitialCache(grid: Grid, g: Graph)
    requires GraphOk(grid, g)
    ensures CacheOk(grid, map[{} := g])
  {
    assert LocsOf({}) == {};
    forall x | 0 <= x < |grid| ensures Erased(grid, {})[x] == grid[x] {
      assert forall y :: 0 <= y < |grid[x]| ==> Erased(grid, {})[x][y] == grid[x][y];
    }
    assert Erased(grid, {}) == grid;
    forall v | v in map[{} := g] ensures GraphOk(Erased(grid, LocsOf(v)), map[{} := g][v]) {
      assert v == {};
    }
  }

  /** The part of the node invariants the expansion needs: the path stays on graph keys. */
  lemma PathInKeys(keys: seq<Object>, root: DLSNode, cache: Cache, n: DLSNode)
    requires root == Root(root.obj, root.budget) && root.obj in keys && root.obj.identifier == "A"
    requires NodeOk(keys, root, cache, n)
    ensures forall o :: o in n.Path() ==> o in keys
  {
    NodeInvariants(keys, root.obj, root.budget, cache, n);
  }

  /** The agent `getMScores` starts from is a graph key. */
  lemma RootFacts(grid: Grid)
    requires NonObstacles(grid).Some? && FoundIn("A", grid).value != []
    ensures FoundIn("A", grid).value[0] in NonObstacles(grid).value
    ensures FoundIn("A", grid).value[0].identifier == "A"
  {
    FindAllSpec("A", grid);
    assert FoundIn("A", grid).value[0] in FoundIn("A", grid).value;
  }

  // ---------------------------------------------------------------------
  // Termination: a node with `r` unvisited keys weighs W(r) = 1 + K * W(r - 1),
  // more than the K children it can spawn.

  function PathSet(n: DLSNode): set<Object>
  {
    set o | o in n.Path()
  }

  function Remaining(keys: seq<Object>, n: DLSNode): nat
  {
    |(set k | k in keys) - PathSet(n)|
  }

  function Weight1(k: nat, r: nat): nat
  {
    if r == 0 then 1 else 1 + k * Weight1(k, r - 1)
  }

  function Weight(keys: seq<Object>, q: seq<DLSNode>): nat
  {
    if q == [] then 0 else Weight1(|keys|, Remaining(keys, q[0])) + Weight(keys, q[1..])
  }

  lemma {:induction false} WeightAppend(keys: seq<Object>, a: seq<DLSNode>, b: seq<DLSNode>)
    ensures Weight(keys, a + b) == Weight(keys, a) + Weight(keys, b)
  {
    if a != [] {
      assert (a + b)[1..] == a[1..] + b;
      WeightAppend(keys, a[1..], b);
    } else {
      assert a + b == b;
    }
  }

  /** A step to an unvisited key leaves one key fewer to visit. */
  lemma ChildRemaining(keys: seq<Object>, n: DLSNode, o: Object, d: nat)
    requires o in keys && o !in n.Path()
    ensures Remaining(keys, n) >= 1
    ensures Remaining(keys, Child(n, o, d)) == Remaining(keys, n) - 1
  {
    var ks := set k | k in keys;
    var c := Child(n, o, d);
    assert c.Path() == n.Path() + [o];
    assert PathSet(c) == PathSet(n) + {o};
    var left := ks - PathSet(n);
    assert o in left;
    assert ks - PathSet(c) == left - {o};
    assert left == (left - {o}) + {o};
  }

  // ---------------------------------------------------------------------
  // The loop invariants of the search, one step at a time

  /** The `while not q.empty()` invariant. */
  ghost predicate OuterInv(grid: Grid, keys: seq<Object>, root: DLSNode, cache: Cache, table: MTable,
                           explored: seq<DLSNode>, q: seq<DLSNode>)
  {
    && CacheOk(grid, cache)
    && table == TableOf(explored)
    && (|explored| == 0 ==> q == [root])
    && (|explored| > 0 ==> explored[0] == root)
    && AllOk(keys, root, cache, explored) && AllOk(keys, root, cache, q)
    && ClosedUpTo(keys, cache, explored, |explored|, q)
  }

  /** What the children of a node weigh: one less key remains unvisited. */
  function ChildWeight(keys: seq<Object>, n: DLSNode): nat
  {
    if Remaining(keys, n) == 0 then 0 else Weight1(|keys|, Remaining(keys, n) - 1)
  }

  /** The `for neighbour in ...` invariant while `cur`, the last explored node, is expanded. */
  ghost predicate InnerInv(grid: Grid, keys: seq<Object>, root: DLSNode, cache: Cache,
                           explored: seq<DLSNode>, q: seq<DLSNode>, rest: seq<DLSNode>, j: nat)
  {
    && CacheOk(grid, cache)
    && |explored| >= 1
    && explored[0] == root
    && AllOk(keys, root, cache, explored) && AllOk(keys, root, cache, q)
    && ClosedUpTo(keys, cache, explored, |explored| - 1, q)
    && Expanded(keys, cache, explored[|explored| - 1], j, explored + q)
    && Weight(keys, q) <= Weight(keys, rest) + j * ChildWeight(keys, explored[|explored| - 1])
  }

  lemma ExpandedMono(keys: seq<Object>, cache: Cache, n: DLSNode, j: nat, r1: seq<DLSNode>, r2: seq<DLSNode>)
    requires Expanded(keys, cache, n, j, r1) && forall x :: x in r1 ==> x in r2
    ensures Expanded(keys, cache, n, j, r2)
  {
  }

  lemma ClosedMono(keys: seq<Object>, cache: Cache, explored: seq<DLSNode>, m: nat, p1: seq<DLSNode>, p2: seq<DLSNode>)
    requires ClosedUpTo(keys, cache, explored, m, p1) && forall x :: x in p1 ==> x in p2
    ensures ClosedUpTo(keys, cache, explored, m, p2)
  {
    forall k | 0 <= k < m && k < |explored| ensures Expanded(keys, cache, explored[k], |keys|, explored + p2) {
      ExpandedMono(keys, cache, explored[k], |keys|, explored + p1, explored + p2);
    }
  }

  lemma SearchStarts(grid: Grid, keys: seq<Object>, root: DLSNode, cache: Cache)
    requires CacheOk(grid, cache) && root.parent.None?
    ensures OuterInv(grid, keys, root, cache, map[], [], [root])
  {
  }

  lemma SearchFinishes(grid: Grid, defaultLimit: int, keys: seq<Object>, root: DLSNode, cache: Cache,
                       table: MTable, explored: seq<DLSNode>)
    requires NonObstacles(grid).Some? && keys == NonObstacles(grid).value
    requires FoundIn("A", grid).value != [] && root == Root(FoundIn("A", grid).value[0], defaultLimit)
    requires OuterInv(grid, keys, root, cache, table, explored, [])
    ensures SearchDone(grid, defaultLimit, explored, cache) && table == TableOf(explored)
  {
    assert explored + [] == explored;
  }

  /** Popping `cur` from the front of the queue and recording it starts its expansion. */
  lemma PopStarts(grid: Grid, keys: seq<Object>, root: DLSNode, cache: Cache, table: MTable,
                  before: seq<DLSNode>, q0: seq<DLSNode>)
    requires OuterInv(grid, keys, root, cache, table, before, q0) && q0 != []
    ensures Record(table, q0[0]) == TableOf(before + [q0[0]])
    ensures InnerInv(grid, keys, root, cache, before + [q0[0]], q0[1..], q0[1..], 0)
  {
    var cur, rest := q0[0], q0[1..];
    var explored := before + [cur];
    assert explored[..|explored| - 1] == before;
    PopShift(before, q0);
    assert AllOk(keys, root, cache, explored) by {
      forall i | 0 <= i < |explored| ensures NodeOk(keys, root, cache, explored[i]) {
        if i < |before| {
          assert explored[i] == before[i];
        }
      }
    }
    assert AllOk(keys, root, cache, rest) by {
      forall i | 0 <= i < |rest| ensures NodeOk(keys, root, cache, rest[i]) {
        assert q0[i + 1] == rest[i];
      }
    }
    forall k | 0 <= k < |explored| - 1 && k < |explored|
      ensures Expanded(keys, cache, explored[k], |keys|, explored + rest)
    {
      assert explored[k] == before[k];
    }
  }

  /** Moving the head of the queue to the end of `explored` keeps their concatenation. */
  lemma PopShift(before: seq<DLSNode>, q0: seq<DLSNode>)
    requires q0 != []
    ensures before + q0 == (before + [q0[0]]) + q0[1..]
  {
    assert q0 == [q0[0]] + q0[1..];
  }

  lemma MulStep(j: nat, c: nat)
    ensures (j + 1) * c == j * c + c
  {
  }

  /** A neighbour already on the path is skipped. */
  lemma SkipVisited(grid: Grid, keys: seq<Object>, root: DLSNode, cache: Cache,
                    explored: seq<DLSNode>, q: seq<DLSNode>, rest: seq<DLSNode>, j: nat)
    requires InnerInv(grid, keys, root, cache, explored, q, rest, j) && j < |keys|
    requires keys[j] in explored[|explored| - 1].Path()
    ensures InnerInv(grid, keys, root, cache, explored, q, rest, j + 1)
  {
    var cur := explored[|explored| - 1];
    assert Expanded(keys, cache, cur, j + 1, explored + q) by {
      assert Expanded(keys, cache, cur, j, explored + q);
    }
    MulStep(j, ChildWeight(keys, cur));
  }

  /** A neighbour too far for the remaining budget is skipped. */
  lemma SkipFar(grid: Grid, keys: seq<Object>, root: DLSNode, cache: Cache,
                explored: seq<DLSNode>, q: seq<DLSNode>, rest: seq<DLSNode>, j: nat)
    requires InnerInv(grid, keys, root, cache, explored, q, rest, j) && j < |keys|
    requires HasStep(cache, explored[|explored| - 1], keys[j])
    requires Exceeds(StepDist(cache, explored[|explored| - 1], keys[j]), explored[|explored| - 1].budget)
    ensures InnerInv(grid, keys, root, cache, explored, q, rest, j + 1)
  {
    MulStep(j, ChildWeight(keys, explored[|explored| - 1]));
  }

  /** An allowed step enqueues its node. */
  lemma Enqueue(grid: Grid, keys: seq<Object>, root: DLSNode, cache: Cache,
                explored: seq<DLSNode>, q: seq<DLSNode>, rest: seq<DLSNode>, j: nat, child: DLSNode)
    requires InnerInv(grid, keys, root, cache, explored, q, rest, j) && j < |keys|
    requires CanStep(keys, cache, explored[|explored| - 1], keys[j])
    requires child == StepChild(keys, cache, explored[|explored| - 1], keys[j])
    ensures InnerInv(grid, keys, root, cache, explored, q + [child], rest, j + 1)
  {
    var cur := explored[|explored| - 1];
    var q' := q + [child];
    assert NodeOk(keys, root, cache, cur);
    assert NodeOk(keys, root, cache, child);
    AllOkAppend(keys, root, cache, q, child);
    ClosedMono(keys, cache, explored, |explored| - 1, q, q');
    ExpandedMono(keys, cache, cur, j, explored + q, explored + q');
    assert child in explored + q';
    EnqueueWeight(keys, q, rest, cur, keys[j], StepDist(cache, cur, keys[j]).n, j);
  }

  lemma AllOkAppend(keys: seq<Object>, root: DLSNode, cache: Cache, q: seq<DLSNode>, x: DLSNode)
    requires AllOk(keys, root, cache, q) && NodeOk(keys, root, cache, x)
    ensures AllOk(keys, root, cache, q + [x])
  {
    forall i | 0 <= i < |q| + 1 ensures NodeOk(keys, root, cache, (q + [x])[i]) {
      if i < |q| {
        assert (q + [x])[i] == q[i];
      }
    }
  }

  lemma EnqueueWeight(keys: seq<Object>, q: seq<DLSNode>, rest: seq<DLSNode>, cur: DLSNode, o: Object, d: nat, j: nat)
    requires o in keys && o !in cur.Path()
    requires Weight(keys, q) <= Weight(keys, rest) + j * ChildWeight(keys, cur)
    ensures Weight(keys, q + [Child(cur, o, d)]) <= Weight(keys, rest) + (j + 1) * ChildWeight(keys, cur)
  {
    ChildRemaining(keys, cur, o, d);
    WeightAppend(keys, q, [Child(cur, o, d)]);
    assert Weight(keys, [Child(cur, o, d)]) == ChildWeight(keys, cur);
    MulStep(j, ChildWeight(keys, cur));
  }

  /** After every key was tried, `cur` is expanded and the queue weighs less than before the pop. */
  lemma ExpansionDone(grid: Grid, keys: seq<Object>, root: DLSNode, cache: Cache, table: MTable,
                      explored: seq<DLSNode>, q: seq<DLSNode>, q0: seq<DLSNode>)
    requires q0 != [] && InnerInv(grid, keys, root, cache, explored, q, q0[1..], |keys|)
    requires explored[|explored| - 1] == q0[0] && table == TableOf(explored)
    ensures OuterInv(grid, keys, root, cache, table, explored, q)
    ensures Weight(keys, q) < Weight(keys, q0)
  {
    var cur := explored[|explored| - 1];
    forall k | 0 <= k < |explored| ensures Expanded(keys, cache, explored[k], |keys|, explored + q) {
    }
    ChildrenLighter(keys, cur);
    HeadWeight(keys, q0);
  }

  /** The children of a node weigh less than the node itself. */
  lemma ChildrenLighter(keys: seq<Object>, cur: DLSNode)
    ensures |keys| * ChildWeight(keys, cur) < Weight1(|keys|, Remaining(keys, cur))
  {
    var k, r := |keys|, Remaining(keys, cur);
    if r == 0 {
      MulStep(0, k);
    } else {
      assert Weight1(k, r) == 1 + k * ChildWeight(keys, cur);
    }
  }

  /** The queue weighs its head plus its tail. */
  lemma HeadWeight(keys: seq<Object>, q0: seq<DLSNode>)
    requires q0 != []
    ensures Weight(keys, q0) == Weight1(|keys|, Remaining(keys, q0[0])) + Weight(keys, q0[1..])
  {
  }

  // ---------------------------------------------------------------------
  // The search

  /**
   * The table update for a popped node: a new trajectory length is inserted,
   * an existing one is replaced only by a strictly greater score.
   */
  method RecordNode(table: MTable, node: DLSNode) returns (updated: MTable)
    ensures updated == Record(table, node)
  {
    updated := table;
    var len := node.TrajLen();
    if len !in updated {
      updated := updated[len := MEntry(node.score, node.Path())];
    } else if node.score > updated[len].score {
      updated := updated[len := MEntry(node.score, node.Path())];
    }
  }

  /**
   * `graphs[visited]`, built by `convertToGraph(omitFromGrid(grid, visited))`
   * and stored when it is missing.
   */
  method GraphFor(grid: Grid, keys: seq<Object>, root: DLSNode, cache0: Cache, visited: set<Object>,
                  ghost explored: seq<DLSNode>, ghost q: seq<DLSNode>, ghost rest: seq<DLSNode>, ghost j: nat)
    returns (graph: Graph, cache: Cache)
    requires NonObstacles(grid).Some? && keys == NonObstacles(grid).value
    requires InnerInv(grid, keys, root, cache0, explored, q, rest, j)
    requires visited == explored[|explored| - 1].Visited() && forall o :: o in visited ==> o in keys
    ensures visited in cache && graph == cache[visited]
    ensures visited in cache0 ==> cache == cache0
    ensures visited !in cache0 ==> cache == cache0[visited := graph]
    ensures Extends(cache0, cache) && Grows(cache0, cache, visited)
    ensures InnerInv(grid, keys, root, cache, explored, q, rest, j)
  {
    if visited in cache0 {
      graph, cache := cache0[visited], cache0;
    } else {
      NonObstaclesDistinct(grid);
      var omitted := OmitFromGrid(grid, visited);
      NonObstaclesErased(grid, LocsOf(visited));
      var g := ConvertToGraph(omitted);
      graph := g.value;
      cache := cache0[visited := graph];
      GrowCache(grid, keys, root, cache0, cache, graph, explored, q, rest, j);
    }
  }

  /**
   * The `for neighbour in list(initialGraph.keys())` loop for the node
   * `cur` just popped (the last of `explored`): every key not on its path is
   * tried with the cached graph of its visited set, building that graph when
   * it is missing, and every step within the budget enqueues its node.
   */
  method ExpandNode(grid: Grid, keys: seq<Object>, root: DLSNode, cur: DLSNode, cache0: Cache, q0: seq<DLSNode>,
                    ghost explored: seq<DLSNode>, ghost rest: seq<DLSNode>)
    returns (cache: Cache, q: seq<DLSNode>)
    requires NonObstacles(grid).Some? && keys == NonObstacles(grid).value
    requires root == Root(root.obj, root.budget) && root.obj in keys && root.obj.identifier == "A"
    requires InnerInv(grid, keys, root, cache0, explored, q0, rest, 0) && cur == explored[|explored| - 1]
    ensures InnerInv(grid, keys, root, cache, explored, q, rest, |keys|)
    ensures q == q0 + Steps(keys, cache, cur, |keys|)
    ensures Grows(cache0, cache, cur.Visited())
  {
    cache, q := cache0, q0;
    PathInKeys(keys, root, cache, cur);
    for j := 0 to |keys|
      invariant InnerInv(grid, keys, root, cache, explored, q, rest, j)
      invariant Grows(cache0, cache, cur.Visited())
      invariant j > 0 ==> cur.Visited() in cache
      invariant q == q0 + Steps(keys, cache, cur, j)
    {
      ghost var before := cache;
      cache, q := VisitKey(grid, keys, root, cur, cache, q, explored, rest, j, q0);
      GrowsTrans(cache0, before, cache, cur.Visited());
    }
  }

  /**
   * One turn of the `for neighbour` loop: the graph for `cur`'s visited set
   * is looked up or built, then the step to `keys[j]` is tried.
   */
  method VisitKey(grid: Grid, keys: seq<Object>, root: DLSNode, cur: DLSNode, cache0: Cache, q0: seq<DLSNode>,
                  ghost explored: seq<DLSNode>, ghost rest: seq<DLSNode>, j: nat, ghost start: seq<DLSNode>)
    returns (cache: Cache, q: seq<DLSNode>)
    requires NonObstacles(grid).Some? && keys == NonObstacles(grid).value && j < |keys|
    requires InnerInv(grid, keys, root, cache0, explored, q0, rest, j) && cur == explored[|explored| - 1]
    requires forall o :: o in cur.Path() ==> o in keys
    requires j > 0 ==> cur.Visited() in cache0
    requires q0 == start + Steps(keys, cache0, cur, j)
    ensures InnerInv(grid, keys, root, cache, explored, q, rest, j + 1)
    ensures cur.Visited() in cache
    ensures Grows(cache0, cache, cur.Visited())
    ensures q == start + Steps(keys, cache, cur, j + 1)
  {
    var alteredGraph;
    alteredGraph, cache := GraphFor(grid, keys, root, cache0, cur.Visited(), explored, q0, rest, j);
    StepsKept(keys, cache0, cache, cur, j);
    q := TryNeighbour(grid, keys, root, cur, cache, alteredGraph, q0, explored, rest, j);
  }

  /** The nodes the `for neighbour` loop enqueues for the first `j` keys, in key order. */
  function Steps(keys: seq<Object>, cache: Cache, n: DLSNode, j: nat): seq<DLSNode>
    requires j <= |keys|
  {
    if j == 0 then []
    else Steps(keys, cache, n, j - 1) + StepTo(keys, cache, n, keys[j - 1])
  }

  /** The node the step from `n` to `o` enqueues, if the step is allowed. */
  function StepTo(keys: seq<Object>, cache: Cache, n: DLSNode, o: Object): seq<DLSNode>
  {
    if CanStep(keys, cache, n, o) then [StepChild(keys, cache, n, o)] else []
  }

  /**
   * The loop enqueues at most one node per key: the node of every allowed
   * step to one of the first `j` keys, and nothing else.
   */
  lemma {:induction false} StepsSpec(keys: seq<Object>, cache: Cache, n: DLSNode, j: nat)
    requires j <= |keys|
    ensures |Steps(keys, cache, n, j)| <= j
    ensures forall x :: x in Steps(keys, cache, n, j) ==>
      exists k :: 0 <= k < j && CanStep(keys, cache, n, keys[k]) && x == StepChild(keys, cache, n, keys[k])
    ensures forall k :: 0 <= k < j && CanStep(keys, cache, n, keys[k]) ==>
      StepChild(keys, cache, n, keys[k]) in Steps(keys, cache, n, j)
  {
    if j > 0 {
      StepsSpec(keys, cache, n, j - 1);
    }
  }

  /** The cache keeps every graph it had and gains at most the one for `visited`. */
  predicate Grows(c0: Cache, c: Cache, visited: set<Object>)
  {
    Extends(c0, c) && c.Keys <= c0.Keys + {visited}
  }

  lemma GrowsTrans(c0: Cache, c1: Cache, c2: Cache, visited: set<Object>)
    requires Grows(c0, c1, visited) && Grows(c1, c2, visited)
    ensures Grows(c0, c2, visited)
  {
  }

  /** The steps depend only on the cached graph of `n`'s visited set. */
  lemma {:induction false} StepsKept(keys: seq<Object>, c1: Cache, c2: Cache, n: DLSNode, j: nat)
    requires j <= |keys| && Extends(c1, c2) && (j > 0 ==> n.Visited() in c1)
    ensures Steps(keys, c1, n, j) == Steps(keys, c2, n, j)
  {
    if j > 0 {
      StepsKept(keys, c1, c2, n, j - 1);
    }
  }

  /**
   * One turn of the `for neighbour` loop, once the graph for `cur`'s visited
   * set is at hand: a key on the path or beyond the budget is skipped, any
   * other one enqueues the node for that step.
   */
  method TryNeighbour(grid: Grid, keys: seq<Object>, root: DLSNode, cur: DLSNode, cache: Cache, alteredGraph: Graph,
                      q0: seq<DLSNode>, ghost explored: seq<DLSNode>, ghost rest: seq<DLSNode>, j: nat)
    returns (q: seq<DLSNode>)
    requires NonObstacles(grid).Some? && keys == NonObstacles(grid).value && j < |keys|
    requires InnerInv(grid, keys, root, cache, explored, q0, rest, j) && cur == explored[|explored| - 1]
    requires forall o :: o in cur.Path() ==> o in keys
    requires cur.Visited() in cache && alteredGraph == cache[cur.Visited()]
    ensures InnerInv(grid, keys, root, cache, explored, q, rest, j + 1)
    ensures q == q0 + StepTo(keys, cache, cur, keys[j])
  {
    var neighbour := keys[j];
    if neighbour in cur.Path() {
      SkipVisited(grid, keys, root, cache, explored, q0, rest, j);
      return q0;
    }
    StepLookup(grid, cache, cur, neighbour);
    if Exceeds(alteredGraph.adj[cur.obj][neighbour], cur.budget) {
      SkipFar(grid, keys, root, cache, explored, q0, rest, j);
      return q0;
    }
    var d := alteredGraph.adj[cur.obj][neighbour].n;
    var cost := cur.cost + d;
    var budget := cur.budget - d;
    if neighbour.identifier == "SD" {
      budget := budget + neighbour.value;
    }
    var score := cur.score;
    if neighbour.identifier == "C" {
      score := score + neighbour.value;
    }
    var child := DLSNode(Some(cur), neighbour, cost, budget, score);
    Enqueue(grid, keys, root, cache, explored, q0, rest, j, child);
    q := q0 + [child];
    assert StepTo(keys, cache, cur, keys[j]) == [child];
  }

  /**
   * One turn of `while not q.empty()`: the head of the queue is popped,
   * recorded in the table and expanded. The invariant is kept and the queue
   * gets lighter.
   */
  method VisitNext(grid: Grid, keys: seq<Object>, root: DLSNode, cache0: Cache, table0: MTable, q0: seq<DLSNode>,
                   ghost before: seq<DLSNode>)
    returns (cache: Cache, table: MTable, q: seq<DLSNode>, ghost explored: seq<DLSNode>)
    requires NonObstacles(grid).Some? && keys == NonObstacles(grid).value
    requires root == Root(root.obj, root.budget) && root.obj in keys && root.obj.identifier == "A"
    requires OuterInv(grid, keys, root, cache0, table0, before, q0) && q0 != []
    ensures OuterInv(grid, keys, root, cache, table, explored, q)
    ensures explored == before + [q0[0]] && table == Record(table0, q0[0])
    ensures q == q0[1..] + Steps(keys, cache, q0[0], |keys|)
    ensures Grows(cache0, cache, q0[0].Visited())
    ensures Weight(keys, q) < Weight(keys, q0)
  {
    var cur := q0[0];
    q := q0[1..];
    ghost var rest := q;
    PopStarts(grid, keys, root, cache0, table0, before, q0);
    table := RecordNode(table0, cur);
    explored := before + [cur];
    cache, q := ExpandNode(grid, keys, root, cur, cache0, q, explored, rest);
    ExpansionDone(grid, keys, root, cache, table, explored, q, q0);
  }

  /**
   * `getMScores(grid, defaultLimit)`. It fails (None) exactly when Python
   * raises: a matching token that `int` rejects, or a grid without an agent.
   * Otherwise the table is the one built from the popped nodes `explored`,
   * and `explored` starts at the agent, holds only nodes reachable by allowed
   * steps and is closed under allowed steps (every such node is in it).
   */
  method GetMScores(grid: Grid, defaultLimit: int) returns (mScores: Option<MTable>, ghost explored: seq<DLSNode>, ghost graphs: Cache)
    ensures mScores.Some? <==> NonObstacles(grid).Some? && FoundIn("A", grid).value != []
    ensures mScores.Some? ==> SearchDone(grid, defaultLimit, explored, graphs) && mScores.value == TableOf(explored)
  {
    explored, graphs := [], map[];
    var initialGraph := ConvertToGraph(grid);
    if initialGraph.None? {
      return None, explored, graphs;
    }
    var keys := initialGraph.value.keys;
    var cache: Cache := map[{} := initialGraph.value];
    InitialCache(grid, initialGraph.value);
    var agents := FindAll("A", grid);
    if agents.value == [] {
      return None, explored, graphs;
    }
    var root := Root(agents.value[0], defaultLimit);
    RootFacts(grid);
    var q := [root];
    var table: MTable := map[];
    SearchStarts(grid, keys, root, cache);
    while q != []
      invariant keys == NonObstacles(grid).value
      invariant OuterInv(grid, keys, root, cache, table, explored, q)
      decreases Weight(keys, q)
    {
      cache, table, q, explored := VisitNext(grid, keys, root, cache, table, q, explored);
    }
    SearchFinishes(grid, defaultLimit, keys, root, cache, table, explored);
    mScores, graphs := Some(table), cache;
  }
}

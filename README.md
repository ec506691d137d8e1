# m-scores of a gridworld, modelled in Dafny

This project models `utils.py` of the calculateM repository. That code computes the
**m-score table** of a gridworld: for every trajectory length the agent can end up
with, the best coin total it can collect and a path of objects that achieves it.

The grid is column-major (`grid[x][y]`). Its tokens are:

- `A`: the agent;
- `#`: a wall;
- `.`: an empty tile;
- `C<v>`: a coin worth `v`;
- `SD<t>`: a shutdown-delay button that adds `t` to the time budget.

The processing steps the model follows:

- `parseEnv` reads an environment file and transposes its rows into columns (module `Environment`).
- `findAll` scans the grid for tokens by prefix and decodes each token's integer value (`Tokens`, `FindAllProps`).
- `getManhattanDist` and `getFreeNeighbours` are the grid helpers, and `aStarSearch` is A* with unit step cost
  (`PathFinder`, `AStar`).
- `getDist` runs A* with every tile other than `.`, `A` and the two endpoints treated as a wall (`ObjectGraph`).
- `convertToGraph` builds the symmetric distance table over the A, C and SD objects (`ObjectGraph`).
- `omitFromGrid` erases visited objects (`ObjectGraph`). How erasing changes what `findAll` sees is in `Erasure`.
- `getMScores` is a FIFO search over sequences of object visits.
  - Modules `DLS` (nodes and their invariants), `MScores` (the table) and `ScoreSearch` (the loop) model it.
  - `MScoreProps` holds what the finished search guarantees.

Imperative code stays imperative:

- `findAll`, `getFreeNeighbours`, A*, `omitFromGrid`, `convertToGraph` and `getMScores` are methods with loops.
  Each is proved against a specification function or predicate.
- Dictionaries are `map`s. The graph cache is a `map<set<Object>, Graph>`.
- `Graph` keeps its key list beside the nested map, because Python dictionaries keep insertion order and the search
  iterates over it.
- The queue of `getMScores` is a `seq`.

`MAXDIST` becomes the `Unreachable` case of `Dist`. `Unreachable` exceeds every budget, as the comparison
`> currentNode.budget` at utils.py:372 does with `10e9`.

`Object`, `AStarNode` and `DLSNode` come from `classes.py`, and `classes.py` is not part of this model. They are
reconstructed from how `utils.py` uses them:

- `Object` is a value with `identifier`, `x`, `y` and `value`, compared by value.
- `getPath` is the object sequence from the root to the node.
- `getVisited` is the set of path objects other than the node's own.
- `getTrajLen` is `cost + budget`.

Two points where the code promises less than its comments suggest:

- `int()` accepts a sign, so coin and button values and the episode length may be negative or zero.
  The budget invariant therefore assumes that the default limit and every button value are non-negative.
- The docstrings of `aStarSearch` and `getDist` (utils.py:141-143, utils.py:198) speak of the shortest path. The
  heap order that decides this lives in the unseen `classes.py`, so the model proves path validity and the Manhattan
  lower bound but not minimality.

## Model

| member | source | states |
|---|---|---|
| `Tokens.FindAll` | utils.py:52-82 | The nested scan returns `FoundIn(target, grid)`. It returns None at the first matching token whose remainder `int` rejects. |
| `FindAllProps.FindAllSpec` | utils.py:72-80 | The result is None exactly when some token starting with the target has a remainder `int` rejects. Otherwise the result is in strict column-then-row order. An object is in it exactly when it is `Object(target, x, y, v)` for an in-grid tile starting with the target, and `v` is the decoded remainder, 0 when the remainder is empty. |
| `FindAllProps.ColumnObjectsSpec` | utils.py:73-80 | Within one column, the inner loop fails exactly on a bad matching token. Otherwise it finds exactly the matching tiles of that column, in increasing row order. |
| `FindAllProps.BadSplit` | utils.py:72-73 | A bad token is in the grid exactly when it is in the columns before the last or in the last column. This is how the early failure of the loop relates to the whole grid. |
| `Tokens.ParseIntRoundTrip` | utils.py:79 | `int` reads back the decimal form of every natural number. |
| `Tokens.IntOfRoundTrip` | utils.py:79 | The same holds for `int` on a whole string, with its whitespace stripping. `parseEnv`'s first line and `findAll`'s remainders both go through it. |
| `Tokens.CoinTokenDecodes` | utils.py:74-80 | A coin token `C<v>` with `v` written in decimal decodes to `v`. |
| `Tokens.PaddedCoinDecodes` | utils.py:74-78 | `re.sub` leaves any whitespace around the value in place and `int` strips it, so `C 5`, `C5<tab>` and `C<newline>5 ` all decode to 5. |
| `Tokens.StripPadded` | utils.py:78 | What `int` strips around a run of digits is exactly the ASCII whitespace before and after it. |
| `PathFinder.ManhattanIsMetric` | utils.py:84-88 | The Manhattan distance is symmetric, is zero exactly on equal tiles and obeys the triangle inequality. It is a natural number by type. |
| `PathFinder.ManhattanConsistent` | utils.py:84-88 | Across one step of distance one, the heuristic to any goal changes by at most one: it is consistent. |
| `PathFinder.GetFreeNeighbours` | utils.py:90-122 | The loop returns the in-grid candidates whose cell is 0, in the order up, right, down, left. This is the corrected bounds check; see Findings. |
| `PathFinder.FreeNeighboursSpec` | utils.py:107-122 | At most four tiles are returned. A tile is returned exactly when it is at Manhattan distance 1 and free. The directions strictly increase along the list. |
| `PathFinder.FreeOfMembers` | utils.py:110-122 | Filtering keeps exactly the free candidates and never adds a tile. |
| `PathFinder.LowEdgeWrapsAround` | utils.py:112-116 | As written, Python's negative indices let the corner (0, 0) of an all-free 2x2 grid report the off-grid tiles (0, -1) and (-1, 0). The intended check reports only (1, 0) and (0, 1). |
| `PathFinder.WalkLowerBound` | utils.py:188 | A walk of unit steps has at least as many steps as the Manhattan distance between its ends. |
| `PathFinder.ClosedSetBlocksWalks` | utils.py:177-190 | A tile set that holds the start and every free neighbour of its members contains the end of every walk from the start. This is why an exhausted queue means no route. |
| `AStar.AStarSearch` | utils.py:124-195 | A finite distance comes with a walk of free unit steps from `start` to `end`. Its length is the distance plus one, and the distance is at least the Manhattan distance. Otherwise the result is `(MAXDIST, [])` and no walk from `start` reaches `end`. `start == end` gives `(0, [start])`. |
| `AStar.RebuildPath` | utils.py:166-173 | Following the parent links while prepending yields the root-to-node tile sequence. |
| `AStar.PopMin` | utils.py:157 | The popped index has minimal `g + h`, and no earlier entry ties with it. |
| `AStar.PushUnvisited` | utils.py:178-190 | The queue grows by exactly one child per unvisited neighbour, in neighbour order. Each child has `g + 1` and the heuristic of its tile. |
| `AStar.ChildrenFacts` | utils.py:181-190 | Every pushed child is a valid node whose path extends its parent's by one free step. The children's tiles are exactly the unvisited neighbours. |
| `AStar.ExpandKeepsInv` | utils.py:154-190 | Popping a non-goal node and pushing its children keeps the search invariant. The invariant says: nodes spell walks from the start, and `visited` is closed under free steps up to the queue. The termination measure drops. |
| `ObjectGraph.GetDist` | utils.py:197-226 | A finite result is the length of a route between the two tiles through passable tiles only, and at least the Manhattan distance. MAXDIST means no such route exists. Equal endpoints give 0. |
| `ObjectGraph.PassGridFree` | utils.py:219-221 | After the two endpoint writes, a `binGrid` cell is 0 exactly when its token is `.` or `A` or it is one of the endpoints. |
| `ObjectGraph.WalkIsRoute` | utils.py:224 | A walk on `binGrid` is exactly a route through passable tiles. |
| `ObjectGraph.ConvertToGraph` | utils.py:228-258 | The result fails exactly when `findAll` does. Otherwise the keys are the A, then C, then SD objects, and every key has an entry for every key. The diagonal is 0, the table is symmetric, and each pair holds a distance satisfying `getDist`'s contract on the grid. |
| `ObjectGraph.NonObstaclesDistinct` | utils.py:248 | The graph keys are pairwise distinct, sit on pairwise distinct tiles and lie inside the grid. |
| `ObjectGraph.PairUpdate` | utils.py:254-256 | Writing `adjMatrix[source][target]` and `adjMatrix[target][source]` keeps every entry, the zero diagonal and the symmetry, and adds the pair to the sound ones. |
| `ObjectGraph.DistSoundSymmetric` | utils.py:254-256 | What `getDist` promises from `start` to `end` also holds from `end` to `start`. This justifies storing one result in both directions. |
| `ObjectGraph.GraphPairSound` | utils.py:251-256 | Every entry of a built table satisfies `getDist`'s contract for its two tiles, including the diagonal and entries below it. |
| `ObjectGraph.OmitFromGrid` | utils.py:260-288 | The copy has the same dimensions, `.` on every visited object's tile and every other tile unchanged. The input is a value and cannot change. |
| `Erasure.GridErased` | utils.py:284-286 | On the erased grid, `findAll` finds the old objects minus those on erased tiles, in the same order. |
| `Erasure.NonObstaclesErased` | utils.py:367 | The keys of the graph of an erased grid are the old keys minus the objects on erased tiles, in order. |
| `DLS.NodeInvariants` | utils.py:376-385 | Every node the search can enqueue has a path that starts at the agent, repeats no object and visits only graph keys. Its score is the sum of the coin values on its path. Its cost plus budget is the default limit plus the delay values on its path. |
| `DLS.BudgetNonNegative` | utils.py:372-381 | With a non-negative default limit and non-negative button values, no enqueued node has a negative budget. |
| `MScores.TableKeys` | utils.py:342-358 | A length is a table key exactly when some popped node has that trajectory length. |
| `MScores.TableIsMax` | utils.py:342-358 | No popped node has a higher score than the table entry for its length. |
| `MScores.TableWitness` | utils.py:342-358 | Each entry is the score and path of one popped node of that length, and every earlier popped node of that length scored strictly less. On ties the first is kept. |
| `ScoreSearch.RecordNode` | utils.py:342-358 | The update inserts a new length and replaces an existing entry only on a strictly greater score. |
| `ScoreSearch.GraphFor` | utils.py:365-368 | The graph returned is the cache entry for the visited set. A missing entry is built from the erased grid and stored. On a hit the cache is unchanged. On a miss it is the old cache plus that one entry. Every cached graph is `convertToGraph` of the grid with its visited set erased. |
| `ScoreSearch.StepLookup` | utils.py:372 | The cached graph of a node's visited set has an entry from the node's object to every unvisited key. That entry satisfies `getDist`'s contract on the grid with the visited objects erased. |
| `ScoreSearch.InitialCache` | utils.py:323 | The initial graph is the cache entry for the empty visited set. |
| `ScoreSearch.TryNeighbour` | utils.py:370-385 | A neighbour on the path or beyond the budget leaves the queue unchanged. Any other neighbour appends exactly one node: the one for that step, with the cost, a budget extended by SD values and a score extended by C values. The search invariant is kept. |
| `ScoreSearch.VisitKey` | utils.py:362-385 | One turn of the neighbour loop looks up or builds the graph of the node's visited set. It then extends the queue by the step to the next key, so the queue is the old one followed by the steps to the keys tried so far. |
| `ScoreSearch.StepsSpec` | utils.py:362-385 | The neighbour loop enqueues at most one node per key: the node of every allowed step, and no other node. |
| `ScoreSearch.ExpandNode` | utils.py:362-385 | After the neighbour loop, the queue is the old queue followed by the nodes of the allowed steps from the popped node, in key order. Every such node is in the queue. |
| `ScoreSearch.VisitNext` | utils.py:336-385 | The head of the queue is the node appended to the popped nodes, and the table is that node recorded. The new queue is the rest of the old one followed by the head's allowed steps, so the popped nodes are the FIFO order. The search invariant is kept and the queue gets strictly lighter, which is the termination argument. |
| `ScoreSearch.ChildrenLighter` | utils.py:362-385 | The children a node can spawn weigh less together than the node itself, since each child has one unvisited key fewer. |
| `ScoreSearch.GetMScores` | utils.py:290-389 | The result fails exactly when `findAll` fails or there is no agent. Otherwise the table is the one the popped nodes build. The popped nodes start at the agent and are reachable by allowed steps. Every allowed step from a popped node leads to a popped node. |
| `MScoreProps.Exhaustive` | utils.py:336-389 | Every node reachable from the root by allowed steps on the final graphs is popped by the search. |
| `MScoreProps.StepIsRoute` | utils.py:367-378 | Each step of a trajectory is a route of exactly the step's cost, at least the Manhattan distance, on the grid with the objects visited before it erased. |
| `MScoreProps.MScoresOptimal` | utils.py:336-389 | Every reachable trajectory's length is a key, and its score is at most the table's entry. |
| `MScoreProps.MScoresWitnessed` | utils.py:342-385 | Every entry is the score and path of a reachable trajectory of that length. Its path starts at the agent and repeats no object, its score is the sum of its coins, and its length is the default limit plus its delays. |
| `MScoreProps.DefaultLimitKey` | utils.py:327 | The default limit is always a key, with a score of at least 0, because of the root node. |
| `MScoreProps.NoDelaysSingleKey` | utils.py:380-381 | Without shutdown-delay buttons, the default limit is the only key. |
| `Environment.ParseEnv` | utils.py:40-50 | The result is `EnvOf(lines)`: `int` of the first line, `split()` of every other line, then the transpose. It fails when there is no line, the first line is not an integer or the rows are ragged. |
| `Environment.Words` | utils.py:45 | Every token `split()` produces is non-empty and free of the whitespace `split()` separates on. |
| `Environment.SplitOnFileSeparator` | utils.py:45 | `split()` separates on U+001C, although `int()` does not strip it: `A<U+001C>C5` gives `A` and `C5`. |
| `Environment.WordsRoundTrip` | utils.py:45 | `split()` reads back any list of tokens joined by single spaces. |
| `Environment.Transpose` | utils.py:48 | The transpose exists exactly when the rows are rectangular. It then has one column per row entry, with `columns[x][y] == rows[y][x]`. |
| `Environment.ParseRenderRoundTrip` | utils.py:13-50 | Writing an episode length and a rectangular grid of tokens as text and parsing it back gives the same length and grid. |

## Left out

- File and console I/O: `open`, `readline` and `readlines` in `parseEnv` are modelled by passing the file's lines as
  a sequence. The warning prints of `aStarSearch` and the `quiet` progress prints of `getMScores` have no effect on
  results and are omitted.
- numpy: `np.array(rows).T.tolist()` is modelled as an index swap. Ragged rows are an error, as in current numpy,
  which refuses to build such an array.
- Whitespace: `split()` is modelled for its ASCII separators, including U+001C to U+001F. `int()` is modelled for the six ASCII whitespace characters it strips, both on `parseEnv`'s first line and on `findAll`'s token remainders. Non-ASCII whitespace such as U+0085 and U+00A0 is not modelled.
- `int()`: underscores between digits and non-ASCII digits are not modelled. Only an optional sign followed by ASCII
  digits, with surrounding whitespace, is.
- `findAll` builds its regular expression from the target. The targets used (`A`, `C`, `SD`) hold no
  metacharacters, so they are matched literally.
- The eager powerset of `getMScores` (utils.py:318-320) only pre-seeds every cache key with `None`. It is modelled
  as a map with absent keys, filled on first use (utils.py:365-368), which behaves the same.
- `AStar.AStarSearch`: it does not prove that the distance is the shortest. The heap order of `AStarNode` is in the
  unseen `classes.py`, so a pop returns an entry of minimal `g + h`, the first one on ties.
- `ObjectGraph.ConvertToGraph`: each entry is stated to satisfy `getDist`'s contract rather than to equal one specific
  A* result, because the A* tie-break is not modelled. For the same reason, `MScoreProps.Exhaustive` and
  `MScoreProps.MScoresOptimal` are complete relative to the distances the search computed.
- `ObjectGraph.GetDist` requires both endpoints to lie inside the grid. Python would raise on the `binGrid` writes
  (or wrap around on negative indices) otherwise, and `convertToGraph` only calls it on object tiles.
- `ScoreSearch.GetMScores`: `MAXDIST` is taken to exceed every budget, which holds for budgets below `10e9`.
  Python's float comparison for larger budgets is not modelled.
- `DLS.BudgetNonNegative` assumes a non-negative default limit and non-negative button values, since `int()` accepts
  negative ones.
- The score bound "at most the sum of all coin values" is not stated. `MScoreProps.MScoresWitnessed` gives the score
  as the sum of the distinct coins on a path.
- `generateGrids.py`, `convertToTensors.py` and `main.py` are not modelled. They cover random grid generation, tensor
  encoding and a print script over functions that are not available.
- `classes.py` is not part of this model. Its three classes are reconstructed as described above.

## Findings

| source | as written | input that shows it | evidently intended | confidence | as-written member | corrected member |
|---|---|---|---|---|---|---|
| utils.py:112-116 | The bounds check relies on `IndexError`, but a negative index such as `-1` counts from the end in Python, so off-grid tiles past the low edges are reported as free neighbours. | Tile (0, 0) on the all-free 2x2 grid `[[0, 0], [0, 0]]` gets neighbours (0, -1), (1, 0), (0, 1), (-1, 0). | Only in-grid tiles, `0 <= x < width` and `0 <= y < height`: here (1, 0) and (0, 1). | not executed | `PathFinder.FreeNeighboursAsWritten` | `PathFinder.GetFreeNeighbours` |

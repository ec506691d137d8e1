/**
 * How erasing tiles (`omitFromGrid`) changes what `findAll` and
 * `convertToGraph` see: the objects on erased tiles disappear, every other
 * object is found as before, in the same order.
 */
module Erasure {
  import opened Options
  import opened Tokens
  import opened PathFinder
  import opened ObjectGraph

  /** The objects of `objs` whose tile is not in `locs`, in order. */
  function Surviving(objs: seq<Object>, locs: set<Tile>): (r: seq<Object>)
    ensures forall o :: o in r <==> o in objs && o.Loc() !in locs
  {
    if objs == [] then []
    else
      var rest := Surviving(objs[..|objs| - 1], locs);
      var last := objs[|objs| - 1];
      assert forall o :: o in objs <==> o in objs[..|objs| - 1] || o == last;
      if last.Loc() in locs then rest else rest + [last]
  }

  lemma {:induction false} SurvivingAppend(a: seq<Object>, b: seq<Object>, locs: set<Tile>)
    ensures Surviving(a + b, locs) == Surviving(a, locs) + Surviving(b, locs)
    decreases |b|
  {
    if b != [] {
      var b' := b[..|b| - 1];
      SurvivingAppend(a, b', locs);
      assert (a + b)[..|a + b| - 1] == a + b';
    } else {
      assert a + b == a;
    }
  }

  /** Column `x` of `Erased(grid, locs)`. */
  function EraseColumn(col: seq<Token>, x: int, locs: set<Tile>): (r: seq<Token>)
    ensures |r| == |col|
    ensures forall y :: 0 <= y < |col| ==> r[y] == if (x, y) in locs then "." else col[y]
  {
    seq(|col|, y requires 0 <= y < |col| => if (x, y) in locs then "." else col[y])
  }

  lemma {:induction false} ColumnErased(target: string, col: seq<Token>, x: int, locs: set<Tile>)
    requires !StartsWith(".", target)
    requires ColumnObjects(target, col, x).Some?
    ensures ColumnObjects(target, EraseColumn(col, x, locs), x) == Some(Surviving(ColumnObjects(target, col, x).value, locs))
    decreases |col|
  {
    if col != [] {
      var y := |col| - 1;
      var erased := EraseColumn(col, x, locs);
      assert erased[..y] == EraseColumn(col[..y], x, locs);
      ColumnErased(target, col[..y], x, locs);
      var objs := ColumnObjects(target, col[..y], x).value;
      if StartsWith(col[y], target) {
        var o := Object(target, x, y, DecodeValue(col[y], target).value);
        assert ColumnObjects(target, col, x).value == objs + [o];
        assert (objs + [o])[..|objs|] == objs;
      }
    }
  }

  lemma {:induction false} GridErased(target: string, grid: Grid, locs: set<Tile>)
    requires !StartsWith(".", target)
    requires FoundIn(target, grid).Some?
    ensures FoundIn(target, Erased(grid, locs)) == Some(Surviving(FoundIn(target, grid).value, locs))
    decreases |grid|
  {
    if grid != [] {
      var x := |grid| - 1;
      var erased := Erased(grid, locs);
      assert erased[..x] == Erased(grid[..x], locs);
      assert erased[x] == EraseColumn(grid[x], x, locs);
      GridErased(target, grid[..x], locs);
      ColumnErased(target, grid[x], x, locs);
      SurvivingAppend(FoundIn(target, grid[..x]).value, ColumnObjects(target, grid[x], x).value, locs);
    }
  }

  /** After erasing, the graph keys are the old keys minus the objects on erased tiles, in order. */
  lemma NonObstaclesErased(grid: Grid, locs: set<Tile>)
    requires NonObstacles(grid).Some?
    ensures NonObstacles(Erased(grid, locs)) == Some(Surviving(NonObstacles(grid).value, locs))
  {
    assert "."[..1] == "." && "." != "A" && "." != "C" && |"SD"| == 2;
    GridErased("A", grid, locs);
    GridErased("C", grid, locs);
    GridErased("SD", grid, locs);
    var a, c, sd := FoundIn("A", grid).value, FoundIn("C", grid).value, FoundIn("SD", grid).value;
    SurvivingAppend(a, c, locs);
    SurvivingAppend(a + c, sd, locs);
  }
}

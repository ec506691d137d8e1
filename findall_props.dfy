/**
 * What `findAll` (utils.py) promises: one object per tile whose token starts
 * with the target, in column-then-row order, carrying the decoded value; and
 * failure exactly when some matching token has a remainder `int` rejects.
 */
module FindAllProps {
  import opened Options
  import opened Tokens

  predicate ColumnMatches(target: string, col: seq<Token>, x: int, o: Object)
  {
    && o.x == x && 0 <= o.y < |col|
    && StartsWith(col[o.y], target)
    && o.identifier == target
    && DecodeValue(col[o.y], target) == Some(o.value)
  }

  ghost predicate ColumnHasBad(target: string, col: seq<Token>)
  {
    exists y :: 0 <= y < |col| && StartsWith(col[y], target) && DecodeValue(col[y], target).None?
  }

  lemma ColumnBadSplit(target: string, col: seq<Token>)
    requires col != []
    ensures ColumnHasBad(target, col) <==>
      ColumnHasBad(target, col[..|col| - 1]) || (StartsWith(col[|col| - 1], target) && DecodeValue(col[|col| - 1], target).None?)
  {
    var y := |col| - 1;
    var pre := col[..y];
    if ColumnHasBad(target, col) {
      var k :| 0 <= k < |col| && StartsWith(col[k], target) && DecodeValue(col[k], target).None?;
      if k < y {
        assert pre[k] == col[k];
      }
    }
    if ColumnHasBad(target, pre) {
      var k :| 0 <= k < |pre| && StartsWith(pre[k], target) && DecodeValue(pre[k], target).None?;
      assert pre[k] == col[k];
    }
  }

  lemma {:induction false} ColumnObjectsSpec(target: string, col: seq<Token>, x: int)
    ensures ColumnObjects(target, col, x).None? <==> ColumnHasBad(target, col)
    ensures ColumnObjects(target, col, x).Some? ==>
      && (forall i, j :: 0 <= i < j < |ColumnObjects(target, col, x).value| ==>
            ColumnObjects(target, col, x).value[i].y < ColumnObjects(target, col, x).value[j].y)
      && (forall o :: o in ColumnObjects(target, col, x).value <==> ColumnMatches(target, col, x, o))
    decreases |col|
  {
    if col != [] {
      var y := |col| - 1;
      var pre := col[..y];
      ColumnObjectsSpec(target, pre, x);
      ColumnBadSplit(target, col);
      if ColumnObjects(target, col, x).Some? {
        var objs := ColumnObjects(target, pre, x).value;
        forall o ensures ColumnMatches(target, pre, x, o) <==> ColumnMatches(target, col, x, o) && o.y < y {
          if 0 <= o.y < y {
            assert pre[o.y] == col[o.y];
          }
        }
      }
    }
  }

  /** `findAll` is sound, complete and in scan order, and fails exactly on a bad matching token. */
  lemma {:induction false} FindAllSpec(target: string, grid: Grid)
    ensures FoundIn(target, grid).None? <==> HasBadToken(target, grid)
    ensures FoundIn(target, grid).Some? ==>
      && ScanOrdered(FoundIn(target, grid).value)
      && (forall o :: o in FoundIn(target, grid).value <==> Matches(target, grid, o))
    decreases |grid|
  {
    if grid != [] {
      var x := |grid| - 1;
      var pre := grid[..x];
      FindAllSpec(target, pre);
      ColumnObjectsSpec(target, grid[x], x);
      assert forall k :: 0 <= k < x ==> pre[k] == grid[k];
      BadSplit(target, grid);
      if FoundIn(target, grid).Some? {
        var objs := FoundIn(target, pre).value;
        var more := ColumnObjects(target, grid[x], x).value;
        assert FoundIn(target, grid).value == objs + more;
        forall o ensures o in objs + more <==> Matches(target, grid, o) {
          assert o in objs <==> Matches(target, pre, o);
          assert o in more <==> ColumnMatches(target, grid[x], x, o);
        }
        forall i, j | 0 <= i < j < |objs + more| ensures Before((objs + more)[i], (objs + more)[j]) {
          if j < |objs| {
            assert Before(objs[i], objs[j]);
          } else if i < |objs| {
            assert objs[i] in objs;
            assert more[j - |objs|] in more;
          } else {
            assert more[i - |objs|].y < more[j - |objs|].y;
            assert more[i - |objs|] in more && more[j - |objs|] in more;
          }
        }
      }
    }
  }

  lemma BadSplit(target: string, grid: Grid)
    requires grid != []
    ensures HasBadToken(target, grid) <==>
      HasBadToken(target, grid[..|grid| - 1]) || ColumnHasBad(target, grid[|grid| - 1])
  {
    var x := |grid| - 1;
    var pre := grid[..x];
    if HasBadToken(target, grid) {
      var a, b :| InGrid(grid, a, b) && StartsWith(grid[a][b], target) && DecodeValue(grid[a][b], target).None?;
      if a < x {
        assert pre[a] == grid[a];
        assert InGrid(pre, a, b);
      } else {
        assert 0 <= b < |grid[x]|;
      }
    }
    if HasBadToken(target, pre) {
      var a, b :| InGrid(pre, a, b) && StartsWith(pre[a][b], target) && DecodeValue(pre[a][b], target).None?;
      assert pre[a] == grid[a];
      assert InGrid(grid, a, b);
    }
    if ColumnHasBad(target, grid[x]) {
      var b :| 0 <= b < |grid[x]| && StartsWith(grid[x][b], target) && DecodeValue(grid[x][b], target).None?;
      assert InGrid(grid, x, b);
    }
  }
}

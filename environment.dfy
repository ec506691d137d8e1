/**
 * The text format `parseEnv` (utils.py) reads: a first line holding the
 * episode length, then one line per grid row with the row's tokens separated
 * by whitespace. The rows are transposed so that the grid is column-major.
 * The file is given as its sequence of lines.
 */
module Environment {
  import opened Options
  import opened Tokens

  /**
   * The ASCII characters Python's `str.split()` separates on: those `int()`
   * strips and the four separators U+001C to U+001F.
   */
  predicate IsSplitSpace(c: char)
  {
    IsSpace(c) || 28 <= c as int <= 31
  }

  /** A token as `split()` produces it: non-empty, without whitespace. */
  predicate IsWord(w: string)
  {
    w != [] && forall i :: 0 <= i < |w| ==> !IsSplitSpace(w[i])
  }

  /** The length of the run of non-space characters `s` starts with. */
  function WordLen(s: string): (n: nat)
    ensures n <= |s|
    ensures forall i :: 0 <= i < n ==> !IsSplitSpace(s[i])
    ensures n < |s| ==> IsSplitSpace(s[n])
  {
    if s == [] || IsSplitSpace(s[0]) then 0 else 1 + WordLen(s[1..])
  }

  /** `s.split()`: the maximal runs of non-space characters, in order. */
  function Words(s: string): (r: seq<string>)
    ensures forall i :: 0 <= i < |r| ==> IsWord(r[i])
    decreases |s|
  {
    if s == [] then []
    else if IsSplitSpace(s[0]) then Words(s[1..])
    else
      var n := WordLen(s);
      [s[..n]] + Words(s[n..])
  }

  /** The file separator U+001C splits a row as a space does, though `int()` would not strip it. */
  lemma SplitOnFileSeparator()
    ensures Words("A\U{1C}C5") == ["A", "C5"]
    ensures !IsSpace('\U{1C}')
  {
    assert WordLen("A\U{1C}C5") == 1;
    assert "A\U{1C}C5"[1..] == "\U{1C}C5";
    assert "\U{1C}C5"[1..] == "C5";
    assert WordLen("C5") == 2;
    assert "A\U{1C}C5"[..1] == "A" && "C5"[..2] == "C5" && "C5"[2..] == "";
    assert Words("C5") == ["C5"];
    assert Words("\U{1C}C5") == ["C5"];
  }

  /** The words joined by single spaces: how a row is written. */
  function Unwords(ws: seq<string>): string
  {
    if ws == [] then ""
    else if |ws| == 1 then ws[0]
    else ws[0] + " " + Unwords(ws[1..])
  }

  lemma {:induction false} WordLenOfWord(w: string, tail: string)
    requires (forall i :: 0 <= i < |w| ==> !IsSplitSpace(w[i])) && (tail == [] || IsSplitSpace(tail[0]))
    ensures WordLen(w + tail) == |w|
  {
    if w != [] {
      assert (w + tail)[1..] == w[1..] + tail;
      WordLenOfWord(w[1..], tail);
    } else {
      assert w + tail == tail;
    }
  }

  /** `split()` reads back every row written with `Unwords`. */
  lemma {:induction false} WordsRoundTrip(ws: seq<string>)
    requires forall i :: 0 <= i < |ws| ==> IsWord(ws[i])
    ensures Words(Unwords(ws)) == ws
  {
    if ws != [] {
      var w := ws[0];
      if |ws| == 1 {
        WordLenOfWord(w, "");
        assert w + "" == w;
        assert w[|w|..] == [];
      } else {
        var rest := Unwords(ws[1..]);
        var s := w + " " + rest;
        assert s == w + (" " + rest);
        WordLenOfWord(w, " " + rest);
        assert s[..|w|] == w;
        assert s[|w|..] == " " + rest;
        assert (" " + rest)[1..] == rest;
        WordsRoundTrip(ws[1..]);
        assert ws == [w] + ws[1..];
      }
    }
  }

  /** Python's `int()` on a whole line. */
  function LineInt(line: string): Option<int>
  {
    IntOf(line)
  }

  /** `line.split()` for every line. */
  function RowsOf(lines: seq<string>): (rows: seq<seq<Token>>)
    ensures |rows| == |lines| && forall y :: 0 <= y < |lines| ==> rows[y] == Words(lines[y])
  {
    seq(|lines|, y requires 0 <= y < |lines| => Words(lines[y]))
  }

  /** Every row as long as the first one. */
  predicate Rectangular<T>(rows: seq<seq<T>>)
  {
    forall y :: 0 <= y < |rows| ==> |rows[y]| == |rows[0]|
  }

  /**
   * `np.array(rows).T.tolist()`: the columns of a rectangular table; numpy
   * rejects rows of unequal length, and no rows give no columns.
   */
  function Transpose(rows: seq<seq<Token>>): (r: Option<Grid>)
    ensures r.Some? <==> Rectangular(rows)
    ensures r.Some? && rows == [] ==> r.value == []
    ensures r.Some? && rows != [] ==>
      && |r.value| == |rows[0]|
      && forall x :: 0 <= x < |r.value| ==> |r.value[x]| == |rows| && forall y :: 0 <= y < |rows| ==> r.value[x][y] == rows[y][x]
  {
    if !Rectangular(rows) then None
    else if rows == [] then Some([])
    else Some(seq(|rows[0]|, x requires 0 <= x < |rows[0]| =>
                seq(|rows|, y requires 0 <= y < |rows| => rows[y][x])))
  }

  /** What `parseEnv` returns for a file with these lines; None when Python raises. */
  function EnvOf(lines: seq<string>): Option<(int, Grid)>
  {
    if lines == [] then None
    else match LineInt(lines[0])
      case None => None
      case Some(epLen) =>
        match Transpose(RowsOf(lines[1..]))
        case None => None
        case Some(grid) => Some((epLen, grid))
  }

  /**
   * `parseEnv` once the file is open: `int` of the first line, `split()` of
   * every remaining line, then the transpose.
   */
  method ParseEnv(lines: seq<string>) returns (env: Option<(int, Grid)>)
    ensures env == EnvOf(lines)
  {
    if lines == [] {
      return None;
    }
    var epLen := LineInt(lines[0]);
    if epLen.None? {
      return None;
    }
    var rows: seq<seq<Token>> := [];
    for i := 1 to |lines|
      invariant rows == RowsOf(lines[1..i])
    {
      rows := rows + [Words(lines[i])];
      assert lines[1..i + 1] == lines[1..i] + [lines[i]];
    }
    assert lines[1..|lines|] == lines[1..];
    var grid := Transpose(rows);
    if grid.None? {
      return None;
    }
    env := Some((epLen.value, grid.value));
  }

  // ---------------------------------------------------------------------
  // Writing an environment back

  /** The text of a rectangular grid with at least one row whose tokens are words. */
  predicate Writable(grid: Grid)
  {
    && Rectangular(grid)
    && (grid != [] ==> |grid[0]| >= 1)
    && forall x, y :: 0 <= x < |grid| && 0 <= y < |grid[x]| ==> IsWord(grid[x][y])
  }

  function Height(grid: Grid): nat
  {
    if grid == [] then 0 else |grid[0]|
  }

  /** Row `y` of the grid, left to right. */
  function Row(grid: Grid, y: nat): seq<Token>
    requires Rectangular(grid) && y < Height(grid)
  {
    seq(|grid|, x requires 0 <= x < |grid| => grid[x][y])
  }

  /** The lines of the environment file for this episode length and grid. */
  function Render(epLen: nat, grid: Grid): seq<string>
    requires Rectangular(grid)
  {
    [NatToString(epLen)] + seq(Height(grid), y requires 0 <= y < Height(grid) => Unwords(Row(grid, y)))
  }

  /** Every writable environment is read back exactly by `parseEnv`. */
  lemma ParseRenderRoundTrip(epLen: nat, grid: Grid)
    requires Writable(grid)
    ensures EnvOf(Render(epLen, grid)) == Some((epLen, grid))
  {
    var lines := Render(epLen, grid);
    NatToStringDigits(epLen);
    IntOfRoundTrip(epLen);
    var rows := RowsOf(lines[1..]);
    forall y | 0 <= y < Height(grid) ensures rows[y] == Row(grid, y) {
      WordsRoundTrip(Row(grid, y));
    }
    assert Rectangular(rows);
    var t := Transpose(rows).value;
    if grid != [] {
      assert |t| == |rows[0]| == |Row(grid, 0)| == |grid|;
      forall x | 0 <= x < |grid| ensures t[x] == grid[x] {
        forall y | 0 <= y < |grid[x]| ensures t[x][y] == grid[x][y] {
          assert t[x][y] == rows[y][x] == Row(grid, y)[x];
        }
      }
    }
    assert t == grid;
  }
}

/**
 * Grid tokens and the object scan of utils.py (`findAll`).
 *
 * A grid is column-major: `grid[x][y]` is the token at column `x`, row `y`.
 * Tokens are `A` (agent), `#` (wall), `.` (empty), `C<v>` (coin of value v)
 * and `SD<t>` (a shutdown-delay button adding t to the time budget).
 */
module Tokens {
  import opened Options

  type Token = string
  type Grid = seq<seq<Token>>

  /** An interactable object: the prefix it was found by, its tile and its decoded value. */
  datatype Object = Object(identifier: string, x: int, y: int, value: int)
  {
    function Loc(): (int, int) { (x, y) }
  }

  predicate StartsWith(s: string, prefix: string)
  {
    |prefix| <= |s| && s[..|prefix|] == prefix
  }

  predicate InGrid(grid: Grid, x: int, y: int)
  {
    0 <= x < |grid| && 0 <= y < |grid[x]|
  }

  /** Every non-overlapping occurrence of `pat` removed, scanning left to right (`re.sub(pat, "", s)`). */
  function RemoveAll(s: string, pat: string): string
    decreases |s|
  {
    if pat == [] || |s| < |pat| then s
    else if s[..|pat|] == pat then RemoveAll(s[|pat|..], pat)
    else [s[0]] + RemoveAll(s[1..], pat)
  }

  predicate IsDigit(c: char) { '0' <= c <= '9' }

  predicate AllDigits(s: string) { forall i :: 0 <= i < |s| ==> IsDigit(s[i]) }

  function DigitsValue(s: string): nat
    requires AllDigits(s)
  {
    if s == [] then 0 else DigitsValue(s[..|s| - 1]) * 10 + (s[|s| - 1] as int - '0' as int)
  }

  /** Python's `int` on text without surrounding whitespace: an optional sign and at least one decimal digit. */
  function ParseInt(s: string): Option<int>
  {
    if |s| > 0 && (s[0] == '+' || s[0] == '-') then
      if |s| > 1 && AllDigits(s[1..]) then
        Some(if s[0] == '-' then 0 - DigitsValue(s[1..]) else DigitsValue(s[1..]) as int)
      else None
    else if s != [] && AllDigits(s) then Some(DigitsValue(s))
    else None
  }

  /** The ASCII characters Python's `int()` strips around a number. */
  predicate IsSpace(c: char)
  {
    c == ' ' || c == '\t' || c == '\n' || c == '\r' || c as int == 11 || c as int == 12
  }

  function TrimStart(s: string): (r: string)
    ensures r == [] || !IsSpace(r[0])
  {
    if s != [] && IsSpace(s[0]) then TrimStart(s[1..]) else s
  }

  function TrimEnd(s: string): (r: string)
    ensures r == [] || !IsSpace(r[|r| - 1])
  {
    if s != [] && IsSpace(s[|s| - 1]) then TrimEnd(s[..|s| - 1]) else s
  }

  /** The surrounding whitespace `int()` ignores. */
  function Strip(s: string): string
  {
    TrimEnd(TrimStart(s))
  }

  /** Python's `int(s)`: surrounding whitespace stripped, then a sign and decimal digits. */
  function IntOf(s: string): Option<int>
  {
    ParseInt(Strip(s))
  }

  /** The value `findAll` decodes from a matching token: 0 for an empty remainder, else `int` of it. */
  function DecodeValue(token: Token, target: string): Option<int>
  {
    var rest := RemoveAll(token, target);
    if rest == "" then Some(0) else IntOf(rest)
  }

  /** Decimal digits of `n`, without leading zeros. */
  function NatToString(n: nat): string
  {
    if n < 10 then [('0' as int + n) as char]
    else NatToString(n / 10) + [('0' as int + n % 10) as char]
  }

  lemma {:induction false} NatToStringDigits(n: nat)
    ensures NatToString(n) != [] && AllDigits(NatToString(n))
    ensures DigitsValue(NatToString(n)) == n
  {
    if n >= 10 {
      NatToStringDigits(n / 10);
      var s := NatToString(n);
      assert s[..|s| - 1] == NatToString(n / 10);
    }
  }

  /** `int` reads back the decimal form of every natural number. */
  lemma ParseIntRoundTrip(n: nat)
    ensures ParseInt(NatToString(n)) == Some(n)
  {
    NatToStringDigits(n);
  }

  lemma StripDigits(s: string)
    requires AllDigits(s)
    ensures Strip(s) == s
  {
    if s != [] {
      assert !IsSpace(s[0]) && !IsSpace(s[|s| - 1]);
    }
  }

  /** `int` reads back the decimal form of every natural number, as a whole string. */
  lemma IntOfRoundTrip(n: nat)
    ensures IntOf(NatToString(n)) == Some(n)
  {
    NatToStringDigits(n);
    StripDigits(NatToString(n));
  }

  /** A coin token `C<v>` with v written in decimal decodes to v. */
  lemma CoinTokenDecodes(v: nat)
    ensures DecodeValue("C" + NatToString(v), "C") == Some(v)
  {
    NatToStringDigits(v);
    IntOfRoundTrip(v);
    var s := NatToString(v);
    assert ("C" + s)[..1] == "C";
    assert ("C" + s)[1..] == s;
    assert 'C' !in s;
    AbsentRemoveAll(s, "C");
  }

  predicate AllSpace(ws: string) { forall i :: 0 <= i < |ws| ==> IsSpace(ws[i]) }

  lemma {:induction false} TrimStartSpaces(ws: string, s: string)
    requires AllSpace(ws) && (s == [] || !IsSpace(s[0]))
    ensures TrimStart(ws + s) == s
  {
    if ws == [] {
      assert ws + s == s;
    } else {
      assert (ws + s)[1..] == ws[1..] + s;
      TrimStartSpaces(ws[1..], s);
    }
  }

  lemma {:induction false} TrimEndSpaces(s: string, ws: string)
    requires AllSpace(ws) && (s == [] || !IsSpace(s[|s| - 1]))
    ensures TrimEnd(s + ws) == s
    decreases |ws|
  {
    if ws == [] {
      assert s + ws == s;
    } else {
      var n := |ws| - 1;
      assert (s + ws)[..|s + ws| - 1] == s + ws[..n];
      TrimEndSpaces(s, ws[..n]);
    }
  }

  /** Whitespace around a run of digits is exactly what `Strip` removes. */
  lemma StripPadded(before: string, d: string, after: string)
    requires AllSpace(before) && AllSpace(after) && d != [] && AllDigits(d)
    ensures Strip(before + d + after) == d
  {
    assert before + d + after == before + (d + after);
    assert (d + after)[0] == d[0];
    TrimStartSpaces(before, d + after);
    TrimEndSpaces(d, after);
  }

  /**
   * `int` strips the whitespace `re.sub` leaves around a coin's value:
   * `C 5`, `C5\t` and `C\n5 ` all decode to 5.
   */
  lemma PaddedCoinDecodes(v: nat, before: string, after: string)
    requires AllSpace(before) && AllSpace(after)
    ensures DecodeValue("C" + before + NatToString(v) + after, "C") == Some(v)
  {
    var d := NatToString(v);
    NatToStringDigits(v);
    IntOfRoundTrip(v);
    StripDigits(d);
    var rest := before + d + after;
    assert "C" + before + d + after == "C" + rest;
    assert ("C" + rest)[..1] == "C" && ("C" + rest)[1..] == rest;
    forall i | 0 <= i < |rest| ensures rest[i] != 'C' {
      if i < |before| { assert rest[i] == before[i]; }
      else if i < |before| + |d| { assert rest[i] == d[i - |before|]; }
      else { assert rest[i] == after[i - |before| - |d|]; }
    }
    AbsentRemoveAll(rest, "C");
    StripPadded(before, d, after);
    assert rest != "";
  }

  /** A text without the pattern's first character is left alone by `re.sub`. */
  lemma {:induction false} AbsentRemoveAll(s: string, pat: string)
    requires pat != [] && pat[0] !in s
    ensures RemoveAll(s, pat) == s
    decreases |s|
  {
    if |s| >= |pat| {
      assert s[0] in s && s[..|pat|][0] == s[0];
      assert s[1..] <= s[1..] && forall c :: c in s[1..] ==> c in s;
      AbsentRemoveAll(s[1..], pat);
      assert [s[0]] + s[1..] == s;
    }
  }

  /** The objects `findAll(target, ·)` finds in column `x`, whose tokens are `col`, in row order. */
  function ColumnObjects(target: string, col: seq<Token>, x: int): Option<seq<Object>>
  {
    if col == [] then Some([])
    else
      var y := |col| - 1;
      match ColumnObjects(target, col[..y], x)
      case None => None
      case Some(objs) =>
        if !StartsWith(col[y], target) then Some(objs)
        else match DecodeValue(col[y], target)
          case None => None
          case Some(v) => Some(objs + [Object(target, x, y, v)])
  }

  /** What `findAll(target, grid)` returns: None when `int` raises on some matching token. */
  function FoundIn(target: string, grid: Grid): Option<seq<Object>>
  {
    if grid == [] then Some([])
    else
      var x := |grid| - 1;
      match FoundIn(target, grid[..x])
      case None => None
      case Some(objs) =>
        match ColumnObjects(target, grid[x], x)
        case None => None
        case Some(more) => Some(objs + more)
  }

  /** `o` is what `findAll(target, grid)` makes of the tile it names. */
  predicate Matches(target: string, grid: Grid, o: Object)
  {
    && InGrid(grid, o.x, o.y)
    && StartsWith(grid[o.x][o.y], target)
    && o.identifier == target
    && DecodeValue(grid[o.x][o.y], target) == Some(o.value)
  }

  /** Column-then-row scan order, strictly. */
  predicate Before(a: Object, b: Object)
  {
    a.x < b.x || (a.x == b.x && a.y < b.y)
  }

  predicate ScanOrdered(objs: seq<Object>)
  {
    forall i, j :: 0 <= i < j < |objs| ==> Before(objs[i], objs[j])
  }

  /** Some tile matches `target` but its remainder is not an integer. */
  ghost predicate HasBadToken(target: string, grid: Grid)
  {
    exists x, y :: InGrid(grid, x, y) && StartsWith(grid[x][y], target) && DecodeValue(grid[x][y], target).None?
  }

  method FindAll(target: string, grid: Grid) returns (found: Option<seq<Object>>)
    ensures found == FoundIn(target, grid)
  {
    var locsAndVals: seq<Object> := [];
    for x := 0 to |grid|
      invariant FoundIn(target, grid[..x]) == Some(locsAndVals)
    {
      var col := grid[x];
      ghost var before := locsAndVals;
      assert grid[..x + 1][..x] == grid[..x];
      for y := 0 to |col|
        invariant ColumnObjects(target, col[..y], x).Some?
        invariant locsAndVals == before + ColumnObjects(target, col[..y], x).value
      {
        assert col[..y + 1][..y] == col[..y];
        if StartsWith(col[y], target) {
          var value := DecodeValue(col[y], target);
          if value.None? {
            ColumnNonePropagates(target, col, y + 1, x);
            FoundInNonePropagates(target, grid, x + 1);
            return None;
          }
          locsAndVals := locsAndVals + [Object(target, x, y, value.value)];
        }
      }
      assert col[..|col|] == col;
    }
    assert grid[..|grid|] == grid;
    found := Some(locsAndVals);
  }

  lemma {:induction false} ColumnNonePropagates(target: string, col: seq<Token>, k: nat, x: int)
    requires k <= |col| && ColumnObjects(target, col[..k], x) == None
    ensures ColumnObjects(target, col, x) == None
    decreases |col| - k
  {
    if k < |col| {
      assert col[..k + 1][..k] == col[..k];
      ColumnNonePropagates(target, col, k + 1, x);
    } else {
      assert col[..k] == col;
    }
  }

  lemma {:induction false} FoundInNonePropagates(target: string, grid: Grid, k: nat)
    requires k <= |grid| && FoundIn(target, grid[..k]) == None
    ensures FoundIn(target, grid) == None
    decreases |grid| - k
  {
    if k < |grid| {
      assert grid[..k + 1][..k] == grid[..k];
      FoundInNonePropagates(target, grid, k + 1);
    } else {
      assert grid[..k] == grid;
    }
  }
}

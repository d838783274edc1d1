/** The map checker of so_long. */
module MapCheck {
  import opened Basics
  import opened Grid
  import opened Flood
  import opened Game

  // ------------------------------------------------------------------ what is found

  /** The tiles c that come before column i of row y, in reading order. */
  ghost function Found(g: Tiles, c: char, y: int, i: int): set<Pos> {
    set v, u | 0 <= v < |g| && 0 <= u < |g[v]| && g[v][u] == c && (v < y || (v == y && u < i)) :: Pos(u, v)
  }

  ghost function All(g: Tiles, c: char): set<Pos> {
    Found(g, c, |g|, 0)
  }

  lemma FoundIn(g: Tiles, c: char, y: int, i: int)
    ensures forall p :: p in Found(g, c, y, i) <==>
              InGrid(g, p) && At(g, p) == c && (p.y < y || (p.y == y && p.x < i))
  {
  }

  lemma FoundNext(g: Tiles, c: char, y: int, i: int)
    requires 0 <= y < |g| && 0 <= i < |g[y]|
    ensures |Found(g, c, y, i + 1)| == |Found(g, c, y, i)| + if g[y][i] == c then 1 else 0
    ensures g[y][i] == c ==> Pos(i, y) in Found(g, c, y, i + 1)
    ensures Found(g, c, y, i) <= Found(g, c, y, i + 1)
  {
    FoundIn(g, c, y, i);
    FoundIn(g, c, y, i + 1);
    assert Found(g, c, y, i + 1) == Found(g, c, y, i) + if g[y][i] == c then {Pos(i, y)} else {};
    assert Pos(i, y) !in Found(g, c, y, i);
  }

  lemma FoundRow(g: Tiles, c: char, y: int)
    requires 0 <= y < |g|
    ensures Found(g, c, y, |g[y]|) == Found(g, c, y + 1, 0)
  {
    FoundIn(g, c, y, |g[y]|);
    FoundIn(g, c, y + 1, 0);
    assert forall p :: p in Found(g, c, y, |g[y]|) <==> p in Found(g, c, y + 1, 0);
  }

  lemma FoundNone(g: Tiles, c: char)
    ensures Found(g, c, 0, 0) == {}
  {
    FoundIn(g, c, 0, 0);
    assert forall p :: p !in Found(g, c, 0, 0);
  }

  predicate Legal(c: char) {
    c in {'0', '1', 'C', 'E', 'P'}
  }

  class MapChars {
    var collectible: int
    var exit: int
    var exitX: int
    var exitY: int
    var player: int
    var playerX: int
    var playerY: int

    constructor ()
      ensures collectible == 0 && exit == 0 && player == 0
      ensures exitX == 0 && exitY == 0 && playerX == 0 && playerY == 0
    {
      collectible, exit, exitX, exitY, player, playerX, playerY := 0, 0, 0, 0, 0, 0, 0;
    }

    /** The counters and coordinates after reading g up to column i of row y. */
    ghost predicate Counts(g: Tiles, y: int, i: int)
      reads this
    {
      && collectible == |Found(g, 'C', y, i)|
      && exit == |Found(g, 'E', y, i)|
      && player == |Found(g, 'P', y, i)|
      && (exit > 0 ==> Pos(exitX, exitY) in Found(g, 'E', y, i))
      && (player > 0 ==> Pos(playerX, playerY) in Found(g, 'P', y, i))
    }

    /** The game that starts on map g with these coordinates. */
    ghost function Start(g: Tiles): Game
      reads this
    {
      Game(g, collectible, Pos(exitX, exitY), Pos(playerX, playerY), 0, 0)
    }
  }

  /** Adds one row to the counters; 1 when it holds a character no map may hold. */
  method ContainsNotCorrect(chars: MapChars, str: string, y: int, ghost g: Tiles) returns (bad: int)
    requires 0 <= y < |g| && str == g[y] && chars.Counts(g, y, 0)
    modifies chars
    ensures bad == 0 ==> chars.Counts(g, y + 1, 0)
    ensures bad == 0 <==> forall i | 0 <= i < |str| :: Legal(str[i])
    ensures bad == 0 || bad == 1
  {
    hide Found;
    var i := 0;
    while i < |str|
      invariant 0 <= i <= |str|
      invariant chars.Counts(g, y, i)
      invariant forall k | 0 <= k < i :: Legal(str[k])
    {
      FoundNext(g, 'C', y, i);
      FoundNext(g, 'E', y, i);
      FoundNext(g, 'P', y, i);
      if str[i] == 'C' {
        chars.collectible := chars.collectible + 1;
      } else if str[i] == 'E' {
        chars.exitY := y;
        chars.exitX := i;
        chars.exit := chars.exit + 1;
      } else if str[i] == 'P' {
        chars.player := chars.player + 1;
        chars.playerX := i;
        chars.playerY := y;
      } else if str[i] != '1' && str[i] != '0' {
        return 1;
      }
      i := i + 1;
    }
    FoundRow(g, 'C', y);
    FoundRow(g, 'E', y);
    FoundRow(g, 'P', y);
    return 0;
  }

  // --------------------------------------------------------------- shape and border

  function TrimLeft(s: string): string {
    if s != "" && s[0] == '\n' then TrimLeft(s[1..]) else s
  }

  function TrimRight(s: string): string {
    if s != "" && s[|s| - 1] == '\n' then TrimRight(s[..|s| - 1]) else s
  }

  /** ft_strtrim with the set "\n". */
  function Trimmed(s: string): string {
    TrimRight(TrimLeft(s))
  }

  ghost predicate Newlines(s: string) {
    forall i | 0 <= i < |s| :: s[i] == '\n'
  }

  /** A row without the newlines at its two ends. */
  ghost predicate IsTrim(row: string, trim: string) {
    && (trim == "" || (trim[0] != '\n' && trim[|trim| - 1] != '\n'))
    && exists p, q :: Newlines(p) && Newlines(q) && row == p + trim + q
  }

  lemma {:induction false} TrimLeftIs(s: string) returns (p: string)
    ensures Newlines(p) && s == p + TrimLeft(s)
    ensures TrimLeft(s) == "" || TrimLeft(s)[0] != '\n'
  {
    if s != "" && s[0] == '\n' {
      var rest := TrimLeftIs(s[1..]);
      p := ['\n'] + rest;
      assert s == ['\n'] + s[1..] && s == p + TrimLeft(s[1..]);
    } else {
      p := "";
    }
  }

  lemma {:induction false} TrimRightIs(s: string) returns (q: string)
    ensures Newlines(q) && s == TrimRight(s) + q
    ensures TrimRight(s) == "" || TrimRight(s)[|TrimRight(s)| - 1] != '\n'
  {
    if s != "" && s[|s| - 1] == '\n' {
      var rest := TrimRightIs(s[..|s| - 1]);
      q := rest + ['\n'];
      assert s == s[..|s| - 1] + ['\n'];
    } else {
      q := "";
      assert s + "" == s;
    }
  }

  lemma TrimmedIs(s: string)
    ensures IsTrim(s, Trimmed(s))
  {
    var left, trim := TrimLeft(s), Trimmed(s);
    var p := TrimLeftIs(s);
    var q := TrimRightIs(left);
    assert s == p + trim + q;
    if trim != "" {
      assert left[0] == trim[0];
    }
  }

  /** There is only one such row. */
  lemma TrimUnique(row: string, trim: string, other: string)
    requires IsTrim(row, trim) && IsTrim(row, other)
    ensures trim == other
  {
    var p, q :| Newlines(p) && Newlines(q) && row == p + trim + q;
    var p', q' :| Newlines(p') && Newlines(q') && row == p' + other + q';
    SameTrim(row, p, trim, q, p', other, q');
  }

  lemma NothingLeft(p: string, trim: string, q: string)
    requires Newlines(p) && Newlines(q) && (trim == "" || trim[0] != '\n')
    ensures Newlines(p + trim + q) <==> trim == ""
  {
    if trim != "" {
      assert (p + trim + q)[|p|] == trim[0];
    }
  }

  lemma SameTrim(row: string, p: string, trim: string, q: string, p': string, other: string, q': string)
    requires Newlines(p) && Newlines(q) && row == p + trim + q
    requires Newlines(p') && Newlines(q') && row == p' + other + q'
    requires trim == "" || (trim[0] != '\n' && trim[|trim| - 1] != '\n')
    requires other == "" || (other[0] != '\n' && other[|other| - 1] != '\n')
    ensures trim == other
  {
    NothingLeft(p, trim, q);
    NothingLeft(p', other, q');
    if trim != "" {
      Ends(row, p, trim, q);
      Ends(row, p', other, q');
      assert trim == row[|p|..|p| + |trim|] && other == row[|p'|..|p'| + |other|];
    }
  }

  lemma Ends(row: string, p: string, trim: string, q: string)
    requires Newlines(p) && Newlines(q) && row == p + trim + q
    requires trim != "" && trim[0] != '\n' && trim[|trim| - 1] != '\n'
    ensures row[|p|] != '\n' && row[|p| + |trim| - 1] != '\n'
    ensures forall k | 0 <= k < |p| :: row[k] == '\n'
    ensures forall k | |p| + |trim| <= k < |row| :: row[k] == '\n'
  {
    assert row[|p|] == trim[0] && row[|p| + |trim| - 1] == trim[|trim| - 1];
    assert forall k | |p| + |trim| <= k < |row| :: row[k] == q[k - |p| - |trim|];
  }

  /** A line as it is read from a file: its newline goes and nothing else. */
  lemma LineTrimmed(line: string)
    requires '\n' !in line
    ensures IsTrim(line + ['\n'], line) && IsTrim(line, line)
    ensures Trimmed(line + ['\n']) == line
  {
    var none, end: string := "", ['\n'];
    assert Newlines(none) && Newlines(end);
    assert line + end == none + line + end && line == none + line + none;
    TrimmedIs(line + ['\n']);
    TrimUnique(line + ['\n'], Trimmed(line + ['\n']), line);
  }

  ghost predicate TrimmedRows(before: seq<string>, after: seq<string>) {
    |after| == |before| && forall i | 0 <= i < |before| :: IsTrim(before[i], after[i])
  }

  /** The rows of a file, each but perhaps the last with a newline, become its lines. */
  lemma FileTrimmed(lines: seq<string>, ends: seq<bool>, before: seq<string>, after: seq<string>)
    requires |lines| == |ends| == |before| && TrimmedRows(before, after)
    requires forall i | 0 <= i < |lines| :: '\n' !in lines[i]
    requires forall i | 0 <= i < |lines| :: before[i] == if ends[i] then lines[i] + ['\n'] else lines[i]
    ensures after == lines
  {
    forall i | 0 <= i < |lines| ensures after[i] == lines[i] {
      LineTrimmed(lines[i]);
      TrimUnique(before[i], after[i], lines[i]);
    }
  }

  method MapIsRectangular(rows: array<string>) returns (ok: bool)
    modifies rows
    ensures TrimmedRows(old(rows[..]), rows[..])
    ensures ok <==> Rectangular(rows[..])
  {
    var i := 0;
    while i < rows.Length
      invariant 0 <= i <= rows.Length
      invariant forall k | 0 <= k < i :: IsTrim(old(rows[k]), rows[k])
      invariant forall k | i <= k < rows.Length :: rows[k] == old(rows[k])
    {
      TrimmedIs(rows[i]);
      rows[i] := Trimmed(rows[i]);
      i := i + 1;
    }
    i := 0;
    var prior := -1;
    while i < rows.Length
      invariant 0 <= i <= rows.Length
      invariant prior == if i == 0 then -1 else |rows[0]|
      invariant forall k | 0 <= k < i :: |rows[k]| == |rows[0]|
    {
      if prior != -1 && prior != |rows[i]| {
        return false;
      }
      prior := |rows[i]|;
      i := i + 1;
    }
    return true;
  }

  method RowIsWalls(row: string) returns (walls: bool)
    ensures walls <==> AllWalls(row)
  {
    var i := 0;
    while i < |row|
      invariant 0 <= i <= |row|
      invariant forall k | 0 <= k < i :: row[k] == '1'
    {
      if row[i] != '1' {
        return false;
      }
      i := i + 1;
    }
    return true;
  }

  method MapIsClosed(rows: array<string>) returns (closed: bool)
    requires rows.Length > 0
    ensures closed <==> Closed(rows[..])
  {
    var walls := RowIsWalls(rows[0]);
    if !walls {
      return false;
    }
    var i := 0;
    while i + 1 < rows.Length
      invariant 0 <= i < rows.Length
      invariant forall k | 0 <= k < i :: WalledEnds(rows[k])
    {
      // at the terminating NUL of an empty row the first test already fails
      if rows[i] == "" || rows[i][0] != '1' || rows[i][|rows[i]| - 1] != '1' {
        assert !WalledEnds(rows[..][i]);
        return false;
      }
      i := i + 1;
    }
    walls := RowIsWalls(rows[i]);
    return walls;
  }

  /** What `map_is_valid` asks for beside the border. */
  ghost predicate Peopled(g: Tiles) {
    Tiled(g) && |All(g, 'C')| >= 1 && |All(g, 'E')| == 1 && |All(g, 'P')| == 1
  }

  method MapIsValid(rows: array<string>, chars: MapChars) returns (valid: bool)
    requires rows.Length > 0
    modifies chars
    ensures valid <==> Closed(rows[..]) && Peopled(rows[..])
    ensures valid ==> chars.Counts(rows[..], rows.Length, 0)
  {
    hide Found, Closed;
    ghost var g := rows[..];
    var closed := MapIsClosed(rows);
    if !closed {
      return false;
    }
    chars.collectible, chars.exit, chars.player := 0, 0, 0;
    FoundNone(g, 'C');
    FoundNone(g, 'E');
    FoundNone(g, 'P');
    var y := 0;
    while y < rows.Length
      invariant 0 <= y <= rows.Length && rows[..] == g
      invariant chars.Counts(g, y, 0)
      invariant forall j, i | 0 <= j < y && 0 <= i < |g[j]| :: Legal(g[j][i])
    {
      var bad := ContainsNotCorrect(chars, rows[y], y, g);
      if bad == 1 {
        ghost var i :| 0 <= i < |g[y]| && !Legal(g[y][i]);
        assert InGrid(g, Pos(i, y)) && !Legal(At(g, Pos(i, y)));
        return false;
      }
      y := y + 1;
    }
    assert Tiled(g);
    if chars.collectible < 1 || chars.exit != 1 || chars.player != 1 {
      return false;
    }
    return true;
  }

  // --------------------------------------------------------------------- check_map

  /** A fresh copy of the rows, as the rectangle they form. */
  method FillArray(rows: array<string>) returns (tiles: array2<char>)
    requires rows.Length > 0 && Rectangular(rows[..])
    ensures fresh(tiles) && Snap(tiles) == rows[..]
  {
    tiles := new char[rows.Length, |rows[0]|];
    var y := 0;
    while y < rows.Length
      invariant 0 <= y <= rows.Length
      invariant forall j, i | 0 <= j < y && 0 <= i < |rows[0]| :: tiles[j, i] == rows[..][j][i]
    {
      var x := 0;
      while x < |rows[0]|
        invariant 0 <= x <= |rows[0]|
        invariant forall j, i | 0 <= j < y && 0 <= i < |rows[0]| :: tiles[j, i] == rows[..][j][i]
        invariant forall i | 0 <= i < x :: tiles[y, i] == rows[..][y][i]
      {
        assert |rows[..][y]| == |rows[..][0]|;
        tiles[y, x] := rows[y][x];
        x := x + 1;
      }
      y := y + 1;
    }
    SameTiles(Snap(tiles), rows[..]);
  }

  /** The last loop of `check_map`: is there still an exit or a coin? */
  method SomethingLeft(tiles: array2<char>) returns (left: bool)
    ensures left <==> !FillClears(Snap(tiles))
  {
    var y := 0;
    while y < tiles.Length0
      invariant 0 <= y <= tiles.Length0
      invariant forall j, i | 0 <= j < y && 0 <= i < tiles.Length1 :: tiles[j, i] !in {'C', 'E'}
    {
      var x := 0;
      while x < tiles.Length1
        invariant 0 <= x <= tiles.Length1
        invariant forall j, i | 0 <= j < y && 0 <= i < tiles.Length1 :: tiles[j, i] !in {'C', 'E'}
        invariant forall i | 0 <= i < x :: tiles[y, i] !in {'C', 'E'}
      {
        if tiles[y, x] == 'E' || tiles[y, x] == 'C' {
          SnapAt(tiles, Pos(x, y));
          return true;
        }
        x := x + 1;
      }
      y := y + 1;
    }
    forall p | InGrid(Snap(tiles), p) ensures At(Snap(tiles), p) !in {'C', 'E'} {
      SnapAt(tiles, p);
    }
    return false;
  }

  /** A map that passes the rectangle, border and content checks. */
  ghost predicate ValidMap(g: Tiles) {
    |g| > 2 && Rectangular(g) && Closed(g) && Peopled(g)
  }

  lemma OnlyOne(s: set<Pos>, p: Pos)
    requires |s| == 1 && p in s
    ensures s == {p}
  {
    forall q | q in s ensures q == p {
      if q != p {
        SubsetSize({p, q}, s);
      }
    }
  }

  /** On a valid map the coordinates read are those of the one player and the one exit, and
      the game that starts there is in order. */
  lemma StartIsFresh(g: Tiles, chars: MapChars)
    requires ValidMap(g) && chars.Counts(g, |g|, 0)
    ensures Fresh(g, chars.Start(g))
  {
    ClosedEncloses(g);
    FoundIn(g, 'C', |g|, 0);
    FoundIn(g, 'E', |g|, 0);
    FoundIn(g, 'P', |g|, 0);
    OnlyOne(All(g, 'E'), Pos(chars.exitX, chars.exitY));
    OnlyOne(All(g, 'P'), Pos(chars.playerX, chars.playerY));
    assert Coins(g) == All(g, 'C');
  }

  datatype Verdict = Accepted(len: int) | NotSolvable | Invalid

  /** `check_map` accepts exactly the valid maps whose game can be won. */
  method CheckMap(rows: array<string>, chars: MapChars) returns (verdict: Verdict)
    modifies rows, chars
    ensures if rows.Length > 2 then TrimmedRows(old(rows[..]), rows[..]) else rows[..] == old(rows[..])
    ensures verdict == Invalid <==> !ValidMap(rows[..])
    ensures ValidMap(rows[..]) ==> Fresh(rows[..], chars.Start(rows[..]))
    ensures ValidMap(rows[..]) ==> (verdict.Accepted? <==> Winnable(rows[..], chars.Start(rows[..])))
    ensures verdict.Accepted? ==> verdict.len == rows.Length
  {
    var mapLen := rows.Length;
    if mapLen <= 2 {
      return Invalid;
    }
    hide Closed, Peopled, Found, Fresh, TrimmedRows, IsTrim;
    var rectangular := MapIsRectangular(rows);
    if !rectangular {
      return Invalid;
    }
    var valid := MapIsValid(rows, chars);
    if !valid {
      return Invalid;
    }
    StartIsFresh(rows[..], chars);
    var solvable := Solvable(rows, chars);
    verdict := if solvable then Accepted(mapLen) else NotSolvable;
  }

  /** The end of `check_map`: the copy is filled from the player on and searched. */
  method Solvable(rows: array<string>, chars: MapChars) returns (solvable: bool)
    requires rows.Length > 0 && Rectangular(rows[..]) && Fresh(rows[..], chars.Start(rows[..]))
    ensures solvable <==> Winnable(rows[..], chars.Start(rows[..]))
  {
    hide Closed, Peopled, Found, Fresh;
    ghost var g := rows[..];
    var tiles := FillArray(rows);
    ghost var start := chars.Start(g);
    PlayerAtStart(g, start);
    FloodFill(chars.playerX, chars.playerY, tiles);
    MarkedIsFilled(g, Snap(tiles), start.player);
    SolvableIffWinnable(g, Snap(tiles), start);
    var left := SomethingLeft(tiles);
    solvable := !left;
  }

  lemma PlayerAtStart(g: Tiles, s: Game)
    requires Fresh(g, s)
    ensures Enclosed(g) && InGrid(g, s.player)
  {
  }
}

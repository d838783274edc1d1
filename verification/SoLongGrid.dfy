/** Maps of so_long as grids of tiles, and the paths through them. */
module Grid {

  datatype Pos = Pos(x: int, y: int)

  type Tiles = seq<string>

  ghost predicate Rectangular(g: Tiles) {
    forall j | 0 <= j < |g| :: |g[j]| == |g[0]|
  }

  predicate InGrid(g: Tiles, p: Pos) {
    0 <= p.y < |g| && 0 <= p.x < |g[p.y]|
  }

  function At(g: Tiles, p: Pos): char
    requires InGrid(g, p)
  {
    g[p.y][p.x]
  }

  function Put(g: Tiles, p: Pos, c: char): (r: Tiles)
    requires InGrid(g, p)
    ensures |r| == |g| && forall j | 0 <= j < |g| :: |r[j]| == |g[j]|
    ensures forall q | InGrid(r, q) :: At(r, q) == if q == p then c else At(g, q)
  {
    g[p.y := g[p.y][p.x := c]]
  }

  ghost predicate SameShape(g: Tiles, h: Tiles) {
    |g| == |h| && forall j | 0 <= j < |g| :: |g[j]| == |h[j]|
  }

  /** Grids are equal when their tiles are. */
  lemma SameTiles(g: Tiles, h: Tiles)
    requires SameShape(g, h) && forall p | InGrid(g, p) :: At(g, p) == At(h, p)
    ensures g == h
  {
    forall j | 0 <= j < |g| ensures g[j] == h[j] {
      forall i | 0 <= i < |g[j]| ensures g[j][i] == h[j][i] {
        assert InGrid(g, Pos(i, j)) && At(g, Pos(i, j)) == At(h, Pos(i, j));
      }
    }
  }

  ghost predicate AllWalls(row: string) {
    forall i | 0 <= i < |row| :: row[i] == '1'
  }

  ghost predicate WalledEnds(row: string) {
    |row| > 0 && row[0] == '1' && row[|row| - 1] == '1'
  }

  /** The border that `map_is_closed` looks for. */
  ghost predicate Closed(g: Tiles) {
    && |g| > 0
    && AllWalls(g[0]) && AllWalls(g[|g| - 1])
    && forall j | 0 <= j < |g| - 1 :: WalledEnds(g[j])
  }

  // ------------------------------------------------------------------------ paths

  ghost predicate Adjacent(p: Pos, q: Pos) {
    || (p.y == q.y && (q.x == p.x + 1 || q.x == p.x - 1))
    || (p.x == q.x && (q.y == p.y + 1 || q.y == p.y - 1))
  }

  /** Tiles that `flood_fill` enters. */
  predicate Free(c: char) {
    c != '1' && c != 'X'
  }

  ghost predicate FreeAt(g: Tiles, p: Pos) {
    InGrid(g, p) && Free(At(g, p))
  }

  /** A walk from the first to the last position, each step to one of the four neighbours. */
  ghost predicate IsPath(g: Tiles, path: seq<Pos>) {
    && path != []
    && (forall k | 0 <= k < |path| :: FreeAt(g, path[k]))
    && (forall k | 1 <= k < |path| :: Adjacent(path[k - 1], path[k]))
  }

  ghost predicate PathBetween(g: Tiles, path: seq<Pos>, p: Pos, q: Pos) {
    IsPath(g, path) && path[0] == p && path[|path| - 1] == q
  }

  ghost predicate Reach(g: Tiles, p: Pos, q: Pos) {
    exists path :: PathBetween(g, path, p, q)
  }

  lemma ReachSelf(g: Tiles, p: Pos)
    requires FreeAt(g, p)
    ensures Reach(g, p, p)
  {
    assert PathBetween(g, [p], p, p);
  }

  lemma ReachSnoc(g: Tiles, p: Pos, q: Pos, r: Pos)
    requires Reach(g, p, q) && Adjacent(q, r) && FreeAt(g, r)
    ensures Reach(g, p, r)
  {
    var path :| PathBetween(g, path, p, q);
    assert PathBetween(g, path + [r], p, r);
  }

  lemma ReachCons(g: Tiles, p: Pos, q: Pos, r: Pos)
    requires FreeAt(g, p) && Adjacent(p, q) && Reach(g, q, r)
    ensures Reach(g, p, r)
  {
    var path :| PathBetween(g, path, q, r);
    assert PathBetween(g, [p] + path, p, r);
  }

  lemma ReachTrans(g: Tiles, p: Pos, q: Pos, r: Pos)
    requires Reach(g, p, q) && Reach(g, q, r)
    ensures Reach(g, p, r)
  {
    var path :| PathBetween(g, path, p, q);
    var rest :| PathBetween(g, rest, q, r);
    assert PathBetween(g, path + rest[1..], p, r);
  }

  /** Walks can be taken backwards. */
  lemma {:induction false} ReachBack(g: Tiles, path: seq<Pos>)
    requires IsPath(g, path)
    ensures Reach(g, path[|path| - 1], path[0])
  {
    if |path| == 1 {
      ReachSelf(g, path[0]);
    } else {
      ReachBack(g, path[1..]);
      assert Adjacent(path[0], path[1]) && FreeAt(g, path[0]);
      ReachSnoc(g, path[|path| - 1], path[1], path[0]);
    }
  }

  lemma ReachSymmetric(g: Tiles, p: Pos, q: Pos)
    requires Reach(g, p, q)
    ensures Reach(g, q, p)
  {
    var path :| PathBetween(g, path, p, q);
    ReachBack(g, path);
  }

  /** A walk through fewer free tiles is a walk through more. */
  lemma ReachMonotone(g: Tiles, h: Tiles, p: Pos, q: Pos)
    requires Reach(g, p, q) && forall r | FreeAt(g, r) :: FreeAt(h, r)
    ensures Reach(h, p, q)
  {
    var path :| PathBetween(g, path, p, q);
    assert PathBetween(h, path, p, q);
  }

  /** Nothing free touches the edge, so every neighbour of a free tile is on the map. */
  ghost predicate Enclosed(g: Tiles) {
    forall p, q | FreeAt(g, p) && Adjacent(p, q) :: InGrid(g, q)
  }

  lemma ClosedEncloses(g: Tiles)
    requires Rectangular(g) && Closed(g) && |g| > 2
    ensures Enclosed(g)
  {
    forall p, q | FreeAt(g, p) && Adjacent(p, q) ensures InGrid(g, q) {
      assert p.y != 0 && p.y != |g| - 1;
      assert WalledEnds(g[p.y]);
      assert |g[q.y]| == |g[0]| == |g[p.y]|;
    }
  }

  // ------------------------------------------------------------------- flood fill

  /** What the fill from p must leave: every tile reachable from p marked, no other touched. */
  ghost predicate Filled(g: Tiles, h: Tiles, p: Pos) {
    && SameShape(g, h)
    && forall q | InGrid(g, q) :: At(h, q) == if Reach(g, p, q) then 'X' else At(g, q)
  }

  /** What one call of the fill guarantees on its own: it marks only tiles reachable from p,
      it marks p, and around what it marked nothing free is left. */
  ghost predicate Marked(g: Tiles, h: Tiles, p: Pos) {
    && SameShape(g, h)
    && (forall q | InGrid(g, q) :: At(h, q) == At(g, q) || (At(h, q) == 'X' && Reach(g, p, q)))
    && (FreeAt(g, p) ==> At(h, p) == 'X')
    && (forall q, r | InGrid(g, q) && At(h, q) != At(g, q) && Adjacent(q, r) :: !FreeAt(h, r))
  }

  /** The local guarantees add up to the exact fill. */
  lemma MarkedIsFilled(g: Tiles, h: Tiles, p: Pos)
    requires Marked(g, h, p)
    ensures Filled(g, h, p)
  {
    forall q | Reach(g, p, q) ensures InGrid(g, q) && At(h, q) == 'X' {
      var path :| PathBetween(g, path, p, q);
      AllMarked(g, h, p, path);
    }
  }

  lemma {:induction false} AllMarked(g: Tiles, h: Tiles, p: Pos, path: seq<Pos>)
    requires Marked(g, h, p) && IsPath(g, path) && path[0] == p
    ensures InGrid(g, path[|path| - 1]) && At(h, path[|path| - 1]) == 'X'
  {
    var last := |path| - 1;
    assert FreeAt(g, path[last]);
    if last > 0 {
      AllMarked(g, h, p, path[..last]);
      assert FreeAt(g, path[last - 1]) && Adjacent(path[last - 1], path[last]);
      assert !FreeAt(h, path[last]);
    }
  }

  /** The neighbours in the order the fill visits them. */
  function Neighbour(p: Pos, k: int): Pos {
    if k == 0 then Pos(p.x + 1, p.y)
    else if k == 1 then Pos(p.x - 1, p.y)
    else if k == 2 then Pos(p.x, p.y + 1)
    else Pos(p.x, p.y - 1)
  }

  lemma NeighboursAreAdjacent(p: Pos, q: Pos)
    ensures Adjacent(p, q) <==> exists k :: 0 <= k < 4 && q == Neighbour(p, k)
  {
    assert Neighbour(p, 0) == Pos(p.x + 1, p.y) && Neighbour(p, 1) == Pos(p.x - 1, p.y);
    assert Neighbour(p, 2) == Pos(p.x, p.y + 1) && Neighbour(p, 3) == Pos(p.x, p.y - 1);
  }

  /** The fill from p when p itself and its first k neighbours have been visited. */
  ghost predicate Spreading(g: Tiles, h: Tiles, p: Pos, k: int) {
    && SameShape(g, h) && FreeAt(g, p)
    && (forall q | InGrid(g, q) :: At(h, q) == At(g, q) || (At(h, q) == 'X' && Reach(g, p, q)))
    && At(h, p) == 'X'
    && (forall q, r | InGrid(g, q) && At(h, q) != At(g, q) && Adjacent(q, r) && q != p :: !FreeAt(h, r))
    && (forall j | 0 <= j < k :: !FreeAt(h, Neighbour(p, j)))
  }

  lemma SpreadStart(g: Tiles, p: Pos)
    requires FreeAt(g, p)
    ensures Spreading(g, Put(g, p, 'X'), p, 0)
  {
    ReachSelf(g, p);
  }

  /** One recursive call, on the next neighbour of p. */
  lemma SpreadStep(g: Tiles, h: Tiles, h': Tiles, p: Pos, k: int)
    requires 0 <= k < 4 && Spreading(g, h, p, k) && Marked(h, h', Neighbour(p, k))
    ensures Spreading(g, h', p, k + 1)
  {
    var n := Neighbour(p, k);
    NeighboursAreAdjacent(p, n);
    forall r | FreeAt(h, r) ensures FreeAt(g, r) {
    }
    forall r | FreeAt(h', r) ensures FreeAt(h, r) {
    }
    forall q | InGrid(g, q) && Reach(h, n, q) ensures Reach(g, p, q) {
      ReachMonotone(h, g, n, q);
      ReachCons(g, p, n, q);
    }
  }

  lemma SpreadEnd(g: Tiles, h: Tiles, p: Pos)
    requires Spreading(g, h, p, 4)
    ensures Marked(g, h, p)
  {
    forall r | Adjacent(p, r) ensures !FreeAt(h, r) {
      NeighboursAreAdjacent(p, r);
    }
  }
}

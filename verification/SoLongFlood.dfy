/** `flood_fill`, marking the map in place. */
module Flood {
  import opened Basics
  import opened Grid

  /** The tiles of the allocated map. */
  ghost function Snap(tiles: array2<char>): (g: Tiles)
    reads tiles
    ensures |g| == tiles.Length0 && forall j | 0 <= j < |g| :: |g[j]| == tiles.Length1
  {
    seq(tiles.Length0, j requires 0 <= j < tiles.Length0 reads tiles =>
      seq(tiles.Length1, i requires 0 <= i < tiles.Length1 reads tiles => tiles[j, i]))
  }

  lemma SnapAt(tiles: array2<char>, p: Pos)
    requires 0 <= p.x < tiles.Length1 && 0 <= p.y < tiles.Length0
    ensures InGrid(Snap(tiles), p) && At(Snap(tiles), p) == tiles[p.y, p.x]
  {
  }

  ghost function FreeTiles(g: Tiles): (r: set<Pos>)
    ensures forall p :: p in r <==> FreeAt(g, p)
  {
    set j, i | 0 <= j < |g| && 0 <= i < |g[j]| && Free(g[j][i]) :: Pos(i, j)
  }

  ghost function FreeCount(g: Tiles): nat {
    |FreeTiles(g)|
  }

  lemma FreeShrinks(g: Tiles, h: Tiles, p: Pos)
    requires Marked(g, h, p) && Enclosed(g)
    ensures FreeCount(h) <= FreeCount(g) && Enclosed(h)
  {
    assert forall q | FreeAt(h, q) :: FreeAt(g, q);
    SubsetSize(FreeTiles(h), FreeTiles(g));
  }

  /** After p itself is marked the fill goes on with one free tile less. */
  lemma FillStarts(g: Tiles, p: Pos)
    requires FreeAt(g, p) && Enclosed(g)
    ensures Spreading(g, Put(g, p, 'X'), p, 0)
    ensures FreeCount(Put(g, p, 'X')) < FreeCount(g) && Enclosed(Put(g, p, 'X'))
    ensures InGrid(g, Pos(p.x + 1, p.y)) && InGrid(g, Pos(p.x - 1, p.y))
    ensures InGrid(g, Pos(p.x, p.y + 1)) && InGrid(g, Pos(p.x, p.y - 1))
  {
    SpreadStart(g, p);
    var h := Put(g, p, 'X');
    assert forall q | FreeAt(h, q) :: FreeAt(g, q);
    assert p in FreeTiles(g) && p !in FreeTiles(h);
    SubsetSize(FreeTiles(h), FreeTiles(g));
    assert Adjacent(p, Pos(p.x + 1, p.y)) && Adjacent(p, Pos(p.x - 1, p.y));
    assert Adjacent(p, Pos(p.x, p.y + 1)) && Adjacent(p, Pos(p.x, p.y - 1));
  }

  /** Overwrites the first tile. */
  method Mark(x: int, y: int, tiles: array2<char>)
    requires FreeAt(Snap(tiles), Pos(x, y)) && Enclosed(Snap(tiles))
    modifies tiles
    ensures Spreading(old(Snap(tiles)), Snap(tiles), Pos(x, y), 0) && Enclosed(Snap(tiles))
    ensures FreeCount(Snap(tiles)) < old(FreeCount(Snap(tiles)))
    ensures 0 < x < tiles.Length1 - 1 && 0 < y < tiles.Length0 - 1
  {
    ghost var g := Snap(tiles);
    FillStarts(g, Pos(x, y));
    tiles[y, x] := 'X';
    SameTiles(Snap(tiles), Put(g, Pos(x, y), 'X'));
  }

  /** One recursive call spreads the fill to one more neighbour. */
  lemma FillSpreads(g: Tiles, h: Tiles, h': Tiles, p: Pos, k: int)
    requires 0 <= k < 4 && Spreading(g, h, p, k) && Marked(h, h', Neighbour(p, k)) && Enclosed(h)
    ensures Spreading(g, h', p, k + 1)
    ensures FreeCount(h') <= FreeCount(h) && Enclosed(h')
  {
    SpreadStep(g, h, h', p, k);
    FreeShrinks(h, h', Neighbour(p, k));
  }

  lemma NothingToMark(g: Tiles, p: Pos)
    requires !FreeAt(g, p)
    ensures Marked(g, g, p)
  {
  }

  /** Marks what can be reached from (x, y).  The terminating NULL row and NUL column, at
      y == Length0 and x == Length1, are the only places outside the map it may look at. */
  method FloodFill(x: int, y: int, tiles: array2<char>)
    requires 0 <= x <= tiles.Length1 && 0 <= y <= tiles.Length0
    requires Enclosed(Snap(tiles))
    modifies tiles
    ensures Marked(old(Snap(tiles)), Snap(tiles), Pos(x, y))
    decreases FreeCount(Snap(tiles)), 1
  {
    ghost var g, p := Snap(tiles), Pos(x, y);
    if y == tiles.Length0 || x == tiles.Length1 || tiles[y, x] == '1' || tiles[y, x] == 'X' {
      if x < tiles.Length1 && y < tiles.Length0 {
        SnapAt(tiles, p);
      }
      NothingToMark(g, p);
      return;
    }
    SnapAt(tiles, p);
    FillFrom(x, y, tiles);
  }

  /** The rest of `flood_fill`, at a free tile. */
  method FillFrom(x: int, y: int, tiles: array2<char>)
    requires FreeAt(Snap(tiles), Pos(x, y)) && Enclosed(Snap(tiles))
    modifies tiles
    ensures Marked(old(Snap(tiles)), Snap(tiles), Pos(x, y))
    decreases FreeCount(Snap(tiles)), 0
  {
    ghost var g, p := Snap(tiles), Pos(x, y);
    hide Snap, Marked, Spreading, Enclosed, FreeCount, FreeAt;
    Mark(x, y, tiles);
    Spread(x + 1, y, tiles, g, p, 0);
    Spread(x - 1, y, tiles, g, p, 1);
    Spread(x, y + 1, tiles, g, p, 2);
    Spread(x, y - 1, tiles, g, p, 3);
    SpreadEnd(g, Snap(tiles), p);
  }

  /** One of the four recursive calls. */
  method Spread(x: int, y: int, tiles: array2<char>, ghost g: Tiles, ghost p: Pos, ghost k: int)
    requires 0 <= x < tiles.Length1 && 0 <= y < tiles.Length0
    requires 0 <= k < 4 && Pos(x, y) == Neighbour(p, k)
    requires Spreading(g, Snap(tiles), p, k) && Enclosed(Snap(tiles))
    modifies tiles
    ensures Spreading(g, Snap(tiles), p, k + 1) && Enclosed(Snap(tiles))
    ensures FreeCount(Snap(tiles)) <= old(FreeCount(Snap(tiles)))
    decreases FreeCount(Snap(tiles)), 2
  {
    hide Snap, Marked, Spreading, Enclosed, FreeCount;
    ghost var h := Snap(tiles);
    FloodFill(x, y, tiles);
    FillSpreads(g, h, Snap(tiles), p, k);
  }
}

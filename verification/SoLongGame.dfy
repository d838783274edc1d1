/** The game of so_long as a function of its events, and what every game keeps. */
module Game {
  import opened Basics
  import opened Grid

  datatype Game = Game(tiles: Tiles, collectible: int, exit: Pos, player: Pos, end: int, movements: int)

  datatype Move = Forward | Left | Backward | Right

  function Toward(p: Pos, m: Move): Pos {
    match m
    case Forward => Pos(p.x, p.y - 1)
    case Left => Pos(p.x - 1, p.y)
    case Backward => Pos(p.x, p.y + 1)
    case Right => Pos(p.x + 1, p.y)
  }

  /** The positions a move may look at are on the map. */
  ghost predicate OnMap(s: Game) {
    InGrid(s.tiles, s.player) && InGrid(s.tiles, s.exit)
    && forall q | Adjacent(s.player, q) :: InGrid(s.tiles, q)
  }

  predicate Enterable(s: Game, to: Pos)
    requires InGrid(s.tiles, to)
  {
    s.end != 1 && At(s.tiles, to) in {'C', 'E', '0'}
  }

  /** `can_move`, when it returns 1. */
  function Entered(s: Game, to: Pos): Game
    requires InGrid(s.tiles, to)
  {
    s.(tiles := Put(s.tiles, to, 'P'),
       collectible := if At(s.tiles, to) == 'C' then s.collectible - 1 else s.collectible,
       end := if At(s.tiles, to) == 'E' && s.collectible == 0 then 1 else s.end)
  }

  /** One of the four `move_*` functions. */
  function Moved(s: Game, m: Move): Game
    requires OnMap(s)
  {
    var to := Toward(s.player, m);
    assert Adjacent(s.player, to);
    if Enterable(s, to) then
      Entered(s, to).(tiles := Put(Entered(s, to).tiles, s.player, '0'), player := to, movements := s.movements + 1)
    else s
  }

  /** `render_exit`, which `event_handler` calls when the player is elsewhere. */
  function ExitShown(s: Game): Game
    requires InGrid(s.tiles, s.exit)
  {
    if s.player != s.exit then s.(tiles := Put(s.tiles, s.exit, 'E')) else s
  }

  /** One event of the game: a move, then the exit is shown again. */
  function Stepped(s: Game, m: Move): Game
    requires OnMap(s)
  {
    ExitShown(Moved(s, m))
  }

  lemma MovedKeepsExit(s: Game, m: Move)
    requires OnMap(s)
    ensures Moved(s, m).exit == s.exit && InGrid(Moved(s, m).tiles, s.exit)
  {
    assert Adjacent(s.player, Toward(s.player, m));
  }

  // -------------------------------------------------------------------- invariant

  function Coins(g: Tiles): (r: set<Pos>)
    ensures forall p :: p in r <==> InGrid(g, p) && At(g, p) == 'C'
  {
    set j, i | 0 <= j < |g| && 0 <= i < |g[j]| && g[j][i] == 'C' :: Pos(i, j)
  }

  ghost predicate Tiled(g: Tiles) {
    forall p | InGrid(g, p) :: At(g, p) in {'0', '1', 'C', 'E', 'P'}
  }

  /** Walls stay where they were, and no coin appears. */
  ghost predicate TilesKept(g: Tiles, h: Tiles) {
    && SameShape(g, h) && Tiled(g) && Tiled(h)
    && (forall p | InGrid(h, p) :: At(h, p) == '1' <==> At(g, p) == '1')
    && Coins(h) <= Coins(g)
  }

  /** Exactly one player tile, at the player; the exit tile at the exit and nowhere else,
      shown unless the player stands on it. */
  ghost predicate Placed(s: Game) {
    && InGrid(s.tiles, s.player) && InGrid(s.tiles, s.exit)
    && (forall p | InGrid(s.tiles, p) :: At(s.tiles, p) == 'P' <==> p == s.player)
    && (forall p | InGrid(s.tiles, p) :: At(s.tiles, p) == 'E' <==> p == s.exit && p != s.player)
  }

  /** `collectible` counts the coins, and the game has ended exactly when the player is on the
      exit with none left. */
  ghost predicate Scored(s: Game) {
    && s.collectible == |Coins(s.tiles)|
    && s.end in {0, 1}
    && (s.end == 1 <==> s.player == s.exit && s.collectible == 0)
  }

  ghost predicate Playing(g: Tiles, s: Game) {
    TilesKept(g, s.tiles) && Placed(s) && Scored(s)
  }

  /** Free tiles of the first map are the ones a player can stand on. */
  lemma PlayerIsFree(g: Tiles, s: Game)
    requires TilesKept(g, s.tiles) && Placed(s)
    ensures FreeAt(g, s.player) && FreeAt(g, s.exit)
  {
    assert At(s.tiles, s.player) == 'P';
    assert At(s.tiles, s.exit) in {'E', 'P'};
  }

  lemma PlayingOnMap(g: Tiles, s: Game)
    requires Enclosed(g) && Playing(g, s)
    ensures OnMap(s)
  {
    PlayerIsFree(g, s);
  }

  /** A player enters every neighbour that is not a wall, until the game has ended. */
  lemma EnterableIffFree(g: Tiles, s: Game, to: Pos)
    requires Enclosed(g) && Playing(g, s) && Adjacent(s.player, to)
    ensures InGrid(s.tiles, to)
    ensures Enterable(s, to) <==> s.end == 0 && FreeAt(g, to)
  {
    PlayingOnMap(g, s);
    assert to != s.player;
  }

  function TileAfter(s: Game, to: Pos, p: Pos): char
    requires InGrid(s.tiles, p)
  {
    if p == to then 'P' else if p == s.exit then 'E' else if p == s.player then '0' else At(s.tiles, p)
  }

  /** What a successful move leaves. */
  ghost predicate Advanced(s: Game, s': Game, to: Pos)
    requires InGrid(s.tiles, to)
  {
    && s'.player == to && s'.exit == s.exit && s'.movements == s.movements + 1
    && SameShape(s.tiles, s'.tiles)
    && (forall p | InGrid(s.tiles, p) :: At(s'.tiles, p) == TileAfter(s, to, p))
    && s'.collectible == (if At(s.tiles, to) == 'C' then s.collectible - 1 else s.collectible)
    && s'.end == (if At(s.tiles, to) == 'E' && s.collectible == 0 then 1 else s.end)
  }

  /** The map after a successful move, write by write. */
  function Rewritten(g: Tiles, to: Pos, player: Pos, exit: Pos): Tiles
    requires InGrid(g, to) && InGrid(g, player) && InGrid(g, exit)
  {
    var moved := Put(Put(g, to, 'P'), player, '0');
    if to != exit then Put(moved, exit, 'E') else moved
  }

  lemma RewrittenTiles(g: Tiles, to: Pos, player: Pos, exit: Pos)
    requires InGrid(g, to) && InGrid(g, player) && InGrid(g, exit) && to != player
    ensures SameShape(g, Rewritten(g, to, player, exit))
    ensures forall p | InGrid(g, p) ::
              At(Rewritten(g, to, player, exit), p) ==
              if p == to then 'P' else if p == exit then 'E' else if p == player then '0' else At(g, p)
  {
  }

  lemma SteppedIsRewritten(s: Game, m: Move)
    requires OnMap(s)
    ensures InGrid(s.tiles, Toward(s.player, m)) && Toward(s.player, m) != s.player
    ensures Enterable(s, Toward(s.player, m)) ==>
              Stepped(s, m) == Entered(s, Toward(s.player, m)).(
                tiles := Rewritten(s.tiles, Toward(s.player, m), s.player, s.exit),
                player := Toward(s.player, m),
                movements := s.movements + 1)
  {
    assert Adjacent(s.player, Toward(s.player, m));
  }

  lemma MovedTiles(s: Game, m: Move)
    requires OnMap(s)
    ensures InGrid(s.tiles, Toward(s.player, m))
    ensures Enterable(s, Toward(s.player, m)) ==> Advanced(s, Stepped(s, m), Toward(s.player, m))
  {
    hide Stepped, Rewritten;
    SteppedIsRewritten(s, m);
    RewrittenTiles(s.tiles, Toward(s.player, m), s.player, s.exit);
  }

  lemma AdvancedCoins(s: Game, s': Game, to: Pos)
    requires Placed(s) && InGrid(s.tiles, to) && Advanced(s, s', to)
    ensures Coins(s'.tiles) == Coins(s.tiles) - {to}
  {
    assert At(s.tiles, s.player) == 'P';
    assert At(s.tiles, s.exit) != 'C';
  }

  lemma AdvancedTiles(g: Tiles, s: Game, s': Game, to: Pos)
    requires TilesKept(g, s.tiles) && Placed(s) && InGrid(s.tiles, to) && Advanced(s, s', to) && Enterable(s, to)
    ensures TilesKept(g, s'.tiles)
  {
    AdvancedCoins(s, s', to);
    assert At(s.tiles, s.player) == 'P';
    assert At(s.tiles, s.exit) in {'P', 'E'};
  }

  lemma AdvancedPlaced(s: Game, s': Game, to: Pos)
    requires Placed(s) && InGrid(s.tiles, to) && Advanced(s, s', to) && Enterable(s, to)
    ensures Placed(s')
  {
  }

  lemma AdvancedScored(s: Game, s': Game, to: Pos)
    requires Placed(s) && Scored(s) && InGrid(s.tiles, to) && Advanced(s, s', to) && Enterable(s, to)
    ensures Scored(s')
  {
    AdvancedCoins(s, s', to);
    if At(s.tiles, to) == 'C' {
      assert |Coins(s.tiles) - {to}| == |Coins(s.tiles)| - 1;
    } else {
      assert Coins(s.tiles) - {to} == Coins(s.tiles);
    }
  }

  /** A blocked move changes nothing at all. */
  lemma BlockedMove(g: Tiles, s: Game, m: Move)
    requires Enclosed(g) && Playing(g, s) && OnMap(s) && !Enterable(s, Toward(s.player, m))
    ensures Stepped(s, m) == s
  {
    if s.player != s.exit {
      SameTiles(Put(s.tiles, s.exit, 'E'), s.tiles);
    }
  }

  /** Every event keeps the player, the walls, the exit, the coin count and the end in order. */
  lemma StepKeeps(g: Tiles, s: Game, m: Move)
    requires Enclosed(g) && Playing(g, s) && OnMap(s)
    ensures Playing(g, Stepped(s, m))
  {
    hide Stepped, TilesKept, Placed, Scored, Advanced;
    var to := Toward(s.player, m);
    MovedTiles(s, m);
    if Enterable(s, to) {
      AdvancedTiles(g, s, Stepped(s, m), to);
      AdvancedPlaced(s, Stepped(s, m), to);
      AdvancedScored(s, Stepped(s, m), to);
    } else {
      BlockedMove(g, s, m);
    }
  }

  // ------------------------------------------------------------------------- runs

  /** The game after a list of events. */
  ghost function Played(g: Tiles, s: Game, moves: seq<Move>): (r: Game)
    requires Enclosed(g) && Playing(g, s)
    ensures Playing(g, r)
    decreases |moves|
  {
    PlayingOnMap(g, s);
    if moves == [] then s
    else
      StepKeeps(g, s, moves[0]);
      Played(g, Stepped(s, moves[0]), moves[1..])
  }

  lemma {:induction false} PlayedOn(g: Tiles, s: Game, first: seq<Move>, second: seq<Move>)
    requires Enclosed(g) && Playing(g, s)
    ensures Played(g, s, first + second) == Played(g, Played(g, s, first), second)
    decreases |first|
  {
    if first == [] {
      assert first + second == second;
    } else {
      PlayingOnMap(g, s);
      StepKeeps(g, s, first[0]);
      assert (first + second)[1..] == first[1..] + second;
      PlayedOn(g, Stepped(s, first[0]), first[1..], second);
    }
  }

  ghost predicate Winnable(g: Tiles, s: Game)
    requires Enclosed(g) && Playing(g, s)
  {
    exists moves :: Played(g, s, moves).end == 1
  }

  lemma WinnableLater(g: Tiles, s: Game, moves: seq<Move>)
    requires Enclosed(g) && Playing(g, s) && Winnable(g, Played(g, s, moves))
    ensures Winnable(g, s)
  {
    hide Playing, Enclosed, Played;
    var s' := Played(g, s, moves);
    var more :| Played(g, s', more).end == 1;
    PlayedOn(g, s, moves, more);
    assert Played(g, s, moves + more).end == 1;
  }

  function MoveTo(p: Pos, q: Pos): Move {
    if q.x == p.x + 1 then Right else if q.x == p.x - 1 then Left else if q.y == p.y + 1 then Backward else Forward
  }

  /** One step along a path. */
  lemma StepAlong(g: Tiles, s: Game, q: Pos)
    requires Enclosed(g) && Playing(g, s) && OnMap(s) && s.end != 1 && Adjacent(s.player, q) && FreeAt(g, q)
    ensures Playing(g, Stepped(s, MoveTo(s.player, q)))
    ensures Stepped(s, MoveTo(s.player, q)).player == q && Stepped(s, MoveTo(s.player, q)).exit == s.exit
    ensures Coins(Stepped(s, MoveTo(s.player, q)).tiles) == Coins(s.tiles) - {q}
  {
    var m := MoveTo(s.player, q);
    assert Toward(s.player, m) == q;
    EnterableIffFree(g, s, q);
    MovedTiles(s, m);
    StepKeeps(g, s, m);
    AdvancedCoins(s, Stepped(s, m), q);
  }

  /** Following a path leads to its end, unless the game ends on the way. */
  lemma {:induction false} WalkAlong(g: Tiles, s: Game, path: seq<Pos>) returns (moves: seq<Move>)
    requires Enclosed(g) && Playing(g, s) && IsPath(g, path) && path[0] == s.player
    ensures var s' := Played(g, s, moves);
            && s'.exit == s.exit && Coins(s'.tiles) <= Coins(s.tiles)
            && (s'.end == 1 || s'.player == path[|path| - 1])
    decreases |path|
  {
    hide Playing, Enclosed, Stepped, Coins;
    PlayingOnMap(g, s);
    if s.end == 1 || |path| == 1 {
      moves := [];
    } else {
      assert Adjacent(path[0], path[1]) && FreeAt(g, path[1]);
      StepAlong(g, s, path[1]);
      var m := MoveTo(s.player, path[1]);
      var rest := WalkAlong(g, Stepped(s, m), path[1..]);
      moves := [m] + rest;
      assert moves[1..] == rest;
    }
  }

  /** From a position that everything can be reached from, walking from coin to coin and then
      to the exit ends the game. */
  lemma {:induction false} CollectAll(g: Tiles, s: Game)
    requires Enclosed(g) && Playing(g, s)
    requires Reach(g, s.player, s.exit) && forall c | c in Coins(s.tiles) :: Reach(g, s.player, c)
    ensures Winnable(g, s)
    decreases |Coins(s.tiles)|
  {
    if s.end == 1 {
      assert Played(g, s, []).end == 1;
    } else if Coins(s.tiles) == {} {
      var path :| PathBetween(g, path, s.player, s.exit);
      var moves := WalkAlong(g, s, path);
      assert Played(g, s, moves).end == 1;
    } else {
      var c :| c in Coins(s.tiles);
      var path :| PathBetween(g, path, s.player, c);
      var moves := WalkAlong(g, s, path);
      var s' := Played(g, s, moves);
      if s'.end != 1 {
        OneCoinLess(g, s, s', c);
        CollectAll(g, s');
        WinnableLater(g, s, moves);
      }
    }
  }

  lemma OneCoinLess(g: Tiles, s: Game, s': Game, c: Pos)
    requires Playing(g, s) && Playing(g, s') && s'.exit == s.exit && s'.player == c
    requires c in Coins(s.tiles) && Coins(s'.tiles) <= Coins(s.tiles)
    requires Reach(g, s.player, s.exit) && forall d | d in Coins(s.tiles) :: Reach(g, s.player, d)
    ensures |Coins(s'.tiles)| < |Coins(s.tiles)|
    ensures Reach(g, s'.player, s'.exit) && forall d | d in Coins(s'.tiles) :: Reach(g, s'.player, d)
  {
    assert At(s'.tiles, c) == 'P';
    assert Coins(s'.tiles) <= Coins(s.tiles) - {c};
    SubsetSize(Coins(s'.tiles), Coins(s.tiles) - {c});
    ReachSymmetric(g, s.player, c);
    ReachTrans(g, c, s.player, s.exit);
    forall d | d in Coins(s'.tiles) ensures Reach(g, c, d) {
      ReachTrans(g, c, s.player, d);
    }
  }

  /** What a player has visited or taken could be reached from the start. */
  ghost predicate Explored(g: Tiles, start: Pos, s: Game) {
    && Reach(g, start, s.player)
    && forall c | c in Coins(g) && c !in Coins(s.tiles) :: Reach(g, start, c)
  }

  lemma StepExplores(g: Tiles, start: Pos, s: Game, m: Move)
    requires Enclosed(g) && Playing(g, s) && OnMap(s) && Explored(g, start, s)
    ensures Explored(g, start, Stepped(s, m))
  {
    hide Stepped;
    var to := Toward(s.player, m);
    MovedTiles(s, m);
    if Enterable(s, to) {
      EnterableIffFree(g, s, to);
      ReachSnoc(g, start, s.player, to);
      AdvancedCoins(s, Stepped(s, m), to);
    } else {
      BlockedMove(g, s, m);
    }
  }

  lemma {:induction false} PlayExplores(g: Tiles, start: Pos, s: Game, moves: seq<Move>)
    requires Enclosed(g) && Playing(g, s) && Explored(g, start, s)
    ensures Explored(g, start, Played(g, s, moves)) && Played(g, s, moves).exit == s.exit
    decreases |moves|
  {
    PlayingOnMap(g, s);
    if moves != [] {
      StepExplores(g, start, s, moves[0]);
      StepKeeps(g, s, moves[0]);
      PlayExplores(g, start, Stepped(s, moves[0]), moves[1..]);
    }
  }

  /** The flood fill from the player leaves no coin and no exit. */
  ghost predicate FillClears(h: Tiles) {
    forall p | InGrid(h, p) :: At(h, p) !in {'C', 'E'}
  }

  ghost predicate AllReachable(g: Tiles, player: Pos) {
    forall p | InGrid(g, p) && At(g, p) in {'C', 'E'} :: Reach(g, player, p)
  }

  lemma FillClearsIff(g: Tiles, h: Tiles, player: Pos)
    requires Filled(g, h, player)
    ensures FillClears(h) <==> AllReachable(g, player)
  {
  }

  /** A fresh game on a map with its player and exit in place. */
  ghost predicate Fresh(g: Tiles, s: Game) {
    && Enclosed(g) && Playing(g, s) && s.tiles == g && s.player != s.exit
  }

  /** The check accepts a map exactly when its game can be won. */
  lemma SolvableIffWinnable(g: Tiles, h: Tiles, s: Game)
    requires Fresh(g, s) && Filled(g, h, s.player)
    ensures FillClears(h) <==> Winnable(g, s)
  {
    FillClearsIff(g, h, s.player);
    PlayerIsFree(g, s);
    ReachSelf(g, s.player);
    if AllReachable(g, s.player) {
      assert At(g, s.exit) == 'E';
      CollectAll(g, s);
    }
    if Winnable(g, s) {
      var moves :| Played(g, s, moves).end == 1;
      PlayExplores(g, s.player, s, moves);
      WonExploresAll(g, s, Played(g, s, moves));
    }
  }

  lemma WonExploresAll(g: Tiles, s: Game, won: Game)
    requires Fresh(g, s) && Playing(g, won) && won.end == 1 && won.exit == s.exit && Explored(g, s.player, won)
    ensures AllReachable(g, s.player)
  {
    assert Coins(won.tiles) == {};
    forall p | InGrid(g, p) && At(g, p) in {'C', 'E'} ensures Reach(g, s.player, p) {
      if At(g, p) == 'C' {
        assert p in Coins(g);
      }
    }
  }
}

/** The moves of so_long and its key handler, changing the map in place. */
module Moves {
  import opened Grid
  import opened Flood
  import opened Game

  class Vars {
    const tiles: array2<char>
    var collectible: int
    var exitX: int
    var exitY: int
    var playerX: int
    var playerY: int
    var movements: int
    var end: int

    ghost function View(): Game
      reads this, tiles
    {
      Game(Snap(tiles), collectible, Pos(exitX, exitY), Pos(playerX, playerY), end, movements)
    }

    constructor (tiles: array2<char>, collectible: int, exit: Pos, player: Pos)
      ensures this.tiles == tiles
      ensures View() == Game(Snap(tiles), collectible, exit, player, 0, 0)
    {
      this.tiles := tiles;
      this.collectible := collectible;
      exitX, exitY := exit.x, exit.y;
      playerX, playerY := player.x, player.y;
      movements, end := 0, 0;
    }

    method SetTile(x: int, y: int, c: char)
      requires InGrid(View().tiles, Pos(x, y))
      modifies tiles
      ensures View() == old(View()).(tiles := Put(old(View()).tiles, Pos(x, y), c))
    {
      ghost var g := Snap(tiles);
      tiles[y, x] := c;
      SameTiles(Snap(tiles), Put(g, Pos(x, y), c));
    }

    method CanMove(newX: int, newY: int) returns (ok: int)
      requires InGrid(View().tiles, Pos(newX, newY))
      modifies this`collectible, this`end, tiles
      ensures ok == 1 <==> old(Enterable(View(), Pos(newX, newY)))
      ensures View() == if ok == 1 then old(Entered(View(), Pos(newX, newY))) else old(View())
    {
      SnapAt(tiles, Pos(newX, newY));
      if end == 1 {
        return 0;
      }
      if tiles[newY, newX] == 'C' {
        collectible := collectible - 1;
        SetTile(newX, newY, 'P');
        return 1;
      } else if tiles[newY, newX] == 'E' {
        if collectible == 0 {
          end := 1;
        }
        SetTile(newX, newY, 'P');
        return 1;
      } else if tiles[newY, newX] == '0' {
        SetTile(newX, newY, 'P');
        return 1;
      }
      return 0;
    }

    method MoveForward()
      requires OnMap(View())
      modifies this, tiles
      ensures View() == old(Moved(View(), Forward))
    {
      assert Adjacent(Pos(playerX, playerY), Pos(playerX, playerY - 1));
      var newY := playerY - 1;
      var x := playerX;
      if newY >= 0 {
        var ok := CanMove(x, newY);
        if ok == 1 {
          SetTile(x, newY + 1, '0');
          playerY := newY;
          movements := movements + 1;
        }
      }
    }

    method MoveBackward()
      requires OnMap(View())
      modifies this, tiles
      ensures View() == old(Moved(View(), Backward))
    {
      assert Adjacent(Pos(playerX, playerY), Pos(playerX, playerY + 1));
      var newY := playerY + 1;
      var x := playerX;
      if newY >= 0 {
        var ok := CanMove(x, newY);
        if ok == 1 {
          SetTile(x, newY - 1, '0');
          playerY := newY;
          movements := movements + 1;
        }
      }
    }

    method MoveLeft()
      requires OnMap(View())
      modifies this, tiles
      ensures View() == old(Moved(View(), Left))
    {
      assert Adjacent(Pos(playerX, playerY), Pos(playerX - 1, playerY));
      var y := playerY;
      var newX := playerX - 1;
      if newX >= 0 {
        var ok := CanMove(newX, y);
        if ok == 1 {
          SetTile(newX + 1, y, '0');
          playerX := newX;
          movements := movements + 1;
        }
      }
    }

    method MoveRight()
      requires OnMap(View())
      modifies this, tiles
      ensures View() == old(Moved(View(), Right))
    {
      assert Adjacent(Pos(playerX, playerY), Pos(playerX + 1, playerY));
      var y := playerY;
      var newX := playerX + 1;
      if newX >= 0 {
        var ok := CanMove(newX, y);
        if ok == 1 {
          SetTile(newX - 1, y, '0');
          playerX := newX;
          movements := movements + 1;
        }
      }
    }

    method RenderExit()
      requires InGrid(View().tiles, View().exit)
      modifies tiles
      ensures View() == old(View()).(tiles := Put(old(View()).tiles, View().exit, 'E'))
    {
      SetTile(exitX, exitY, 'E');
    }

    /** One key press keeps everything a game keeps: w, a, s and d make a step, escape leaves the
        process, for which `quit` stands, and no other key does anything. */
    method EventHandler(keycode: int, ghost g: Tiles) returns (code: int, quit: bool)
      requires Enclosed(g) && Playing(g, View())
      modifies this, tiles
      ensures Playing(g, View())
      ensures old(OnMap(View()))
      ensures keycode == 119 ==> View() == old(Stepped(View(), Forward))
      ensures keycode == 97 ==> View() == old(Stepped(View(), Left))
      ensures keycode == 115 ==> View() == old(Stepped(View(), Backward))
      ensures keycode == 100 ==> View() == old(Stepped(View(), Right))
      ensures keycode !in {119, 97, 115, 100} ==> View() == old(View())
      ensures quit <==> keycode == 65307
      ensures !quit ==> code == if keycode in {119, 97, 115, 100} then 1 else 0
    {
      hide Playing, Put, Moved;
      PlayingOnMap(g, View());
      ghost var s := View();
      if keycode == 65307 {
        return 0, true;
      } else if keycode == 119 {
        StepKeeps(g, s, Forward);
        MovedKeepsExit(s, Forward);
        MoveForward();
      } else if keycode == 97 {
        StepKeeps(g, s, Left);
        MovedKeepsExit(s, Left);
        MoveLeft();
      } else if keycode == 115 {
        StepKeeps(g, s, Backward);
        MovedKeepsExit(s, Backward);
        MoveBackward();
      } else if keycode == 100 {
        StepKeeps(g, s, Right);
        MovedKeepsExit(s, Right);
        MoveRight();
      } else {
        return 0, false;
      }
      if playerX != exitX || playerY != exitY {
        RenderExit();
      }
      return 1, false;
    }
  }
}

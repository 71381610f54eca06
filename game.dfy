/**
 * The game panel of src/PacMan.java as a class whose methods update its
 * fields, and the fields of its blocks, in place. Each method is proved to
 * leave the game in the state that the matching function of module
 * Simulation computes from the state before the call (`Snapshot()`).
 */
module PacManGame {
  import opened Options
  import opened Geometry
  import opened Board
  import opened Blocks
  import opened MapLoader
  import opened Simulation

  /** Whether `b` overlaps some wall: the validity test of `spawnCherry`, leaving at the first hit. */
  method OverlapsWall(b: Box, walls: seq<Box>) returns (hit: bool)
    ensures hit <==> HitsAny(b, walls)
  {
    hit := false;
    for i := 0 to |walls|
      invariant forall j :: 0 <= j < i ==> !Collision(b, walls[j])
    {
      var wall := walls[i];
      if b.x < wall.x + wall.width && b.x + b.width > wall.x && b.y < wall.y + wall.height && b.y + b.height > wall.y {
        hit := true;
        break;
      }
    }
  }

  class Game {
    /** The tile map the level is loaded from. */
    const grid: seq<string>
    /** The random source: the k-th draw of `nextInt(n)` is `rand(k) % n`. */
    const rand: nat -> nat
    /** How many draws have been made. */
    var draws: nat

    var walls: seq<Box>
    var foods: seq<Box>
    var ghosts: seq<Block>
    var pacman: Block?

    var cherry: Option<Box>
    var cherrySpawnTime: int
    var score: int
    var lives: int
    var gameOver: bool

    /** Pac-Man and the ghosts are distinct objects. */
    ghost predicate Distinct()
      reads this`pacman, this`ghosts
    {
      pacman !in ghosts && forall i, j :: 0 <= i < j < |ghosts| ==> ghosts[i] != ghosts[j]
    }

    ghost predicate Valid()
      reads this`pacman, this`ghosts
    {
      Playable(grid) && pacman != null && Distinct()
    }

    /** The whole game state as a value. */
    function Snapshot(): World
      reads this, pacman, ghosts
      requires pacman != null
    {
      World(grid, walls, foods, States(ghosts), pacman.State(), cherry, cherrySpawnTime,
            score, lives, gameOver, draws)
    }

    /** Walls, food, ghosts and Pac-Man are those of level `lv`. */
    ghost predicate Holds(lv: Level)
      reads this, ghosts, pacman
    {
      && walls == lv.walls && foods == lv.foods && States(ghosts) == lv.ghosts
      && (lv.player.Some? ==> pacman != null && pacman.State() == lv.player.value)
    }

    /**
     * Build the level from `tileMap` and send every ghost off in a random
     * direction. The game builds it from the built-in `TileMap`, which is
     * playable (`TileMapPlayable`).
     */
    constructor (tileMap: seq<string>, rand: nat -> nat)
      requires Playable(tileMap)
      ensures Valid() && grid == tileMap && this.rand == rand
      ensures Snapshot() == Started(grid, rand)
    {
      this.grid := tileMap;
      this.rand := rand;
      draws := 0;
      walls, foods, ghosts := [], [], [];
      pacman := null;
      cherry := None;
      cherrySpawnTime := 0;
      score, lives, gameOver := 0, 3, false;
      new;
      LoadPlayable(grid);
      LoadMap();
      ghost var lv := Load(grid);
      ghost var p := pacman.State();
      assert States(ghosts) == lv.ghosts && draws == 0;
      RedirectGhosts(false);
      ghost var gs := Redirected(lv.ghosts, lv.walls, rand, 0, 0, false);
      assert States(ghosts) == gs && draws == |lv.ghosts|;
      assert pacman.State() == p == lv.player.value;
      assert walls == lv.walls && foods == lv.foods;
      assert cherry == None && cherrySpawnTime == 0 && score == 0 && lives == 3 && !gameOver;
      assert Snapshot() == World(grid, lv.walls, lv.foods, gs, lv.player.value, None, 0, 0, 3, false, |lv.ghosts|);
    }

    /** `random.nextInt(bound)`. */
    method NextInt(bound: int) returns (n: int)
      requires bound > 0
      modifies this`draws
      ensures n == Roll(rand, old(draws), bound) && draws == old(draws) + 1
    {
      n := rand(draws) % bound;
      draws := draws + 1;
    }

    /** `loadMap`: rebuild walls, food and ghosts from the tile map and place Pac-Man. */
    method LoadMap()
      requires Rectangular(grid)
      modifies this`walls, this`foods, this`ghosts, this`pacman
      ensures Holds(Load(grid)) && Distinct()
      ensures forall i :: 0 <= i < |ghosts| ==> fresh(ghosts[i])
      ensures Load(grid).player.Some? ==> fresh(pacman)
      ensures Load(grid).player.None? ==> pacman == old(pacman)
    {
      walls, foods, ghosts := [], [], [];
      for r := 0 to RowCount
        invariant Holds(ParseUpTo(grid, r, 0)) && Distinct()
        invariant forall i :: 0 <= i < |ghosts| ==> fresh(ghosts[i])
        invariant ParseUpTo(grid, r, 0).player.Some? ==> fresh(pacman)
        invariant ParseUpTo(grid, r, 0).player.None? ==> pacman == old(pacman)
      {
        for c := 0 to ColumnCount
          invariant Holds(ParseUpTo(grid, r, c)) && Distinct()
          invariant forall i :: 0 <= i < |ghosts| ==> fresh(ghosts[i])
          invariant ParseUpTo(grid, r, c).player.Some? ==> fresh(pacman)
          invariant ParseUpTo(grid, r, c).player.None? ==> pacman == old(pacman)
        {
          LoadCell(r, c);
        }
      }
    }

    /** The body of the loops of `loadMap`: the entity for the character of cell (r, c). */
    method LoadCell(r: int, c: int)
      requires Rectangular(grid) && InGrid(r, c)
      requires Holds(ParseUpTo(grid, r, c)) && Distinct()
      modifies this`walls, this`foods, this`ghosts, this`pacman
      ensures Holds(ParseUpTo(grid, r, c + 1)) && Distinct()
      ensures |old(ghosts)| <= |ghosts| && ghosts[..|old(ghosts)|] == old(ghosts)
      ensures forall i :: |old(ghosts)| <= i < |ghosts| ==> fresh(ghosts[i])
      ensures grid[r][c] == 'P' ==> fresh(pacman)
      ensures grid[r][c] != 'P' ==> pacman == old(pacman)
    {
      var row := grid[r];
      var tileMapChar := row[c];
      var x := c * TileSize;
      var y := r * TileSize;
      if tileMapChar == 'X' {
        walls := walls + [Box(x, y, TileSize, TileSize)];
      } else if tileMapChar == 'b' || tileMapChar == 'o' || tileMapChar == 'p' || tileMapChar == 'r' {
        // the four ghosts differ only in their image
        var g := new Block(x, y, TileSize, TileSize);
        assert States(ghosts + [g]) == States(ghosts) + [g.State()];
        ghosts := ghosts + [g];
      } else if tileMapChar == 'P' {
        pacman := new Block(x, y, TileSize, TileSize);
      } else if tileMapChar == ' ' {
        foods := foods + [Box(x + 14, y + 14, 4, 4)];
      }
    }

    /** `resetPositions`: park Pac-Man on its start; reset each ghost and redirect it at random. */
    method ResetPositions()
      requires Valid()
      modifies this`draws, pacman, ghosts
      ensures Valid()
      ensures Snapshot() == PositionsReset(old(Snapshot()), rand)
    {
      ghost var w := Snapshot();
      pacman.Reset();
      pacman.velocityX := 0;
      pacman.velocityY := 0;
      ghost var p := pacman.State();
      assert States(ghosts) == w.ghosts;
      RedirectGhosts(true);
      assert pacman.State() == p == AtStart(w.pacman).(velocityX := 0, velocityY := 0);
      ghost var gs := Redirected(w.ghosts, w.walls, rand, w.draws, 0, true);
      assert Snapshot() == w.(pacman := p, ghosts := gs, draws := w.draws + |w.ghosts|);
    }

    /**
     * The loop over the ghosts in the constructor (`reset` false) and in
     * `resetPositions` (`reset` true): one draw per ghost, in order.
     */
    method RedirectGhosts(reset: bool)
      requires Distinct()
      modifies this`draws, ghosts
      ensures draws == old(draws) + |ghosts|
      ensures ghosts == old(ghosts) && pacman == old(pacman) && walls == old(walls) && foods == old(foods)
      ensures cherry == old(cherry) && cherrySpawnTime == old(cherrySpawnTime)
      ensures score == old(score) && lives == old(lives) && gameOver == old(gameOver)
      ensures States(ghosts) == Redirected(old(States(ghosts)), walls, rand, old(draws), 0, reset)
    {
      for i := 0 to |ghosts|
        invariant draws == old(draws) + i
        invariant Redirected(States(ghosts), walls, rand, draws, i, reset)
               == Redirected(old(States(ghosts)), walls, rand, old(draws), 0, reset)
      {
        RedirectGhost(i, reset);
      }
    }

    /** One ghost of that loop: back to its start if `reset`, then a turn to a random direction. */
    method RedirectGhost(i: nat, reset: bool)
      requires Distinct() && i < |ghosts|
      modifies this`draws, ghosts[i]
      ensures draws == old(draws) + 1
      ensures Redirected(States(ghosts), walls, rand, draws, i + 1, reset)
           == Redirected(old(States(ghosts)), walls, rand, old(draws), i, reset)
    {
      ghost var before := States(ghosts);
      var g := ghosts[i];
      if reset {
        g.Reset();
      }
      var n := NextInt(|Directions|);
      g.UpdateDirection(Directions[n], walls);
      StatesUpdated(ghosts, before, i);
    }

    /** Pac-Man's step in `move`: advance by its velocity, step back at the first wall it overlaps. */
    method MovePlayer()
      requires Valid()
      modifies pacman
      ensures Snapshot() == PlayerMoved(old(Snapshot()))
    {
      ghost var ghostStates := States(ghosts);
      pacman.x := pacman.x + pacman.velocityX;
      pacman.y := pacman.y + pacman.velocityY;
      for i := 0 to |walls|
        invariant pacman.State() == Moved(old(pacman.State()))
        invariant forall j :: 0 <= j < i ==> !Collision(pacman.Bounds(), walls[j])
      {
        if Collision(pacman.Bounds(), walls[i]) {
          pacman.x := pacman.x - pacman.velocityX;
          pacman.y := pacman.y - pacman.velocityY;
          break;
        }
      }
      assert States(ghosts) == ghostStates;
    }

    /** One ghost's move in `move`: forced turn, step, then the wall and edge loop. */
    method StepGhost(g: Block)
      modifies g, this`draws
      ensures (g.State(), draws) == GhostStepped(old(g.State()), walls, rand, old(draws))
    {
      ghost var start := g.State();
      if g.y == TileSize * ForcedTurnRow && g.direction != 'U' && g.direction != 'D' {
        g.UpdateDirection('U', walls);
      }
      assert g.State() == GhostTurned(start, walls);
      g.x := g.x + g.velocityX;
      g.y := g.y + g.velocityY;
      ghost var moved := g.State();
      ghost var k := draws;
      assert moved == Moved(GhostTurned(start, walls));
      for j := 0 to |walls|
        invariant GhostScan(g.State(), walls, rand, draws, j) == GhostScan(moved, walls, rand, k, 0)
      {
        ScanWall(g, j);
      }
    }

    /** One turn of the ghost's wall loop: a hit, or any wall while at an edge, redirects the ghost. */
    method ScanWall(g: Block, j: nat)
      requires j < |walls|
      modifies g, this`draws
      ensures GhostScan(g.State(), walls, rand, draws, j + 1) == GhostScan(old(g.State()), walls, rand, old(draws), j)
    {
      if Collision(g.Bounds(), walls[j]) || g.x <= 0 || g.x + g.width >= BoardWidth {
        Redirect(g);
      }
    }

    /** A ghost that hit something steps back and turns to a random direction. */
    method Redirect(g: Block)
      modifies g, this`draws
      ensures g.State() == Steered(MovedBack(old(g.State())), RandomDirection(rand, old(draws)), walls)
      ensures draws == old(draws) + 1
    {
      g.x := g.x - g.velocityX;
      g.y := g.y - g.velocityY;
      var n := NextInt(|Directions|);
      g.UpdateDirection(Directions[n], walls);
    }

    /** The ghost loop of `move`; the result says whether the game ended and the tick stopped. */
    method MoveGhosts() returns (halted: bool)
      requires Valid()
      modifies this`lives, this`gameOver, this`draws, pacman, ghosts
      ensures Valid()
      ensures (Snapshot(), halted) == GhostLoop(old(Snapshot()), rand, 0)
    {
      for i := 0 to |ghosts|
        invariant Valid()
        invariant GhostLoop(Snapshot(), rand, i) == GhostLoop(old(Snapshot()), rand, 0)
      {
        halted := VisitGhost(i);
        if halted {
          return;
        }
      }
      return false;
    }

    /** One turn of the ghost loop: the life check against Pac-Man, then the ghost's move. */
    method VisitGhost(i: nat) returns (halted: bool)
      requires Valid() && i < |ghosts|
      modifies this`lives, this`gameOver, this`draws, pacman, ghosts
      ensures Valid()
      ensures halted ==> (Snapshot(), true) == GhostLoop(old(Snapshot()), rand, i)
      ensures !halted ==> GhostLoop(Snapshot(), rand, i + 1) == GhostLoop(old(Snapshot()), rand, i)
    {
      halted := CheckCaught(i);
      if !halted {
        MoveGhost(i);
      }
    }

    /** The life check of the ghost loop: a ghost overlapping Pac-Man costs a life, the last one ends the game. */
    method CheckCaught(i: nat) returns (halted: bool)
      requires Valid() && i < |ghosts|
      modifies this`lives, this`gameOver, this`draws, pacman, ghosts
      ensures Valid()
      ensures (Snapshot(), halted) == Caught(old(Snapshot()), rand, i)
    {
      ghost var w := Snapshot();
      halted := false;
      if Collision(ghosts[i].Bounds(), pacman.Bounds()) {
        lives := lives - 1;
        if lives == 0 {
          gameOver := true;
          return true;
        }
        assert Snapshot() == w.(lives := lives);
        ResetPositions();
      }
    }

    /** Ghost i makes its move; the other ghosts stay where they are. */
    method MoveGhost(i: nat)
      requires Valid() && i < |ghosts|
      modifies this`draws, ghosts[i]
      ensures Snapshot() == GhostMoved(old(Snapshot()), rand, i)
    {
      ghost var before := States(ghosts);
      StepGhost(ghosts[i]);
      StatesUpdated(ghosts, before, i);
    }

    /** The food loop of `move`: 10 points per overlapping dot, then remove the last one seen. */
    method EatFood()
      requires Valid()
      modifies this`foods, this`score
      ensures Snapshot() == FoodEaten(old(Snapshot()))
    {
      var box := pacman.Bounds();
      var foodEaten := -1;
      for i := 0 to |foods|
        invariant foods == old(foods)
        invariant (foodEaten, score - old(score)) == FoodScan(box, foods, i)
      {
        if Collision(box, foods[i]) {
          foodEaten := i;
          score := score + FoodPoints;
        }
      }
      // removing "no dot" (-1) leaves the set as it is
      foods := Without(foods, foodEaten);
    }

    /** The cherry step of `move`: collect it on contact, otherwise let it expire. */
    method HandleCherry(now: int)
      requires Valid()
      modifies this`score, this`cherry
      ensures Snapshot() == CherryHandled(old(Snapshot()), now)
    {
      if cherry.Some? {
        if Collision(pacman.Bounds(), cherry.value) {
          score := score + CherryPoints;
          cherry := None;
        } else if now - cherrySpawnTime > CherryLifetime {
          cherry := None;
        }
      }
    }

    /** `spawnCherry`: sample cells until one overlaps no wall, at most MaxSpawnTries times. */
    method SpawnCherry(now: int)
      modifies this`cherry, this`cherrySpawnTime, this`draws
      ensures var (spot, k) := SpotSearch(walls, rand, old(draws), MaxSpawnTries);
              && draws == k
              && (spot.Some? ==> cherry == spot && cherrySpawnTime == now)
              && (spot.None? ==> cherry == old(cherry) && cherrySpawnTime == old(cherrySpawnTime))
    {
      var x, y := 0, 0;
      var valid := false;
      var tries := 0;
      while !valid && tries < MaxSpawnTries
        invariant tries <= MaxSpawnTries
        invariant cherry == old(cherry) && cherrySpawnTime == old(cherrySpawnTime)
        invariant !valid ==> SpotSearch(walls, rand, draws, MaxSpawnTries - tries)
                             == SpotSearch(walls, rand, old(draws), MaxSpawnTries)
        invariant valid ==> (Some(Box(x, y, TileSize, TileSize)), draws)
                            == SpotSearch(walls, rand, old(draws), MaxSpawnTries)
        decreases MaxSpawnTries - tries
      {
        var column := NextInt(ColumnCount);
        x := column * TileSize;
        var row := NextInt(RowCount);
        y := row * TileSize;
        tries := tries + 1;
        var hit := OverlapsWall(Box(x, y, TileSize, TileSize), walls);
        valid := !hit;
      }
      if valid {
        cherry := Some(Box(x, y, TileSize, TileSize));
        cherrySpawnTime := now;
      }
    }

    /** The spawn step of `move`: with no cherry present, one draw in 200 calls `spawnCherry`. */
    method MaybeSpawnCherry(now: int)
      requires Valid()
      modifies this`cherry, this`cherrySpawnTime, this`draws
      ensures Snapshot() == CherrySpawned(old(Snapshot()), rand, now)
    {
      if cherry.Some? {
        return;
      }
      ghost var gs, p := States(ghosts), pacman.State();
      var n := NextInt(CherryOdds);
      if n != 0 {
        assert States(ghosts) == gs && pacman.State() == p;
        return;
      }
      SpawnCherry(now);
      assert States(ghosts) == gs && pacman.State() == p;
    }

    /** `loadMap` followed by `resetPositions`, as both the refill and the restart do. */
    method Reload()
      requires Valid()
      modifies this`walls, this`foods, this`ghosts, this`pacman, this`draws
      ensures Valid() && fresh(pacman)
      ensures Snapshot() == PositionsReset(MapLoaded(old(Snapshot())), rand)
    {
      ghost var w := Snapshot();
      LoadPlayable(grid);
      LoadMap();
      ghost var lv := Load(grid);
      assert Snapshot() == MapLoaded(w);
      ResetPositions();
    }

    /** The last step of `move`: reload the map once every dot is eaten. */
    method Refill()
      requires Valid()
      modifies this`walls, this`foods, this`ghosts, this`pacman, this`draws
      ensures Valid()
      ensures Snapshot() == Refilled(old(Snapshot()), rand)
    {
      if |foods| == 0 {
        Reload();
      }
    }

    /** `move`: one tick of the game at time `now`. */
    method Move(now: int)
      requires Valid()
      modifies this, pacman, ghosts
      ensures Valid()
      ensures Snapshot() == Tick(old(Snapshot()), rand, now)
    {
      ghost var w0 := Snapshot();
      MovePlayer();
      ghost var w1 := Snapshot();
      assert w1 == PlayerMoved(w0);
      var halted := MoveGhosts();
      ghost var w2 := Snapshot();
      assert (w2, halted) == GhostLoop(w1, rand, 0);
      if halted {
        return;
      }
      EatFood();
      ghost var w3 := Snapshot();
      assert w3 == FoodEaten(w2);
      HandleCherry(now);
      ghost var w4 := Snapshot();
      assert w4 == CherryHandled(w3, now);
      MaybeSpawnCherry(now);
      ghost var w5 := Snapshot();
      assert w5 == CherrySpawned(w4, rand, now);
      Refill();
    }

    /** The restart of `keyReleased`: reload, reset, three lives and no score. */
    method Restart()
      requires Valid()
      modifies this`walls, this`foods, this`ghosts, this`pacman, this`draws, this`lives, this`score, this`gameOver
      ensures Valid() && fresh(pacman)
      ensures Snapshot() == Restarted(old(Snapshot()), rand)
    {
      Reload();
      lives := 3;
      score := 0;
      gameOver := false;
    }

    /** `keyReleased`: restart a finished game, then steer Pac-Man for an arrow key. */
    method KeyReleased(key: Key)
      requires Valid()
      modifies this, pacman, ghosts
      ensures Valid()
      ensures Snapshot() == Released(old(Snapshot()), key, rand)
    {
      ghost var w0 := Snapshot();
      if gameOver {
        Restart();
      }
      ghost var w1 := Snapshot();
      assert w1 == if w0.gameOver then Restarted(w0, rand) else w0;
      match key
      case ArrowUp => Steer('U');
      case ArrowDown => Steer('D');
      case ArrowLeft => Steer('L');
      case ArrowRight => Steer('R');
      case OtherKey =>
    }

    /** An arrow key: Pac-Man turns to `d` unless that step runs into a wall. */
    method Steer(d: char)
      requires Valid()
      modifies pacman
      ensures Snapshot() == old(Snapshot()).(pacman := Steered(old(pacman.State()), d, walls))
    {
      ghost var ghostStates := States(ghosts);
      pacman.UpdateDirection(d, walls);
      assert States(ghosts) == ghostStates;
    }
  }
}

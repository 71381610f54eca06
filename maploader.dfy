/**
 * What `loadMap` in src/PacMan.java builds from the tile map: walls, food
 * dots, ghosts and Pac-Man, each at the pixel position of its cell, collected
 * in row-major order.
 */
module MapLoader {
  import opened Options
  import opened Geometry
  import opened Board
  import opened Blocks

  /** The entities of one loaded level; `player` is absent when the grid has no 'P'. */
  datatype Level = Level(walls: seq<Box>, foods: seq<Box>, ghosts: seq<BlockState>, player: Option<BlockState>)

  /** How many walls, dots and ghosts a level holds. */
  function Count(lv: Level): nat {
    |lv.walls| + |lv.foods| + |lv.ghosts|
  }

  /** Whether (r, c) names a cell of the grid. */
  predicate InGrid(r: int, c: int) {
    0 <= r < RowCount && 0 <= c < ColumnCount
  }

  /** Whether cell (r1, c1) comes before cell (r2, c2) in row-major order. */
  predicate Before(r1: int, c1: int, r2: int, c2: int) {
    r1 < r2 || (r1 == r2 && c1 < c2)
  }

  /** A position the row-major walk of the grid can have reached: row r, column c still to visit. */
  predicate Reached(r: int, c: int) {
    (0 <= r < RowCount && 0 <= c <= ColumnCount) || (r == RowCount && c == 0)
  }

  /** The tile-sized wall of cell (r, c). */
  function WallAt(r: int, c: int): Box {
    Box(c * TileSize, r * TileSize, TileSize, TileSize)
  }

  /** The 4x4 food dot centred in cell (r, c). */
  function FoodAt(r: int, c: int): Box {
    Box(c * TileSize + 14, r * TileSize + 14, 4, 4)
  }

  /** A fresh tile-sized actor (ghost or Pac-Man) standing on cell (r, c). */
  function ActorAt(r: int, c: int): BlockState {
    NewBlock(c * TileSize, r * TileSize, TileSize, TileSize)
  }

  /** What one grid character adds to the level; 'O' and any other character add nothing. */
  function AddCell(lv: Level, ch: char, r: int, c: int): Level {
    if ch == 'X' then lv.(walls := lv.walls + [WallAt(r, c)])
    else if ch == 'b' || ch == 'o' || ch == 'p' || ch == 'r' then lv.(ghosts := lv.ghosts + [ActorAt(r, c)])
    else if ch == 'P' then lv.(player := Some(ActorAt(r, c)))
    else if ch == ' ' then lv.(foods := lv.foods + [FoodAt(r, c)])
    else lv
  }

  /** The level built from every cell before (r, c) in row-major order. */
  function ParseUpTo(grid: seq<string>, r: int, c: int): Level
    requires Rectangular(grid) && Reached(r, c)
    decreases r, c
  {
    if c > 0 then AddCell(ParseUpTo(grid, r, c - 1), grid[r][c - 1], r, c - 1)
    else if r == 0 then Level([], [], [], None)
    else ParseUpTo(grid, r - 1, ColumnCount)
  }

  /** The level built from the whole grid. */
  function Load(grid: seq<string>): Level
    requires Rectangular(grid)
  {
    ParseUpTo(grid, RowCount, 0)
  }

  /** A cell adds at most one wall, dot or ghost, and only a 'P' cell places Pac-Man. */
  lemma AddCellAddsAtMostOne(lv: Level, ch: char, r: int, c: int)
    ensures var next := AddCell(lv, ch, r, c);
            && Count(next) <= Count(lv) + 1
            && (next.player == lv.player || (ch == 'P' && next.player == Some(ActorAt(r, c))))
  {
  }

  /** The walk adds at most one wall, dot or ghost per cell it has visited. */
  lemma {:induction false} ParseUpToCount(grid: seq<string>, r: int, c: int)
    requires Rectangular(grid) && Reached(r, c)
    ensures Count(ParseUpTo(grid, r, c)) <= r * ColumnCount + c
    decreases r, c
  {
    if c > 0 {
      ParseUpToCount(grid, r, c - 1);
      AddCellAddsAtMostOne(ParseUpTo(grid, r, c - 1), grid[r][c - 1], r, c - 1);
    } else if r > 0 {
      ParseUpToCount(grid, r - 1, ColumnCount);
    }
  }

  /** A loaded level holds at most one wall, dot or ghost per cell of the grid. */
  lemma LoadCount(grid: seq<string>)
    requires Rectangular(grid)
    ensures Count(Load(grid)) <= RowCount * ColumnCount
  {
    ParseUpToCount(grid, RowCount, 0);
  }

  predicate IsGhostChar(ch: char) {
    ch == 'b' || ch == 'o' || ch == 'p' || ch == 'r'
  }

  /** Walls of a partial walk: exactly one per 'X' cell already visited, each at its cell. */
  lemma {:induction false} WallsUpTo(grid: seq<string>, r: int, c: int)
    requires Rectangular(grid) && Reached(r, c)
    ensures var ws := ParseUpTo(grid, r, c).walls;
            && (forall r1, c1 :: InGrid(r1, c1) ==>
                  (WallAt(r1, c1) in ws <==> Before(r1, c1, r, c) && grid[r1][c1] == 'X'))
            && (forall i :: 0 <= i < |ws| ==>
                  exists r1, c1 :: InGrid(r1, c1) && Before(r1, c1, r, c) && ws[i] == WallAt(r1, c1))
            && (forall i, j :: 0 <= i < j < |ws| ==> ws[i] != ws[j])
  {
    if c > 0 {
      WallsUpTo(grid, r, c - 1);
    } else if r > 0 {
      WallsUpTo(grid, r - 1, ColumnCount);
    }
  }

  /** Food dots of a partial walk: exactly one per ' ' cell already visited, centred in it. */
  lemma {:induction false} FoodsUpTo(grid: seq<string>, r: int, c: int)
    requires Rectangular(grid) && Reached(r, c)
    ensures var fs := ParseUpTo(grid, r, c).foods;
            && (forall r1, c1 :: InGrid(r1, c1) ==>
                  (FoodAt(r1, c1) in fs <==> Before(r1, c1, r, c) && grid[r1][c1] == ' '))
            && (forall i :: 0 <= i < |fs| ==>
                  exists r1, c1 :: InGrid(r1, c1) && Before(r1, c1, r, c) && fs[i] == FoodAt(r1, c1))
            && (forall i, j :: 0 <= i < j < |fs| ==> fs[i] != fs[j])
  {
    if c > 0 {
      FoodsUpTo(grid, r, c - 1);
    } else if r > 0 {
      FoodsUpTo(grid, r - 1, ColumnCount);
    }
  }

  /** Ghosts of a partial walk: exactly one per 'b', 'o', 'p' or 'r' cell already visited. */
  lemma {:induction false} GhostsUpTo(grid: seq<string>, r: int, c: int)
    requires Rectangular(grid) && Reached(r, c)
    ensures var gs := ParseUpTo(grid, r, c).ghosts;
            && (forall r1, c1 :: InGrid(r1, c1) ==>
                  (ActorAt(r1, c1) in gs <==> Before(r1, c1, r, c) && IsGhostChar(grid[r1][c1])))
            && (forall i :: 0 <= i < |gs| ==>
                  exists r1, c1 :: InGrid(r1, c1) && Before(r1, c1, r, c) && gs[i] == ActorAt(r1, c1))
            && (forall i, j :: 0 <= i < j < |gs| ==> gs[i] != gs[j])
  {
    if c > 0 {
      GhostsUpTo(grid, r, c - 1);
    } else if r > 0 {
      GhostsUpTo(grid, r - 1, ColumnCount);
    }
  }

  /** Pac-Man of a partial walk: present once a 'P' cell was visited, and standing on one. */
  lemma {:induction false} PlayerUpTo(grid: seq<string>, r: int, c: int)
    requires Rectangular(grid) && Reached(r, c)
    ensures var p := ParseUpTo(grid, r, c).player;
            && (p.Some? <==> exists r1, c1 :: InGrid(r1, c1) && Before(r1, c1, r, c) && grid[r1][c1] == 'P')
            && (p.Some? ==> exists r1, c1 :: InGrid(r1, c1) && Before(r1, c1, r, c) && grid[r1][c1] == 'P'
                                             && p.value == ActorAt(r1, c1))
  {
    if c > 0 {
      PlayerUpTo(grid, r, c - 1);
    } else if r > 0 {
      PlayerUpTo(grid, r - 1, ColumnCount);
    }
  }

  /**
   * The loaded level: one 32x32 wall per 'X' cell at (c*32, r*32), one 4x4
   * food dot per ' ' cell at (c*32+14, r*32+14), one 32x32 ghost per 'b', 'o',
   * 'p' or 'r' cell, Pac-Man on a 'P' cell when there is one, and nothing
   * for any other character.
   */
  lemma LoadPlacesEntities(grid: seq<string>)
    requires Rectangular(grid)
    ensures var lv := Load(grid);
            && (forall r, c :: InGrid(r, c) ==> (WallAt(r, c) in lv.walls <==> grid[r][c] == 'X'))
            && (forall r, c :: InGrid(r, c) ==> (FoodAt(r, c) in lv.foods <==> grid[r][c] == ' '))
            && (forall r, c :: InGrid(r, c) ==> (ActorAt(r, c) in lv.ghosts <==> IsGhostChar(grid[r][c])))
            && (forall i :: 0 <= i < |lv.walls| ==> exists r, c :: InGrid(r, c) && lv.walls[i] == WallAt(r, c))
            && (forall i :: 0 <= i < |lv.foods| ==> exists r, c :: InGrid(r, c) && lv.foods[i] == FoodAt(r, c))
            && (forall i :: 0 <= i < |lv.ghosts| ==> exists r, c :: InGrid(r, c) && lv.ghosts[i] == ActorAt(r, c))
            && (forall i, j :: 0 <= i < j < |lv.walls| ==> lv.walls[i] != lv.walls[j])
            && (forall i, j :: 0 <= i < j < |lv.foods| ==> lv.foods[i] != lv.foods[j])
            && (forall i, j :: 0 <= i < j < |lv.ghosts| ==> lv.ghosts[i] != lv.ghosts[j])
            && (lv.player.Some? <==> exists r, c :: InGrid(r, c) && grid[r][c] == 'P')
            && (lv.player.Some? ==> exists r, c :: InGrid(r, c) && grid[r][c] == 'P' && lv.player.value == ActorAt(r, c))
  {
    WallsUpTo(grid, RowCount, 0);
    FoodsUpTo(grid, RowCount, 0);
    GhostsUpTo(grid, RowCount, 0);
    PlayerUpTo(grid, RowCount, 0);
  }

  /** A playable grid loads a Pac-Man and at least one food dot. */
  lemma LoadPlayable(grid: seq<string>)
    requires Playable(grid)
    ensures Load(grid).player.Some? && |Load(grid).foods| > 0
  {
    LoadPlacesEntities(grid);
    var r, c :| InGrid(r, c) && grid[r][c] == ' ';
    assert FoodAt(r, c) in Load(grid).foods;
  }
}

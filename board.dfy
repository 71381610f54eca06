/**
 * The fixed board configuration of the game: grid size, tile size, the
 * per-tick step and the tile map the level is loaded from.
 */
module Board {

  /** Number of rows and columns of the grid, and the size of one tile in pixels. */
  const RowCount: int := 21
  const ColumnCount: int := 19
  const TileSize: int := 32
  const BoardWidth: int := ColumnCount * TileSize
  const BoardHeight: int := RowCount * TileSize

  /** Distance a block travels per tick: a quarter of a tile. */
  const Step: int := TileSize / 4

  /** The four headings, in the order a random draw in [0, 4) picks them. */
  const Directions: string := "UDLR"

  /** The row on which a ghost heading sideways is turned upwards. */
  const ForcedTurnRow: int := 9

  /**
   * The level layout. 'X' is a wall, ' ' a food dot, 'P' Pac-Man,
   * 'b', 'o', 'p', 'r' the four ghosts and 'O' an empty cell.
   */
  const TileMap: seq<string> := [
    "XXXXXXXXXXXXXXXXXXX",
    "X        X        X",
    "X XX XXX X XXX XX X",
    "X                 X",
    "X XX X XXXXX X XX X",
    "X    X       X    X",
    "XXXX XXXX XXXX XXXX",
    "OOOX X       X XOOO",
    "XXXX X XXrXX X XXXX",
    "O       bpo       O",
    "XXXX X XXXXX X XXXX",
    "OOOX X       X XOOO",
    "XXXX X XXXXX X XXXX",
    "X        X        X",
    "X XX XXX X XXX XX X",
    "X  X     P     X  X",
    "XX X X XXXXX X X XX",
    "X    X   X   X    X",
    "X XXXXXX X XXXXXX X",
    "X                 X",
    "XXXXXXXXXXXXXXXXXXX"
  ]

  /** A grid that the loader can walk: RowCount rows of ColumnCount characters. */
  predicate Rectangular(grid: seq<string>) {
    |grid| == RowCount && forall r :: 0 <= r < |grid| ==> |grid[r]| == ColumnCount
  }

  /** A grid is playable when it is rectangular and holds a Pac-Man cell and a food cell. */
  predicate Playable(grid: seq<string>) {
    && Rectangular(grid)
    && (exists r, c :: 0 <= r < RowCount && 0 <= c < ColumnCount && grid[r][c] == 'P')
    && (exists r, c :: 0 <= r < RowCount && 0 <= c < ColumnCount && grid[r][c] == ' ')
  }

  /** The built-in level is playable. */
  lemma TileMapPlayable()
    ensures Playable(TileMap)
  {
    forall r | 0 <= r < |TileMap| ensures |TileMap[r]| == ColumnCount {
      if r < 10 {
        assert r in {0, 1, 2, 3, 4, 5, 6, 7, 8, 9};
      } else {
        assert r in {10, 11, 12, 13, 14, 15, 16, 17, 18, 19, 20};
      }
    }
    assert TileMap[15][9] == 'P';
    assert TileMap[1][1] == ' ';
  }
}

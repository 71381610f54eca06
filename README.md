# Pac-Man game logic in Dafny

This project models the game logic of the Swing Pac-Man game in
`src/PacMan.java` and proves properties of it. The model covers:

- the `Block` class: its constructor, `updateDirection`, `updateVelocity` and `reset`;
- the overlap test `collision`;
- the level loader `loadMap`;
- one tick of the game loop (`move`), with `resetPositions` and `spawnCherry`;
- the state logic of `keyReleased`.

The model has two layers:

- **Imperative layer.** The classes `Blocks.Block` and `PacManGame.Game` hold the same fields as the source, and their methods update them in place, loop for loop.
- **Specification layer.** Module `Simulation` describes the whole game as a value, `World`. It has one pure function per step of the game:
  - `PlayerMoved`, `GhostLoop`, `FoodEaten`, `CherryHandled`, `CherrySpawned` and `Refilled`, which `Tick` chains together;
  - `PositionsReset`, `MapLoaded`, `Restarted`, `Released` and `Started`.

Each method of `Game` is proved to leave the game in the state its function computes from the state before the call (`Snapshot()`). The lemmas then state what those functions guarantee.

Three inputs are explicit:

- **Randomness.** `rand` is a tape: the k-th call of `random.nextInt(n)` returns `rand(k) % n`, and the counter `draws` records how many calls have been made.
- **Time.** The clock is the `now` parameter of `Move`.
- **Iteration order.** The source keeps walls, food and ghosts in hash sets. Here they are sequences, iterated in order. The model fixes one iteration order; the source's order is whatever the hash set yields. Four outcomes depend on this order:
  - which dot the food loop removes (the last overlapping one);
  - which ghost receives which random draw;
  - which wall the ghost and `updateDirection` scans meet first;
  - which ghosts have already moved when a caught ghost resets the positions. The reset sends every ghost back to its start, so the moves of the ghosts visited earlier in that tick are lost and are not made again; the ghosts visited later move on from their start.

Some quirks of the source are modelled as written:

- The life check comes before each ghost's move, and the game ends only when `lives` reaches exactly 0.
- The ghost wall loop has no `break`, and it re-tests the board edges once per wall, making one random draw per hit.
- The food loop scores every dot Pac-Man overlaps but removes only the last one.
- A blocked turn recomputes the velocity from the old direction instead of restoring it. So a Pac-Man at rest starts moving: see `Blocks.SteerBlockedSetsStillBlockMoving`.
- A restart keeps a cherry that is on the board.

## Model

| member | source | states |
|---|---|---|
| Geometry.CollisionSymmetric | src/PacMan.java:350-355 | the overlap test is symmetric |
| Geometry.TouchingBoxesDoNotCollide | src/PacMan.java:350-355 | boxes that only share an edge do not collide (strict inequalities) |
| Geometry.CollisionIffSharedPixel | src/PacMan.java:350-355 | for boxes of positive size, collision holds exactly when some pixel lies in both boxes |
| Board.TileMapPlayable | src/PacMan.java:98-120 | the built-in tile map has 21 rows of 19 characters, a Pac-Man cell and a food cell |
| Blocks.Velocity | src/PacMan.java:54-68 | 'U', 'D', 'L', 'R' give a velocity of a quarter tile on exactly one axis (never diagonal, never zero), with the sign of the direction; any other character keeps the velocity |
| Blocks.Block.UpdateVelocity | src/PacMan.java:54-68 | the block's new velocity is the one `Velocity` gives for its direction; nothing else changes |
| Blocks.Block.constructor | src/PacMan.java:25-33 | a new block stands on its start position, facing 'U', at rest |
| Blocks.Block.Reset | src/PacMan.java:71-74 | the block is moved back to its start; direction and velocity are kept |
| Blocks.Block.UpdateDirection | src/PacMan.java:36-51 | turning, stepping and the wall loop (an undo for every wall overlapped, no break) leave the block as `Steered` says |
| Blocks.RevertScan | src/PacMan.java:43-50 | defines the wall loop of `updateDirection` (an undo for every wall overlapped); its contract is only the side fact that size and start position are kept, and `RevertScanPrefix` states what the loop does |
| Blocks.Steered | src/PacMan.java:36-51 | defines `updateDirection` as turn, step and wall loop; its contract is only the side fact that size and start position are kept, and `SteerAllOrNothing` states what the turn does |
| Blocks.RevertScanPrefix | src/PacMan.java:43-50 | for a block that starts clear of every wall, the wall loop undoes the step exactly once if the stepped block overlaps some wall, and not at all otherwise |
| Blocks.SteerAllOrNothing | src/PacMan.java:36-51 | for a block clear of every wall: if the stepped box overlaps no wall, the block ends one step further on with the new direction and velocity; otherwise it keeps its position and direction, and its velocity is recomputed from the old direction |
| Blocks.SteerBlockedRestores | src/PacMan.java:36-51 | a blocked turn of a block whose velocity matches its direction changes nothing |
| Blocks.SteerBlockedSetsStillBlockMoving | src/PacMan.java:45-48 | a blocked turn of a block at rest keeps its position and direction but gives it the non-zero velocity of its old direction |
| Blocks.SteerStaysClear | src/PacMan.java:36-51 | a block clear of every wall is still clear after `updateDirection` |
| MapLoader.WallsUpTo | src/PacMan.java:185-187 | after the row-major walk reaches a cell, the walls are exactly one 32x32 box per 'X' cell already visited, without duplicates |
| MapLoader.FoodsUpTo | src/PacMan.java:202-204 | after the walk reaches a cell, the food dots are exactly one 4x4 box centred in each ' ' cell already visited, without duplicates |
| MapLoader.GhostsUpTo | src/PacMan.java:188-199 | after the walk reaches a cell, there is exactly one 32x32 ghost, at rest on its cell, per 'b', 'o', 'p' or 'r' cell already visited, without duplicates |
| MapLoader.PlayerUpTo | src/PacMan.java:200-201 | after the walk reaches a cell, Pac-Man is present exactly when a 'P' cell has been visited, and stands on one |
| MapLoader.AddCellAddsAtMostOne | src/PacMan.java:184-205 | `AddCell`, one cell of the walk, adds at most one wall, dot or ghost, and only a 'P' cell moves Pac-Man (onto that cell) |
| MapLoader.ParseUpToCount | src/PacMan.java:176-207 | `ParseUpTo`, the row-major walk up to a cell, holds at most one wall, dot or ghost per visited cell |
| MapLoader.LoadCount | src/PacMan.java:170-208 | `Load` holds at most 21 x 19 walls, dots and ghosts |
| MapLoader.LoadPlacesEntities | src/PacMan.java:170-208 | the loaded level has a wall at (c*32, r*32) exactly for each 'X', a dot at (c*32+14, r*32+14) exactly for each ' ', a ghost exactly for each ghost letter, Pac-Man on a 'P' cell when there is one, and nothing else |
| MapLoader.LoadPlayable | src/PacMan.java:170-208 | a playable grid loads Pac-Man and at least one food dot |
| PacManGame.Game.LoadMap | src/PacMan.java:170-208 | the two loops rebuild walls, food and ghosts as the level `Load` describes, with fresh, pairwise distinct ghost and Pac-Man objects |
| PacManGame.Game.LoadCell | src/PacMan.java:178-205 | one cell adds the entity its character calls for, and leaves the earlier entities in place |
| Simulation.Roll | src/PacMan.java:331-332 | a draw of `nextInt(bound)` lies in [0, bound) |
| Simulation.RandomDirection | src/PacMan.java:288 | a random heading is one of 'U', 'D', 'L', 'R' |
| PacManGame.Game.NextInt | src/PacMan.java:331-332 | `nextInt` returns the next draw of the tape and consumes it |
| Simulation.Redirected | src/PacMan.java:362-366 | defines the ghost loop of `resetPositions` and of the constructor; its contract is only the side fact that the number of ghosts is kept, and `RedirectedEach` states what the loop does |
| Simulation.RedirectedEach | src/PacMan.java:362-366 | that loop sends ghost j off from its own state with draw k + j, and leaves the ghosts before its starting point alone |
| Simulation.PositionsReset | src/PacMan.java:358-367 | `resetPositions` parks Pac-Man (start position, zero velocity) keeping its size, start and heading, makes one draw per ghost, and touches nothing else |
| Simulation.PositionsResetGhosts | src/PacMan.java:362-366 | after `resetPositions`, ghost i is where a turn from its start with draw `draws + i` leaves it |
| PacManGame.Game.ResetPositions | src/PacMan.java:358-367 | the method leaves the game as `PositionsReset` says |
| PacManGame.Game.RedirectGhosts | src/PacMan.java:362-366 | the loop over the ghosts leaves them as `Redirected` says, consumes one draw per ghost, and changes no other field |
| PacManGame.Game.RedirectGhost | src/PacMan.java:363-365 | one turn of that loop takes the loop from ghost i to ghost i + 1 |
| Simulation.PlayerMoved | src/PacMan.java:254-264 | only Pac-Man changes, and it either takes its whole step or stays where it was |
| Simulation.PlayerMovedStaysClear | src/PacMan.java:254-264 | Pac-Man's step is taken whole or rolled back whole, only Pac-Man changes, and a Pac-Man clear of every wall stays clear |
| PacManGame.Game.MovePlayer | src/PacMan.java:254-264 | stepping and then stepping back at the first wall hit (the loop breaks) leaves Pac-Man as `PlayerMoved` says: rolled back exactly when the stepped box overlaps some wall |
| Simulation.GhostScan | src/PacMan.java:284-291 | defines the ghost wall loop; its contract is only the side facts that it makes at most one draw per remaining wall and keeps the ghost's size and start position, and `GhostScanClear` and `GhostScanHit` state what the loop does |
| Simulation.GhostScanClear | src/PacMan.java:284-291 | a ghost away from the edges that overlaps none of the remaining walls is left as it is, and no draw is made |
| Simulation.GhostScanHit | src/PacMan.java:281-291 | a ghost that steps from a clear spot into a wall (not at an edge) is stepped back and turned with the next draw at the first wall it overlaps; if that turn leaves it away from the edges, it stays there and exactly one draw is made |
| Simulation.GhostTurned | src/PacMan.java:277-280 | the forced upward turn on row 9 of a ghost heading sideways keeps the ghost's size and start position; `GhostTurnedUp` and `GhostTurnedOnlyOnRow` state when and how it turns |
| Simulation.GhostTurnedUp | src/PacMan.java:277-280 | on row 9 a ghost heading left or right, clear of every wall, is turned upwards: one step up with heading 'U' when that step hits no wall, otherwise it keeps its position and heading |
| Simulation.GhostTurnedOnlyOnRow | src/PacMan.java:277-280 | off row 9, or already heading up or down, a ghost is not turned |
| Simulation.GhostStepped | src/PacMan.java:277-291 | a ghost's move (forced turn, step, wall loop) keeps its size and start position and makes at most one draw per wall |
| PacManGame.Game.StepGhost | src/PacMan.java:277-291 | forced turn, step and wall loop leave the ghost and the draw counter as `GhostStepped` says |
| PacManGame.Game.ScanWall | src/PacMan.java:285-290 | one wall of the ghost's wall loop takes the loop from wall j to wall j + 1 |
| PacManGame.Game.Redirect | src/PacMan.java:286-289 | a redirect steps the ghost back and turns it to the next random heading, consuming one draw |
| Simulation.Caught | src/PacMan.java:268-275 | the life check keeps the grid and the number of ghosts, and never rewinds the draw count |
| Simulation.GhostMoved | src/PacMan.java:277-291 | moving ghost i changes only the ghosts and the draw count, keeps the number of ghosts, and never rewinds the draw count |
| Simulation.GhostLoop | src/PacMan.java:267-292 | the ghost loop from ghost i on keeps the grid and the number of ghosts, and never rewinds the draw count |
| Simulation.GhostTurn | src/PacMan.java:268-291 | ghost i's turn of that loop, followed by the rest of it, keeps the grid and the number of ghosts, and never rewinds the draw count |
| Simulation.CaughtOutcomes | src/PacMan.java:268-275 | no contact changes nothing; contact on the last life sets lives to 0 and gameOver, stops the tick, and changes nothing else; contact with lives to spare costs one life, parks Pac-Man (same size, start and heading) and sends every ghost off from its start |
| Simulation.GhostLoopKeeps | src/PacMan.java:267-292 | the ghost loop leaves map, food, score and cherry alone; it costs at most one life per ghost; a stopped loop has set gameOver with no lives left; a completed loop keeps the flag and, starting with a life, keeps at least one |
| PacManGame.Game.MoveGhosts | src/PacMan.java:267-292 | the loop over the ghosts leaves the game as `GhostLoop` says, and reports whether it stopped the tick |
| PacManGame.Game.VisitGhost | src/PacMan.java:268-291 | one ghost's turn either ends the loop with the state `GhostLoop` gives, or takes the loop on to the next ghost |
| PacManGame.Game.CheckCaught | src/PacMan.java:268-275 | the life check leaves the game as `Caught` says |
| PacManGame.Game.MoveGhost | src/PacMan.java:277-291 | ghost i moves as `GhostStepped` says; the other ghosts stay where they are |
| Simulation.FoodScan | src/PacMan.java:296-301 | the food loop reports -1 or the index of a dot it has seen |
| Simulation.FoodScanScores | src/PacMan.java:296-301 | the food loop scores exactly 10 per overlapping dot, and reports the last overlapping dot, or -1 exactly when there is none |
| Simulation.FoodEaten | src/PacMan.java:295-302 | the food step changes only the food and the score, and never adds a dot |
| Simulation.FoodEatenEffect | src/PacMan.java:295-302 | the food step raises the score by 10 x (dots overlapped) and removes exactly the last overlapped dot; when none is overlapped the game is unchanged; only food and score change |
| Simulation.FoodEatenRemovesAtMostOne | src/PacMan.java:295-302 | at most one dot is removed, and one is removed exactly when Pac-Man overlaps some dot |
| PacManGame.Game.EatFood | src/PacMan.java:295-302 | the food loop and the removal leave food and score as `FoodEaten` says |
| Simulation.CherryHandled | src/PacMan.java:305-312 | the cherry step changes only the cherry and the score; it never lowers the score, and it either keeps the cherry or removes it |
| Simulation.CherryHandledOutcomes | src/PacMan.java:305-312 | a cherry Pac-Man touches is collected for 100 points; an untouched one disappears exactly when more than 5000 ms have passed since its spawn; nothing else changes |
| PacManGame.Game.HandleCherry | src/PacMan.java:305-312 | the cherry step leaves the game as `CherryHandled` says |
| Simulation.SpotSearch | src/PacMan.java:330-344 | the search makes an even number of draws, at most two per allowed sample |
| Simulation.SpotSearchSamples | src/PacMan.java:330-344 | each sample takes two draws, a column then a row: a spot the search returns is its last sample, clear of every wall; it fails only after using every allowed sample, the last one on a wall |
| Simulation.SpotSearchEarlierSampleHits | src/PacMan.java:330-344 | every sample drawn before the last one overlaps a wall, so together with `SpotSearchSamples` the search stops at the first clear sample |
| Simulation.SpotSearchFindsSpot | src/PacMan.java:330-345 | a spot the search finds is a 32x32 tile, aligned to the grid, inside the board, that overlaps no wall |
| PacManGame.OverlapsWall | src/PacMan.java:335-343 | the validity loop of `spawnCherry` reports a hit exactly when the box overlaps some wall |
| PacManGame.Game.SpawnCherry | src/PacMan.java:327-347 | the sampling loop places the cherry where the search finds a spot, stamped with `now`, and consumes the search's draws |
| Simulation.CherryPlaced | src/PacMan.java:327-347 | `spawnCherry` changes only the cherry, its spawn time and the draw count; it never rewinds the draw count, and a cherry it places is stamped with `now` |
| Simulation.CherrySpawned | src/PacMan.java:314-317 | the spawn step changes only the cherry, its spawn time and the draw count; it never rewinds the draw count, and it only places a cherry where none was, stamped with `now` |
| Simulation.CherrySpawnedOnSpot | src/PacMan.java:314-317 | a cherry is only added where none is, after a zero draw out of 200, on a valid spot, stamped with `now`; a non-zero draw consumes one draw and changes nothing else |
| PacManGame.Game.MaybeSpawnCherry | src/PacMan.java:314-317 | the spawn step leaves the game as `CherrySpawned` says |
| Simulation.Refilled | src/PacMan.java:319-323 | the refill step changes only walls, food, ghosts, Pac-Man and the draw count, and never rewinds the draw count |
| Simulation.MapLoaded | src/PacMan.java:170-208 | `loadMap` replaces walls, food, ghosts and Pac-Man, and touches no other field |
| Simulation.RefilledRestocks | src/PacMan.java:319-323 | with food left nothing happens; with none left every dot of the level is restocked and Pac-Man is parked; score, lives, flag and cherry are kept |
| PacManGame.Game.Reload | src/PacMan.java:321-322 | `loadMap` followed by `resetPositions` leaves the game as `PositionsReset(MapLoaded(...))` says, with a fresh Pac-Man |
| PacManGame.Game.Refill | src/PacMan.java:319-323 | the refill step leaves the game as `Refilled` says |
| Simulation.Tick | src/PacMan.java:252-324 | one tick chains Pac-Man's step, the ghost loop (which may end the tick), food, cherry, spawn and refill; it keeps the grid and never rewinds the draw count |
| Simulation.TickLives | src/PacMan.java:252-324 | one tick costs at most one life per ghost and never lowers the score; a tick that ends the game leaves no lives and keeps food, score and cherry; otherwise the flag is kept and a game with a life keeps one |
| Simulation.AfterGhostsKeeps | src/PacMan.java:294-323 | the food, cherry and refill steps keep lives and the flag, and never lower the score |
| PacManGame.Game.Move | src/PacMan.java:252-324 | one call of `move` leaves the game as `Tick` says |
| Simulation.Restarted | src/PacMan.java:391-398 | the restart keeps the grid and the cherry, parks Pac-Man, and makes one draw per ghost of the reloaded level |
| Simulation.Released | src/PacMan.java:390-408 | the handler keeps the grid; while the game runs it changes nothing but Pac-Man |
| Simulation.ReleasedRestarts | src/PacMan.java:391-398 | a key released after the game ended gives three lives, score 0, the flag cleared, and the walls and food of a fresh level; with no arrow key Pac-Man is the level's fresh Pac-Man on its 'P' cell, at rest |
| Simulation.ReleasedSteers | src/PacMan.java:400-408 | while the game runs, an arrow only turns Pac-Man (keeping it clear of walls if it was), and any other key changes nothing |
| PacManGame.Game.Restart | src/PacMan.java:391-398 | the restart leaves the game as `Restarted` says |
| PacManGame.Game.KeyReleased | src/PacMan.java:390-408 | the handler leaves the game as `Released` says |
| PacManGame.Game.Steer | src/PacMan.java:400-408 | an arrow applies `updateDirection` to Pac-Man only |
| Simulation.Started | src/PacMan.java:140-167 | a new game holds the given grid and no cherry, and has made exactly one draw per ghost |
| Simulation.StartedState | src/PacMan.java:140-167 | a new game holds the loaded level, three lives, score 0, no cherry, and one draw made per ghost |
| Simulation.StartedGhosts | src/PacMan.java:158-163 | at the start, ghost j has been turned from its cell with draw j |
| Simulation.RedirectedFromStart | src/PacMan.java:160-163 | the constructor's loop turns ghost j from where it stands with draw j |
| PacManGame.Game.constructor | src/PacMan.java:140-167 | the constructor leaves the game as `Started` says |

## Left out

- Rendering is not modelled: `paintComponent`, `draw` (src/PacMan.java:211-249), fonts and the score text.
- Images are not modelled: `ImageIcon` loading (src/PacMan.java:147-156), the `image` field of `Block`, and the facing-image update at the end of `keyReleased` (src/PacMan.java:410-419). They are cosmetic foreign calls, so the four ghost letters load identical ghosts.
- The Swing `Timer` is not modelled: `actionPerformed` (src/PacMan.java:372-378), `gameLoop.start()` in the constructor and in the restart, and `gameLoop.stop()`. One call of `Move` is one tick, and a tick that sets `gameOver` ends the game's ticks.
- `keyTyped`, `keyPressed` and `KeyEvent` decoding are not modelled. A released key is the value `Key`.
- `src/App.java` builds the window and is not part of this model.
- `java.util.Random` is the tape `rand`, and `System.currentTimeMillis()` is the parameter `now`.
- Hash-set iteration order is sequence order. `foods.remove(foodEaten)` removes the dot at the found index. Removing "no dot" leaves the food unchanged, as `remove(null)` does.
- Walls, food dots and the cherry never move after they are created, so they are values (`Box`) instead of `Block` objects.
- The constructor takes the tile map as a parameter. The game passes the built-in `TileMap`, which `Board.TileMapPlayable` shows to be playable.
- PacManGame.Game.SpawnCherry: the source's `do-while` samples until it finds a free tile, with no bound. The model gives up after `RowCount * ColumnCount` samples and then places no cherry in that tick. On the built-in map a free tile exists, so the source loop ends with probability 1, but not within any fixed number of draws.
- Simulation.TickLives: the model proves at most one life lost per ghost in a tick, not at most one per tick. On the built-in map a reset puts the ghosts back in their pen, far from Pac-Man's start, so no second ghost can reach Pac-Man in the same tick. That bound depends on the map's geometry and is not proved here.
- `move` reads the clock twice: once for the cherry's expiry (src/PacMan.java:309) and once for the new cherry's spawn time (src/PacMan.java:346). The model uses one `now` for both reads, so time does not pass within a tick.
- Integers are unbounded. Java's 32-bit `int` wrap-around of the score, and the `long` spawn time, are not modelled.

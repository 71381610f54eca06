/**
 * The game state of src/PacMan.java as one value, `World`, and the pure
 * functions that say what each step of the game does to it: one tick of
 * `move`, `resetPositions`, reloading the map, spawning the cherry and the
 * state logic of `keyReleased`. The class `Game` (game.dfy) performs these
 * steps in place and is proved to agree with them; the lemmas here state
 * what the steps guarantee.
 *
 * Randomness is a tape: the k-th call of `nextInt(n)` returns `tape(k) % n`,
 * and `draws` counts the calls made so far. The time is a parameter `now`.
 * The source's hash sets are sequences, iterated in order.
 */
module Simulation {
  import opened Options
  import opened Geometry
  import opened Board
  import opened Blocks
  import opened MapLoader

  /** Points for one food dot and for the cherry; how long a cherry stays, in milliseconds. */
  const FoodPoints: int := 10
  const CherryPoints: int := 100
  const CherryLifetime: int := 5000

  /** One draw in 200 spawns a cherry. */
  const CherryOdds: int := 200

  /** How many cells the cherry search samples before it gives up for this tick. */
  const MaxSpawnTries: nat := RowCount * ColumnCount

  /** Everything the game holds between two events. */
  datatype World = World(
    grid: seq<string>,
    walls: seq<Box>,
    foods: seq<Box>,
    ghosts: seq<BlockState>,
    pacman: BlockState,
    cherry: Option<Box>,
    cherrySpawnTime: int,
    score: int,
    lives: int,
    gameOver: bool,
    draws: nat)

  /** The result of the k-th draw of `nextInt(bound)`. */
  function Roll(tape: nat -> nat, k: nat, bound: int): (n: int)
    requires bound > 0
    ensures 0 <= n < bound
  {
    tape(k) % bound
  }

  /** The heading picked by the k-th draw of `directions[nextInt(4)]`. */
  function RandomDirection(tape: nat -> nat, k: nat): (d: char)
    ensures d in Directions
  {
    Directions[Roll(tape, k, |Directions|)]
  }

  /** A block standing on its start position with zero velocity. */
  predicate Parked(b: BlockState) {
    b.x == b.startX && b.y == b.startY && b.velocityX == 0 && b.velocityY == 0
  }

  // ---------------------------------------------------------------------------
  // resetPositions and loadMap

  /**
   * One ghost sent off with the k-th draw: put back on its start first when
   * `reset` holds (as `resetPositions` does), then turned to the drawn heading.
   */
  function Launched(g: BlockState, walls: seq<Box>, tape: nat -> nat, k: nat, reset: bool): BlockState {
    Steered(if reset then AtStart(g) else g, RandomDirection(tape, k), walls)
  }

  /**
   * The loop over the ghosts from ghost i on, as `resetPositions` and the
   * constructor run it: ghost i is sent off with draw k, the next ghost with
   * draw k + 1, and so on; ghosts before i are left as they are.
   */
  function Redirected(gs: seq<BlockState>, walls: seq<Box>, tape: nat -> nat, k: nat, i: nat, reset: bool)
    : (r: seq<BlockState>)
    requires i <= |gs|
    ensures |r| == |gs|
    decreases |gs| - i, 1
  {
    if i == |gs| then gs else RedirectedAt(gs, walls, tape, k, i, reset)
  }

  /** Ghost i's turn of that loop, followed by the rest of it. */
  function RedirectedAt(gs: seq<BlockState>, walls: seq<Box>, tape: nat -> nat, k: nat, i: nat, reset: bool)
    : (r: seq<BlockState>)
    requires i < |gs|
    ensures |r| == |gs|
    decreases |gs| - i, 0
  {
    Redirected(gs[i := Launched(gs[i], walls, tape, k, reset)], walls, tape, k + 1, i + 1, reset)
  }

  /** Ghost j of the loop from ghost i on receives draw k + (j - i) and is launched from its own state; earlier ghosts are untouched. */
  lemma {:induction false} RedirectedEach(gs: seq<BlockState>, walls: seq<Box>, tape: nat -> nat, k: nat, i: nat, reset: bool)
    requires i <= |gs|
    ensures var r := Redirected(gs, walls, tape, k, i, reset);
            && (forall j :: i <= j < |gs| ==> r[j] == Launched(gs[j], walls, tape, k + (j - i), reset))
            && (forall j :: 0 <= j < i ==> r[j] == gs[j])
    decreases |gs| - i
  {
    if i < |gs| {
      var hs := gs[i := Launched(gs[i], walls, tape, k, reset)];
      RedirectedEach(hs, walls, tape, k + 1, i + 1, reset);
      assert Redirected(gs, walls, tape, k, i, reset) == Redirected(hs, walls, tape, k + 1, i + 1, reset);
    }
  }

  /** `resetPositions`: Pac-Man parked on its start, every ghost reset and redirected. */
  function PositionsReset(w: World, tape: nat -> nat): (r: World)
    ensures Parked(r.pacman) && |r.ghosts| == |w.ghosts| && r.draws == w.draws + |w.ghosts|
    ensures SameShape(r.pacman, w.pacman) && r.pacman.direction == w.pacman.direction
    ensures r == w.(pacman := r.pacman, ghosts := r.ghosts, draws := r.draws)
  {
    var gs := Redirected(w.ghosts, w.walls, tape, w.draws, 0, true);
    w.(pacman := AtStart(w.pacman).(velocityX := 0, velocityY := 0), ghosts := gs, draws := w.draws + |w.ghosts|)
  }

  /** After `resetPositions` ghost i stands where a turn from its start with draw w.draws + i leaves it. */
  lemma PositionsResetGhosts(w: World, tape: nat -> nat)
    ensures var r := PositionsReset(w, tape);
            forall i :: 0 <= i < |w.ghosts| ==>
              r.ghosts[i] == Steered(AtStart(w.ghosts[i]), RandomDirection(tape, w.draws + i), w.walls)
  {
    RedirectedEach(w.ghosts, w.walls, tape, w.draws, 0, true);
  }

  /** `loadMap`: new walls, food and ghosts from the grid; Pac-Man replaced when the grid has one. */
  function MapLoaded(w: World): (r: World)
    requires Rectangular(w.grid)
    ensures r == w.(walls := r.walls, foods := r.foods, ghosts := r.ghosts, pacman := r.pacman)
  {
    var lv := Load(w.grid);
    w.(walls := lv.walls, foods := lv.foods, ghosts := lv.ghosts,
       pacman := if lv.player.Some? then lv.player.value else w.pacman)
  }

  // ---------------------------------------------------------------------------
  // move: Pac-Man

  /** Pac-Man takes one step with its velocity; a step into any wall is taken back. */
  function PlayerMoved(w: World): (r: World)
    ensures r == w.(pacman := r.pacman) && (r.pacman == Moved(w.pacman) || r.pacman == w.pacman)
  {
    var s := Moved(w.pacman);
    if HitsAny(s.Bounds(), w.walls) then w else w.(pacman := s)
  }

  /** Pac-Man's step is taken whole or not at all, so a Pac-Man clear of every wall stays clear. */
  lemma PlayerMovedStaysClear(w: World)
    ensures var r := PlayerMoved(w);
            && r == w.(pacman := r.pacman)
            && (r.pacman == Moved(w.pacman) || r.pacman == w.pacman)
            && (!HitsAny(w.pacman.Bounds(), w.walls) ==> !HitsAny(r.pacman.Bounds(), w.walls))
  {
  }

  // ---------------------------------------------------------------------------
  // move: ghosts

  /** The forced turn: a ghost on the forced-turn row heading neither up nor down tries to turn up. */
  function GhostTurned(g: BlockState, walls: seq<Box>): (r: BlockState)
    ensures SameShape(r, g)
  {
    if g.y == TileSize * ForcedTurnRow && g.direction != 'U' && g.direction != 'D'
    then Steered(g, 'U', walls)
    else g
  }
  /**
   * On row 9 a ghost heading sideways and clear of every wall is turned upwards:
   * it moves one step up with heading 'U' when that step is free, and otherwise
   * keeps its position and heading.
   */
  lemma GhostTurnedUp(g: BlockState, walls: seq<Box>)
    requires !HitsAny(g.Bounds(), walls) && g.y == TileSize * ForcedTurnRow && g.direction in "LR"
    ensures var s := Attempted(g, 'U');
            var r := GhostTurned(g, walls);
            && (!HitsAny(s.Bounds(), walls) ==> r == s && r.direction == 'U' && r.x == g.x && r.y == g.y - Step)
            && (HitsAny(s.Bounds(), walls) ==> r.x == g.x && r.y == g.y && r.direction == g.direction)
  {
    SteerAllOrNothing(g, 'U', walls);
  }

  /** Off row 9, or already heading up or down, a ghost is not turned. */
  lemma GhostTurnedOnlyOnRow(g: BlockState, walls: seq<Box>)
    requires g.y != TileSize * ForcedTurnRow || g.direction in "UD"
    ensures GhostTurned(g, walls) == g
  {
  }


  /** Whether a ghost at `g` is outside the open band between the board's left and right edges. */
  predicate AtEdge(g: BlockState) {
    g.x <= 0 || g.x + g.width >= BoardWidth
  }

  /**
   * The ghost's wall loop from wall j on, the next draw being k: each wall
   * it overlaps at that point, or any wall at all while it is at an edge,
   * takes the step back and redirects it with one random draw (the loop has
   * no break). The result is the ghost and the next draw after the loop.
   */
  function GhostScan(g: BlockState, walls: seq<Box>, tape: nat -> nat, k: nat, j: nat): (r: (BlockState, nat))
    requires j <= |walls|
    ensures k <= r.1 <= k + (|walls| - j)
    ensures SameShape(r.0, g)
    decreases |walls| - j, 1
  {
    if j == |walls| then (g, k) else GhostScanAt(g, walls, tape, k, j)
  }

  /** Wall j's turn of that loop, followed by the rest of it. */
  function GhostScanAt(g: BlockState, walls: seq<Box>, tape: nat -> nat, k: nat, j: nat): (r: (BlockState, nat))
    requires j < |walls|
    ensures k <= r.1 <= k + (|walls| - j)
    ensures SameShape(r.0, g)
    decreases |walls| - j, 0
  {
    if Collision(g.Bounds(), walls[j]) || AtEdge(g)
    then GhostScan(Steered(MovedBack(g), RandomDirection(tape, k), walls), walls, tape, k + 1, j + 1)
    else GhostScan(g, walls, tape, k, j + 1)
  }

  /** A ghost clear of the edges that overlaps none of the remaining walls is left where it is, and no draw is made. */
  lemma {:induction false} GhostScanClear(g: BlockState, walls: seq<Box>, tape: nat -> nat, k: nat, j: nat)
    requires j <= |walls| && !AtEdge(g)
    requires forall l :: j <= l < |walls| ==> !Collision(g.Bounds(), walls[l])
    ensures GhostScan(g, walls, tape, k, j) == (g, k)
    decreases |walls| - j
  {
    if j < |walls| {
      GhostScanClear(g, walls, tape, k, j + 1);
    }
  }

  /**
   * A ghost that moved from a clear spot into a wall (and not past an edge) is put back and turned
   * by the first wall it overlaps, using one draw; when the turn lands clear of the edges, the
   * remaining walls leave it there.
   */
  lemma {:induction false} GhostScanHit(g0: BlockState, walls: seq<Box>, tape: nat -> nat, k: nat, j: nat)
    requires j <= |walls| && !HitsAny(g0.Bounds(), walls) && !AtEdge(Moved(g0))
    requires forall l :: 0 <= l < j ==> !Collision(Moved(g0).Bounds(), walls[l])
    requires HitsAny(Moved(g0).Bounds(), walls)
    requires !AtEdge(Steered(g0, RandomDirection(tape, k), walls))
    ensures GhostScan(Moved(g0), walls, tape, k, j) == (Steered(g0, RandomDirection(tape, k), walls), k + 1)
    decreases |walls| - j
  {
    var d := RandomDirection(tape, k);
    if j == |walls| {
      assert false;
    } else if Collision(Moved(g0).Bounds(), walls[j]) {
      assert MovedBack(Moved(g0)) == g0;
      SteerStaysClear(g0, d, walls);
      GhostScanClear(Steered(g0, d, walls), walls, tape, k + 1, j + 1);
    } else {
      GhostScanHit(g0, walls, tape, k, j + 1);
    }
  }

  /** One ghost's move: forced turn, one step, then the wall and edge loop. */
  function GhostStepped(g: BlockState, walls: seq<Box>, tape: nat -> nat, k: nat): (r: (BlockState, nat))
    ensures SameShape(r.0, g) && k <= r.1 <= k + |walls|
  {
    GhostScan(Moved(GhostTurned(g, walls)), walls, tape, k, 0)
  }

  /**
   * The life check of the ghost loop, for ghost i: if the ghost overlaps
   * Pac-Man a life is lost; reaching exactly zero ends the game and the tick
   * (the flag is true), otherwise positions are reset.
   */
  function Caught(w: World, tape: nat -> nat, i: nat): (r: (World, bool))
    requires i < |w.ghosts|
    ensures |r.0.ghosts| == |w.ghosts| && r.0.grid == w.grid && r.0.draws >= w.draws
  {
    if !Collision(w.ghosts[i].Bounds(), w.pacman.Bounds()) then (w, false)
    else if w.lives - 1 == 0 then (w.(lives := 0, gameOver := true), true)
    else (PositionsReset(w.(lives := w.lives - 1), tape), false)
  }

  /** Ghost i makes its move, the rest of the world staying as it is. */
  function GhostMoved(w: World, tape: nat -> nat, i: nat): (r: World)
    requires i < |w.ghosts|
    ensures |r.ghosts| == |w.ghosts| && r == w.(ghosts := r.ghosts, draws := r.draws) && r.draws >= w.draws
  {
    var (g, k) := GhostStepped(w.ghosts[i], w.walls, tape, w.draws);
    w.(ghosts := w.ghosts[i := g], draws := k)
  }

  /**
   * The three outcomes of the life check: no contact changes nothing; contact
   * with the last life ends the game and the tick and touches nothing else;
   * contact with lives to spare costs one life, parks Pac-Man and sends each
   * ghost j off from its start with draw draws + j.
   */
  lemma CaughtOutcomes(w: World, tape: nat -> nat, i: nat)
    requires i < |w.ghosts|
    ensures var (r, halted) := Caught(w, tape, i);
            var contact := Collision(w.ghosts[i].Bounds(), w.pacman.Bounds());
            && (!contact ==> r == w && !halted)
            && (contact && w.lives == 1 ==> halted && r == w.(lives := 0, gameOver := true))
            && (contact && w.lives != 1 ==>
                  && !halted && r.lives == w.lives - 1 && Parked(r.pacman)
                  && SameShape(r.pacman, w.pacman) && r.pacman.direction == w.pacman.direction
                  && r.draws == w.draws + |w.ghosts| && |r.ghosts| == |w.ghosts|
                  && (forall j :: 0 <= j < |w.ghosts| ==>
                        r.ghosts[j] == Steered(AtStart(w.ghosts[j]), RandomDirection(tape, w.draws + j), w.walls))
                  && r == w.(lives := r.lives, pacman := r.pacman, ghosts := r.ghosts, draws := r.draws))
  {
    PositionsResetGhosts(w.(lives := w.lives - 1), tape);
  }

  /** The ghost loop from ghost i on; the flag says whether the game ended and the tick stopped. */
  function GhostLoop(w: World, tape: nat -> nat, i: nat): (r: (World, bool))
    requires i <= |w.ghosts|
    ensures |r.0.ghosts| == |w.ghosts| && r.0.grid == w.grid && r.0.draws >= w.draws
    decreases |w.ghosts| - i, 1
  {
    if i == |w.ghosts| then (w, false) else GhostTurn(w, tape, i)
  }

  /** Ghost i's turn of the loop, the life check and then (unless the game ended) its move, and the rest of the loop. */
  function GhostTurn(w: World, tape: nat -> nat, i: nat): (r: (World, bool))
    requires i < |w.ghosts|
    ensures |r.0.ghosts| == |w.ghosts| && r.0.grid == w.grid && r.0.draws >= w.draws
    decreases |w.ghosts| - i, 0
  {
    var (w1, halted) := Caught(w, tape, i);
    if halted then (w1, true) else GhostLoop(GhostMoved(w1, tape, i), tape, i + 1)
  }

  /**
   * What the ghost loop from ghost i on does to the game: the map, food,
   * score and cherry are untouched; each remaining ghost costs at most one
   * life; a stopped loop has ended the game with no lives left, and a loop
   * that runs to the end leaves the game-over flag alone and, starting with a
   * life, still has one.
   */
  lemma {:induction false} GhostLoopKeeps(w: World, tape: nat -> nat, i: nat)
    requires i <= |w.ghosts|
    ensures var (v, halted) := GhostLoop(w, tape, i);
            && v.grid == w.grid && v.walls == w.walls && v.foods == w.foods && v.score == w.score
            && v.cherry == w.cherry && v.cherrySpawnTime == w.cherrySpawnTime
            && |v.ghosts| == |w.ghosts| && v.draws >= w.draws
            && (halted ==> v.gameOver && v.lives == 0)
            && (!halted ==> v.gameOver == w.gameOver)
            && w.lives - (|w.ghosts| - i) <= v.lives <= w.lives
            && (w.lives >= 1 && !halted ==> v.lives >= 1)
    decreases |w.ghosts| - i
  {
    if i < |w.ghosts| {
      var (w1, halted) := Caught(w, tape, i);
      if !halted {
        GhostLoopKeeps(GhostMoved(w1, tape, i), tape, i + 1);
      }
    }
  }

  // ---------------------------------------------------------------------------
  // move: food, cherry, refill

  /**
   * The food loop over the first n dots: the index of the last dot Pac-Man's
   * box overlaps (-1 if none) and 10 points for every overlapping dot.
   */
  function FoodScan(p: Box, foods: seq<Box>, n: nat): (r: (int, int))
    requires n <= |foods|
    ensures -1 <= r.0 < n
    decreases n
  {
    if n == 0 then (-1, 0)
    else
      var (eaten, points) := FoodScan(p, foods, n - 1);
      if Collision(p, foods[n - 1]) then (n - 1, points + FoodPoints) else (eaten, points)
  }

  /** The indices, below n, of the dots that `p` overlaps. */
  ghost function Hits(p: Box, foods: seq<Box>, n: nat): set<int>
    requires n <= |foods|
  {
    set j | 0 <= j < n && Collision(p, foods[j])
  }

  /**
   * The food loop scores 10 points for every dot it overlaps, and reports the
   * last of them, or -1 exactly when there is none.
   */
  lemma {:induction false} FoodScanScores(p: Box, foods: seq<Box>, n: nat)
    requires n <= |foods|
    ensures var (eaten, points) := FoodScan(p, foods, n);
            && points == FoodPoints * |Hits(p, foods, n)|
            && (eaten == -1 <==> Hits(p, foods, n) == {})
            && (eaten != -1 ==> eaten in Hits(p, foods, n) && forall j :: j in Hits(p, foods, n) ==> j <= eaten)
  {
    if n > 0 {
      FoodScanScores(p, foods, n - 1);
      if Collision(p, foods[n - 1]) {
        assert Hits(p, foods, n) == Hits(p, foods, n - 1) + {n - 1};
        assert n - 1 !in Hits(p, foods, n - 1);
      } else {
        assert Hits(p, foods, n) == Hits(p, foods, n - 1);
      }
    }
  }

  /** `s` without its element at index i; unchanged when i is not an index. */
  function Without(s: seq<Box>, i: int): seq<Box> {
    if 0 <= i < |s| then s[..i] + s[i + 1..] else s
  }

  /** The food step of `move`: score every overlapping dot, remove the last one seen. */
  function FoodEaten(w: World): (r: World)
    ensures r == w.(foods := r.foods, score := r.score) && |r.foods| <= |w.foods|
  {
    var (eaten, points) := FoodScan(w.pacman.Bounds(), w.foods, |w.foods|);
    w.(foods := Without(w.foods, eaten), score := w.score + points)
  }

  /**
   * The food step scores 10 points per dot Pac-Man overlaps but removes only
   * one of them, the last in iteration order; when it overlaps none, nothing
   * changes. Nothing but the food and the score is touched.
   */
  lemma FoodEatenEffect(w: World)
    ensures var r := FoodEaten(w);
            var hits := Hits(w.pacman.Bounds(), w.foods, |w.foods|);
            && r == w.(foods := r.foods, score := r.score)
            && r.score == w.score + FoodPoints * |hits|
            && (hits == {} ==> r == w)
            && (hits != {} ==> exists j :: j in hits && (forall l :: l in hits ==> l <= j)
                                           && r.foods == w.foods[..j] + w.foods[j + 1..])
  {
    FoodScanScores(w.pacman.Bounds(), w.foods, |w.foods|);
  }

  /** A food step removes at most one dot. */
  lemma FoodEatenRemovesAtMostOne(w: World)
    ensures |w.foods| - 1 <= |FoodEaten(w).foods| <= |w.foods|
    ensures |FoodEaten(w).foods| == |w.foods| - 1 <==> Hits(w.pacman.Bounds(), w.foods, |w.foods|) != {}
  {
    FoodScanScores(w.pacman.Bounds(), w.foods, |w.foods|);
  }

  /** The cherry step of `move`: collected on contact, otherwise expired after its lifetime. */
  function CherryHandled(w: World, now: int): (r: World)
    ensures r == w.(cherry := r.cherry, score := r.score) && r.score >= w.score
    ensures r.cherry.None? || r.cherry == w.cherry
  {
    match w.cherry
    case None => w
    case Some(c) =>
      if Collision(w.pacman.Bounds(), c) then w.(score := w.score + CherryPoints, cherry := None)
      else if now - w.cherrySpawnTime > CherryLifetime then w.(cherry := None)
      else w
  }

  /**
   * A cherry Pac-Man touches is collected for 100 points; one it does not touch
   * disappears once more than 5000 ms have passed since it was spawned, and
   * stays otherwise. Without a cherry nothing happens.
   */
  lemma CherryHandledOutcomes(w: World, now: int)
    ensures var r := CherryHandled(w, now);
            && r == w.(cherry := r.cherry, score := r.score)
            && (w.cherry.None? ==> r == w)
            && (w.cherry.Some? && Collision(w.pacman.Bounds(), w.cherry.value) ==>
                  r.cherry.None? && r.score == w.score + CherryPoints)
            && (w.cherry.Some? && !Collision(w.pacman.Bounds(), w.cherry.value) ==>
                  r.score == w.score
                  && (r.cherry.None? <==> now - w.cherrySpawnTime > CherryLifetime)
                  && (r.cherry.Some? ==> r.cherry == w.cherry))
  {
  }

  /** A place the cherry may appear: a whole tile of the grid that overlaps no wall. */
  predicate CherrySpot(b: Box, walls: seq<Box>) {
    && b.width == TileSize && b.height == TileSize
    && b.x % TileSize == 0 && b.y % TileSize == 0
    && 0 <= b.x < BoardWidth && 0 <= b.y < BoardHeight
    && !HitsAny(b, walls)
  }

  /** The tile sampled by the two draws just before draw k: a column, then a row. */
  function LastSample(tape: nat -> nat, k: nat): Box
    requires k >= 2
  {
    Box(Roll(tape, k - 2, ColumnCount) * TileSize, Roll(tape, k - 1, RowCount) * TileSize, TileSize, TileSize)
  }

  /**
   * The cherry search from draw k with `tries` samples left: each sample draws
   * a column, then a row, and is kept if the tile there overlaps no wall.
   */
  function SpotSearch(walls: seq<Box>, tape: nat -> nat, k: nat, tries: nat): (r: (Option<Box>, nat))
    ensures k <= r.1 <= k + 2 * tries && (r.1 - k) % 2 == 0
    decreases tries
  {
    if tries == 0 then (None, k)
    else
      var spot := LastSample(tape, k + 2);
      if !HitsAny(spot, walls) then (Some(spot), k + 2)
      else SpotSearch(walls, tape, k + 2, tries - 1)
  }
  /**
   * Each sample of the search takes two draws: it stops at the first sample
   * clear of every wall, which is the cherry spot, and fails only after
   * using every sample, the last of which hit a wall.
   */
  lemma {:induction false} SpotSearchSamples(walls: seq<Box>, tape: nat -> nat, k: nat, tries: nat)
    ensures var r := SpotSearch(walls, tape, k, tries);
            && (r.0.None? <==> r.1 == k + 2 * tries && (tries == 0 || HitsAny(LastSample(tape, r.1), walls)))
            && (r.0.Some? ==> r.1 >= k + 2 && r.0.value == LastSample(tape, r.1) && !HitsAny(r.0.value, walls))
    decreases tries
  {
    if tries > 0 && HitsAny(LastSample(tape, k + 2), walls) {
      SpotSearchSamples(walls, tape, k + 2, tries - 1);
    }
  }

  /**
   * Every sample the search draws before its last one overlaps a wall (sample t
   * takes draws k + 2t - 2 and k + 2t - 1), so the search stops at the first
   * clear sample.
   */
  lemma {:induction false} SpotSearchEarlierSampleHits(walls: seq<Box>, tape: nat -> nat, k: nat, tries: nat, t: nat)
    requires 1 <= t && k + 2 * t < SpotSearch(walls, tape, k, tries).1
    ensures HitsAny(LastSample(tape, k + 2 * t), walls)
    decreases tries
  {
    assert tries > 0 && HitsAny(LastSample(tape, k + 2), walls);
    if t > 1 {
      assert k + 2 * t == (k + 2) + 2 * (t - 1);
      SpotSearchEarlierSampleHits(walls, tape, k + 2, tries - 1, t - 1);
    }
  }


  /** A spot the search lands on is a whole grid tile that overlaps no wall. */
  lemma {:induction false} SpotSearchFindsSpot(walls: seq<Box>, tape: nat -> nat, k: nat, tries: nat)
    ensures var r := SpotSearch(walls, tape, k, tries);
            r.0.Some? ==> CherrySpot(r.0.value, walls)
    decreases tries
  {
    if tries > 0 {
      SpotSearchFindsSpot(walls, tape, k + 2, tries - 1);
    }
  }

  /** `spawnCherry`: the cherry placed where the search lands, stamped with `now`; nothing placed if it gives up. */
  function CherryPlaced(w: World, tape: nat -> nat, now: int): (r: World)
    ensures r == w.(cherry := r.cherry, cherrySpawnTime := r.cherrySpawnTime, draws := r.draws)
    ensures w.draws <= r.draws
    ensures r.cherry != w.cherry ==> r.cherry.Some? && r.cherrySpawnTime == now
  {
    var (spot, k) := SpotSearch(w.walls, tape, w.draws, MaxSpawnTries);
    if spot.Some? then w.(cherry := spot, cherrySpawnTime := now, draws := k)
    else w.(draws := k)
  }

  /** The spawn step of `move`: with no cherry present, one draw in 200 starts the search. */
  function CherrySpawned(w: World, tape: nat -> nat, now: int): (r: World)
    ensures r == w.(cherry := r.cherry, cherrySpawnTime := r.cherrySpawnTime, draws := r.draws)
    ensures w.draws <= r.draws && (r.cherry != w.cherry ==> w.cherry.None? && r.cherrySpawnTime == now)
  {
    if w.cherry.Some? then w
    else if Roll(tape, w.draws, CherryOdds) != 0 then w.(draws := w.draws + 1)
    else CherryPlaced(w.(draws := w.draws + 1), tape, now)
  }

  /**
   * The spawn step only ever adds a cherry where none is, after a zero draw
   * out of 200, and then on a whole grid tile clear of every wall, stamped with
   * `now`; it touches nothing else but the draw count.
   */
  lemma CherrySpawnedOnSpot(w: World, tape: nat -> nat, now: int)
    ensures var r := CherrySpawned(w, tape, now);
            && r == w.(cherry := r.cherry, cherrySpawnTime := r.cherrySpawnTime, draws := r.draws)
            && (w.cherry.Some? ==> r == w)
            && (w.cherry.None? && r.cherry.Some? ==>
                  && Roll(tape, w.draws, CherryOdds) == 0
                  && CherrySpot(r.cherry.value, w.walls) && r.cherrySpawnTime == now)
            && (w.cherry.None? && Roll(tape, w.draws, CherryOdds) != 0 ==> r == w.(draws := w.draws + 1))
  {
    SpotSearchFindsSpot(w.walls, tape, w.draws + 1, MaxSpawnTries);
  }

  /** The last step of `move`: once every dot is eaten the map is reloaded and positions reset. */
  function Refilled(w: World, tape: nat -> nat): (r: World)
    requires Rectangular(w.grid)
    ensures r == w.(walls := r.walls, foods := r.foods, ghosts := r.ghosts, pacman := r.pacman, draws := r.draws)
    ensures r.draws >= w.draws
  {
    if w.foods == [] then PositionsReset(MapLoaded(w), tape) else w
  }

  /**
   * With food left the last step does nothing; with none left it restocks
   * every food dot of the level, parks Pac-Man, and keeps the score, the
   * lives and the cherry.
   */
  lemma RefilledRestocks(w: World, tape: nat -> nat)
    requires Playable(w.grid)
    ensures var r := Refilled(w, tape);
            && (w.foods != [] ==> r == w)
            && (w.foods == [] ==>
                  && r.foods == Load(w.grid).foods && r.foods != [] && r.walls == Load(w.grid).walls
                  && Load(w.grid).player.Some? && Parked(r.pacman)
                  && r.pacman.startX == Load(w.grid).player.value.startX
                  && r.pacman.startY == Load(w.grid).player.value.startY
                  && r.score == w.score && r.lives == w.lives && r.gameOver == w.gameOver
                  && r.cherry == w.cherry)
  {
    LoadPlayable(w.grid);
  }

  /** One call of `move` at time `now`. */
  function Tick(w: World, tape: nat -> nat, now: int): (r: World)
    requires Rectangular(w.grid)
    ensures r.grid == w.grid && r.draws >= w.draws
  {
    GhostLoopKeeps(PlayerMoved(w), tape, 0);
    var (w1, halted) := GhostLoop(PlayerMoved(w), tape, 0);
    if halted then w1
    else Refilled(CherrySpawned(CherryHandled(FoodEaten(w1), now), tape, now), tape)
  }

  /**
   * One tick as the life rules see it: each ghost costs at most one life; a
   * tick that ends the game leaves no lives and stops before the food, cherry
   * and refill steps, so food, score and cherry are as before; otherwise the
   * game-over flag is unchanged and a game with a life keeps one. The score
   * never decreases.
   */
  lemma TickLives(w: World, tape: nat -> nat, now: int)
    requires Rectangular(w.grid)
    ensures var r := Tick(w, tape, now);
            var (v, halted) := GhostLoop(PlayerMoved(w), tape, 0);
            && w.lives - |w.ghosts| <= r.lives <= w.lives
            && r.score >= w.score
            && (halted ==> r == v && r.gameOver && r.lives == 0
                           && r.foods == w.foods && r.score == w.score && r.cherry == w.cherry)
            && (!halted ==> r.gameOver == w.gameOver && (w.lives >= 1 ==> r.lives >= 1))
  {
    var w0 := PlayerMoved(w);
    GhostLoopKeeps(w0, tape, 0);
    var (v, halted) := GhostLoop(w0, tape, 0);
    if !halted {
      AfterGhostsKeeps(v, tape, now);
    }
  }

  /** The steps of a tick after the ghost loop keep the lives and the game-over flag and never lower the score. */
  lemma AfterGhostsKeeps(v: World, tape: nat -> nat, now: int)
    requires Rectangular(v.grid)
    ensures var r := Refilled(CherrySpawned(CherryHandled(FoodEaten(v), now), tape, now), tape);
            r.lives == v.lives && r.gameOver == v.gameOver && r.score >= v.score
  {
    FoodScanScores(v.pacman.Bounds(), v.foods, |v.foods|);
    var v1 := FoodEaten(v);
    assert v1.score >= v.score && v1.lives == v.lives && v1.gameOver == v.gameOver && v1.grid == v.grid;
    var v2 := CherryHandled(v1, now);
    assert v2.score >= v1.score && v2.lives == v1.lives && v2.gameOver == v1.gameOver && v2.grid == v1.grid;
    var v3 := CherrySpawned(v2, tape, now);
    assert v3.score == v2.score && v3.lives == v2.lives && v3.gameOver == v2.gameOver && v3.grid == v2.grid;
  }

  // ---------------------------------------------------------------------------
  // keyReleased and the constructor

  /** The keys the game reacts to. */
  datatype Key = ArrowUp | ArrowDown | ArrowLeft | ArrowRight | OtherKey

  /** The heading an arrow key asks for. */
  function KeyDirection(key: Key): Option<char> {
    match key
    case ArrowUp => Some('U')
    case ArrowDown => Some('D')
    case ArrowLeft => Some('L')
    case ArrowRight => Some('R')
    case OtherKey => None
  }

  /** The restart of a finished game: map reloaded, positions reset, three lives, no score. */
  function Restarted(w: World, tape: nat -> nat): (r: World)
    requires Rectangular(w.grid)
    ensures r.grid == w.grid && r.cherry == w.cherry && r.cherrySpawnTime == w.cherrySpawnTime
    ensures r.draws == w.draws + |r.ghosts| && Parked(r.pacman)
  {
    PositionsReset(MapLoaded(w), tape).(lives := 3, score := 0, gameOver := false)
  }

  /** `keyReleased`: restart a finished game, then steer Pac-Man for an arrow key. */
  function Released(w: World, key: Key, tape: nat -> nat): (r: World)
    requires Rectangular(w.grid)
    ensures r.grid == w.grid && (!w.gameOver ==> r == w.(pacman := r.pacman))
  {
    var w1 := if w.gameOver then Restarted(w, tape) else w;
    match KeyDirection(key)
    case None => w1
    case Some(d) => w1.(pacman := Steered(w1.pacman, d, w1.walls))
  }

  /** The game as the constructor leaves it: map loaded, each ghost sent off in a random direction. */
  function Started(grid: seq<string>, tape: nat -> nat): (r: World)
    requires Playable(grid)
    ensures r.grid == grid && r.draws == |r.ghosts| && r.cherry.None?
  {
    LoadPlayable(grid);
    var lv := Load(grid);
    var gs := Redirected(lv.ghosts, lv.walls, tape, 0, 0, false);
    World(grid, lv.walls, lv.foods, gs, lv.player.value, None, 0, 0, 3, false, |lv.ghosts|)
  }

  /**
   * A key released after the game ended restarts it: three lives, no score,
   * the flag cleared, walls and food dots of a fresh level. The cherry is
   * kept. With no arrow key Pac-Man is left parked on its start.
   */
  lemma ReleasedRestarts(w: World, key: Key, tape: nat -> nat)
    requires Playable(w.grid) && w.gameOver
    ensures var r := Released(w, key, tape);
            && r.lives == 3 && r.score == 0 && !r.gameOver
            && r.foods == Load(w.grid).foods && r.walls == Load(w.grid).walls
            && r.cherry == w.cherry
            && Load(w.grid).player.Some?
            && (key == OtherKey ==> Parked(r.pacman) && r.pacman == Load(w.grid).player.value)
  {
    LoadPlayable(w.grid);
    LoadPlacesEntities(w.grid);
    var p := Load(w.grid).player.value;
    assert MapLoaded(w).pacman == p;
    assert PositionsReset(MapLoaded(w), tape).pacman == AtStart(p).(velocityX := 0, velocityY := 0);
  }

  /**
   * While the game runs a released key only steers Pac-Man: an arrow turns it
   * (keeping it clear of the walls if it was), any other key changes nothing.
   */
  lemma ReleasedSteers(w: World, key: Key, tape: nat -> nat)
    requires Rectangular(w.grid) && !w.gameOver
    ensures var r := Released(w, key, tape);
            && r == w.(pacman := r.pacman)
            && (key == OtherKey ==> r == w)
            && (!HitsAny(w.pacman.Bounds(), w.walls) ==> !HitsAny(r.pacman.Bounds(), w.walls))
  {
    if key != OtherKey && !HitsAny(w.pacman.Bounds(), w.walls) {
      SteerStaysClear(w.pacman, KeyDirection(key).value, w.walls);
    }
  }

  /**
   * The new game: the loaded level with three lives, no score and no
   * cherry, one draw made per ghost.
   */
  lemma StartedState(grid: seq<string>, tape: nat -> nat)
    requires Playable(grid)
    ensures var r := Started(grid, tape);
            var lv := Load(grid);
            && r.lives == 3 && r.score == 0 && !r.gameOver && r.cherry.None?
            && r.walls == lv.walls && r.foods == lv.foods && Some(r.pacman) == lv.player
            && r.draws == |lv.ghosts| == |r.ghosts|
  {
    LoadPlayable(grid);
  }

  /** At the start ghost j has been turned from its cell with draw j. */
  lemma StartedGhosts(grid: seq<string>, tape: nat -> nat)
    requires Playable(grid)
    ensures var lv := Load(grid);
            var gs := Started(grid, tape).ghosts;
            |gs| == |lv.ghosts| &&
            forall j :: 0 <= j < |lv.ghosts| ==> gs[j] == Steered(lv.ghosts[j], RandomDirection(tape, j), lv.walls)
  {
    LoadPlayable(grid);
    var lv := Load(grid);
    RedirectedFromStart(lv.ghosts, lv.walls, tape);
    assert Started(grid, tape).ghosts == Redirected(lv.ghosts, lv.walls, tape, 0, 0, false);
  }

  /** The constructor's loop sends ghost j off, from where it stands, with draw j. */
  lemma RedirectedFromStart(gs: seq<BlockState>, walls: seq<Box>, tape: nat -> nat)
    ensures var r := Redirected(gs, walls, tape, 0, 0, false);
            |r| == |gs| && forall j :: 0 <= j < |gs| ==> r[j] == Steered(gs[j], RandomDirection(tape, j), walls)
  {
    RedirectedEach(gs, walls, tape, 0, 0, false);
    var r := Redirected(gs, walls, tape, 0, 0, false);
    forall j | 0 <= j < |gs|
      ensures r[j] == Steered(gs[j], RandomDirection(tape, j), walls)
    {
      assert r[j] == Launched(gs[j], walls, tape, j, false);
    }
  }
}

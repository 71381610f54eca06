/**
 * The `Block` of src/PacMan.java: a box with a start position, a facing
 * direction and a velocity, and the movement primitive every actor uses.
 *
 * `BlockState` is the value a block holds at one moment; the pure functions
 * over it (`VelocityUpdated`, `Steered`, ...) specify the methods of the
 * class `Block`, which update the fields in place as the source does.
 */
module Blocks {
  import opened Geometry
  import opened Board

  /** Everything a block holds, as one value. */
  datatype BlockState = BlockState(
    x: int, y: int, width: int, height: int,
    startX: int, startY: int,
    direction: char, velocityX: int, velocityY: int)
  {
    function Bounds(): Box {
      Box(x, y, width, height)
    }
  }

  /** A block as the constructor leaves it: at its start, facing 'U', standing still. */
  function NewBlock(x: int, y: int, width: int, height: int): BlockState {
    BlockState(x, y, width, height, x, y, 'U', 0, 0)
  }

  /**
   * The velocity `updateVelocity` derives from direction `d` when the block
   * currently moves with (vx, vy): a quarter tile along one axis for the four
   * directions, and the current velocity for any other character.
   */
  function Velocity(d: char, vx: int, vy: int): (v: (int, int))
    ensures d in "UDLR" ==> (v.0 == 0 || v.1 == 0) && (v.0 != 0 || v.1 != 0)
    ensures d in "UDLR" ==> v.0 in {-Step, 0, Step} && v.1 in {-Step, 0, Step}
    ensures d in "UD" <==> d in "UDLR" && v.0 == 0
    ensures (d == 'U' || d == 'L') <==> d in "UDLR" && v.0 + v.1 == -Step
    ensures d !in "UDLR" ==> v == (vx, vy)
  {
    if d == 'U' then (0, -Step)
    else if d == 'D' then (0, Step)
    else if d == 'L' then (-Step, 0)
    else if d == 'R' then (Step, 0)
    else (vx, vy)
  }

  /** The block after `updateVelocity`: velocity recomputed from its own direction. */
  function VelocityUpdated(b: BlockState): BlockState {
    var v := Velocity(b.direction, b.velocityX, b.velocityY);
    b.(velocityX := v.0, velocityY := v.1)
  }

  /** Whether two block values agree on size and start position, the fields no method changes. */
  predicate SameShape(a: BlockState, b: BlockState) {
    a.width == b.width && a.height == b.height && a.startX == b.startX && a.startY == b.startY
  }

  /** The block advanced by one velocity step. */
  function Moved(b: BlockState): BlockState {
    b.(x := b.x + b.velocityX, y := b.y + b.velocityY)
  }

  /** The block moved back by one velocity step. */
  function MovedBack(b: BlockState): BlockState {
    b.(x := b.x - b.velocityX, y := b.y - b.velocityY)
  }

  /** The block put back on its start position; heading and velocity are kept. */
  function AtStart(b: BlockState): BlockState {
    b.(x := b.startX, y := b.startY)
  }

  /** The block after one undo of `updateDirection`: step back, old direction, velocity recomputed. */
  function Undone(b: BlockState, prev: char): BlockState {
    VelocityUpdated(MovedBack(b).(direction := prev))
  }

  /**
   * The wall loop of `updateDirection` over the first `n` walls: every wall the
   * block overlaps at that point undoes the step once more (the loop has no break).
   */
  function RevertScan(b: BlockState, prev: char, walls: seq<Box>, n: nat): (r: BlockState)
    requires n <= |walls|
    ensures SameShape(r, b)
    decreases n
  {
    if n == 0 then b
    else
      var c := RevertScan(b, prev, walls, n - 1);
      if Collision(c.Bounds(), walls[n - 1]) then Undone(c, prev) else c
  }

  /** The step `updateDirection(d)` makes: turn, move one step, then scan the walls. */
  function Attempted(b: BlockState, d: char): BlockState {
    Moved(VelocityUpdated(b.(direction := d)))
  }

  /** The block after `updateDirection(d)` against `walls`; size and start never change. */
  function Steered(b: BlockState, d: char, walls: seq<Box>): (r: BlockState)
    ensures SameShape(r, b)
  {
    RevertScan(Attempted(b, d), b.direction, walls, |walls|)
  }

  /** Whether the velocity of `b` is the one its direction calls for. */
  predicate Aligned(b: BlockState) {
    b.direction in "UDLR" && (b.velocityX, b.velocityY) == Velocity(b.direction, 0, 0)
  }

  /** Until the scan meets a wall the attempted step survives; from then on the block stays reverted. */
  lemma {:induction false} RevertScanPrefix(b: BlockState, d: char, walls: seq<Box>, n: nat)
    requires n <= |walls|
    requires !HitsAny(b.Bounds(), walls)
    ensures var s := Attempted(b, d);
            RevertScan(s, b.direction, walls, n)
              == if exists j :: 0 <= j < n && Collision(s.Bounds(), walls[j])
                 then Undone(s, b.direction) else s
  {
    var s := Attempted(b, d);
    if n > 0 {
      RevertScanPrefix(b, d, walls, n - 1);
      var c := RevertScan(s, b.direction, walls, n - 1);
      if exists j :: 0 <= j < n - 1 && Collision(s.Bounds(), walls[j]) {
        assert c.Bounds() == b.Bounds();
        assert !Collision(c.Bounds(), walls[n - 1]);
      }
    }
  }

  /**
   * `updateDirection` is all-or-nothing for a block that starts clear of every
   * wall: either the whole step is taken with the new heading, or the block
   * keeps its position and direction and its velocity is the one its old
   * direction calls for.
   */
  lemma SteerAllOrNothing(b: BlockState, d: char, walls: seq<Box>)
    requires !HitsAny(b.Bounds(), walls)
    ensures var v := Velocity(d, b.velocityX, b.velocityY);
            var s := b.(x := b.x + v.0, y := b.y + v.1, direction := d, velocityX := v.0, velocityY := v.1);
            var u := Velocity(b.direction, v.0, v.1);
            && (!HitsAny(s.Bounds(), walls) ==> Steered(b, d, walls) == s)
            && (HitsAny(s.Bounds(), walls) ==> Steered(b, d, walls) == b.(velocityX := u.0, velocityY := u.1))
  {
    RevertScanPrefix(b, d, walls, |walls|);
  }

  /**
   * A blocked turn of a block that moves the way it faces changes nothing at
   * all: position, direction and velocity are those before the call.
   */
  lemma SteerBlockedRestores(b: BlockState, d: char, walls: seq<Box>)
    requires !HitsAny(b.Bounds(), walls) && Aligned(b)
    requires HitsAny(Attempted(b, d).Bounds(), walls)
    ensures Steered(b, d, walls) == b
  {
    SteerAllOrNothing(b, d, walls);
  }

  /**
   * A blocked turn of a block that stands still (as after construction, or
   * after Pac-Man's velocity is zeroed) sets it moving along its old direction:
   * the undo recomputes the velocity instead of restoring it.
   */
  lemma SteerBlockedSetsStillBlockMoving(b: BlockState, d: char, walls: seq<Box>)
    requires !HitsAny(b.Bounds(), walls) && b.direction in "UDLR"
    requires b.velocityX == 0 && b.velocityY == 0
    requires HitsAny(Attempted(b, d).Bounds(), walls)
    ensures var r := Steered(b, d, walls);
            r.x == b.x && r.y == b.y && r.direction == b.direction
            && (r.velocityX, r.velocityY) == Velocity(b.direction, 0, 0) != (0, 0)
  {
    SteerAllOrNothing(b, d, walls);
  }

  /** A block clear of every wall is still clear of them after `updateDirection`. */
  lemma SteerStaysClear(b: BlockState, d: char, walls: seq<Box>)
    requires !HitsAny(b.Bounds(), walls)
    ensures !HitsAny(Steered(b, d, walls).Bounds(), walls)
  {
    SteerAllOrNothing(b, d, walls);
  }

  /** The current values of a sequence of blocks, in order. */
  function States(bs: seq<Block>): (r: seq<BlockState>)
    reads bs
    ensures |r| == |bs| && forall i :: 0 <= i < |bs| ==> r[i] == bs[i].State()
  {
    seq(|bs|, i reads bs requires 0 <= i < |bs| => bs[i].State())
  }

  /** When only block i of a sequence changed, `States` changes only at index i. */
  lemma StatesUpdated(bs: seq<Block>, before: seq<BlockState>, i: nat)
    requires i < |bs| == |before|
    requires forall j :: 0 <= j < |bs| && j != i ==> bs[j].State() == before[j]
    ensures States(bs) == before[i := bs[i].State()]
  {
  }

  /** A block of the source: position, heading and velocity change in place. */
  class Block {
    var x: int
    var y: int
    const width: int
    const height: int
    const startX: int
    const startY: int
    var direction: char
    var velocityX: int
    var velocityY: int

    /** The current box of the block. */
    function Bounds(): Box
      reads this
    {
      Box(x, y, width, height)
    }

    /** The current value of every field. */
    function State(): BlockState
      reads this
    {
      BlockState(x, y, width, height, startX, startY, direction, velocityX, velocityY)
    }

    constructor (x: int, y: int, width: int, height: int)
      ensures State() == NewBlock(x, y, width, height)
    {
      this.x := x;
      this.y := y;
      this.width := width;
      this.height := height;
      this.startX := x;
      this.startY := y;
      this.direction := 'U';
      this.velocityX := 0;
      this.velocityY := 0;
    }

    /** Turn to `d`, step, and undo both on every wall the block then overlaps. */
    method UpdateDirection(d: char, walls: seq<Box>)
      modifies this
      ensures State() == Steered(old(State()), d, walls)
    {
      var prevDirection := direction;
      direction := d;
      UpdateVelocity();
      x := x + velocityX;
      y := y + velocityY;
      ghost var attempted := State();
      for i := 0 to |walls|
        invariant State() == RevertScan(attempted, prevDirection, walls, i)
      {
        if Collision(Bounds(), walls[i]) {
          x := x - velocityX;
          y := y - velocityY;
          direction := prevDirection;
          UpdateVelocity();
        }
      }
    }

    /** Recompute the velocity from the current direction. */
    method UpdateVelocity()
      modifies this
      ensures State() == VelocityUpdated(old(State()))
    {
      if direction == 'U' {
        velocityX := 0;
        velocityY := -Step;
      } else if direction == 'D' {
        velocityX := 0;
        velocityY := Step;
      } else if direction == 'L' {
        velocityX := -Step;
        velocityY := 0;
      } else if direction == 'R' {
        velocityX := Step;
        velocityY := 0;
      }
    }

    /** Move back to the start position; heading and velocity are kept. */
    method Reset()
      modifies this
      ensures State() == AtStart(old(State()))
    {
      x := startX;
      y := startY;
    }
  }
}

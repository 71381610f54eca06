/**
 * Axis-aligned boxes and the overlap test that every movement rule of the
 * game is built on (`collision` in src/PacMan.java).
 */
module Geometry {

  /** The position and size of a block, in pixels. */
  datatype Box = Box(x: int, y: int, width: int, height: int)

  /** Whether the pixel (px, py) lies inside `b`. */
  predicate Covers(b: Box, px: int, py: int) {
    b.x <= px < b.x + b.width && b.y <= py < b.y + b.height
  }

  /**
   * The overlap test: strict inequalities on both axes, so boxes that only
   * share an edge do not collide.
   */
  predicate Collision(a: Box, b: Box) {
    && a.x < b.x + b.width
    && a.x + a.width > b.x
    && a.y < b.y + b.height
    && a.y + a.height > b.y
  }

  /** Whether `b` overlaps at least one of `walls`. */
  predicate HitsAny(b: Box, walls: seq<Box>) {
    exists j :: 0 <= j < |walls| && Collision(b, walls[j])
  }

  /** The overlap test is symmetric. */
  lemma CollisionSymmetric(a: Box, b: Box)
    ensures Collision(a, b) <==> Collision(b, a)
  {
  }

  /** Boxes that only touch along a vertical or a horizontal edge do not collide. */
  lemma TouchingBoxesDoNotCollide(a: Box, b: Box)
    requires a.x + a.width == b.x || b.x + b.width == a.x
          || a.y + a.height == b.y || b.y + b.height == a.y
    ensures !Collision(a, b)
  {
  }

  /**
   * For boxes of positive size the overlap test agrees with the pixel view:
   * two boxes collide exactly when some pixel lies inside both.
   */
  lemma CollisionIffSharedPixel(a: Box, b: Box)
    requires a.width > 0 && a.height > 0 && b.width > 0 && b.height > 0
    ensures Collision(a, b) <==> exists px, py :: Covers(a, px, py) && Covers(b, px, py)
  {
    if Collision(a, b) {
      var px := if a.x < b.x then b.x else a.x;
      var py := if a.y < b.y then b.y else a.y;
      assert Covers(a, px, py) && Covers(b, px, py);
    }
  }
}

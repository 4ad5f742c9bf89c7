/** Axis-aligned boxes and the generic overlap test used for every collision. */
module Geometry {

  /** A box given by its centre and its half-extents. The ball collides through its
      bounding square, so it has half-extents equal to its radius. */
  datatype Box = Box(x: int, y: int, halfWidth: int, halfHeight: int) {
    function Left(): int { x - halfWidth }
    function Right(): int { x + halfWidth }
    function Top(): int { y - halfHeight }
    function Bottom(): int { y + halfHeight }

    /** The point (px, py) lies in the closed box. */
    predicate Contains(px: int, py: int) {
      Left() <= px <= Right() && Top() <= py <= Bottom()
    }
  }

  /** The overlap test: both projections overlap, edges included. */
  predicate Intersects(a: Box, b: Box) {
    a.Right() >= b.Left() && a.Left() <= b.Right() &&
    a.Bottom() >= b.Top() && a.Top() <= b.Bottom()
  }

  lemma IntersectsSymmetric(a: Box, b: Box)
    ensures Intersects(a, b) == Intersects(b, a)
  {
  }

  /** For boxes of non-negative extent the test holds exactly when the two closed
      boxes share a point, so boxes that only touch along an edge or at a corner
      intersect. */
  lemma IntersectsIffCommonPoint(a: Box, b: Box)
    requires a.halfWidth >= 0 && a.halfHeight >= 0
    requires b.halfWidth >= 0 && b.halfHeight >= 0
    ensures Intersects(a, b) <==> exists px, py :: a.Contains(px, py) && b.Contains(px, py)
  {
    if Intersects(a, b) {
      var px := if a.Left() < b.Left() then b.Left() else a.Left();
      var py := if a.Top() < b.Top() then b.Top() else a.Top();
      assert a.Contains(px, py) && b.Contains(px, py);
    }
  }
}

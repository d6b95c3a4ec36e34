/**
 * Positions in scene pixels. Positions read back from the physics world are
 * taken as whole pixels, so that squared distances are exact integers.
 */
module Geometry {

  datatype Point = Point(x: int, y: int)

  /** A velocity or a force, over exact reals. */
  datatype Vec = Vec(x: real, y: real)

  function Max(a: real, b: real): real { if a >= b then a else b }

  function Min(a: real, b: real): real { if a <= b then a else b }

  /** Squared Euclidean distance, as `(x - cx) ** 2 + (y - cy) ** 2`. */
  function SqDist(p: Point, c: Point): (r: nat)
    ensures r == 0 <==> p == c
  {
    var dx, dy := p.x - c.x, p.y - c.y;
    assert p == c <==> dx == 0 && dy == 0;
    dx * dx + dy * dy
  }

  /** `d` is what `Math.hypot(p.x - c.x, p.y - c.y)` denotes, over the reals. */
  predicate IsHypot(d: real, p: Point, c: Point) {
    d >= 0.0 && d * d == SqDist(p, c) as real
  }
}

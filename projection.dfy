/**
 * Rotation of a model point about the vertical axis and its projection onto
 * the 60 x 30 character grid, as renderFrame does it per point in main.go.
 * The cosine and sine of the angle are inputs: the model does not compute them.
 */
module Projection {

  /** Grid size (the constants width and height). */
  const Width: int := 60
  const Height: int := 30

  /** One point of the heart's point cloud, in model space. */
  datatype Point3D = Point3D(x: real, y: real, z: real)

  /** A projected point: its screen column and row and its rotated depth. */
  datatype Screen = Screen(sx: int, sy: int, depth: real)

  /**
   * Go's int() conversion of a float: truncation toward zero, not floor.
   * The two ensures together determine the result.
   */
  function Trunc(v: real): (n: int)
    ensures v >= 0.0 ==> n >= 0 && n as real <= v < n as real + 1.0
    ensures v < 0.0 ==> n <= 0 && n as real - 1.0 < v <= n as real
  {
    if v >= 0.0 then v.Floor else -((-v).Floor)
  }

  /** Rotated coordinates in the X/Z plane; y is kept. */
  function RotX(p: Point3D, cosA: real, sinA: real): real { p.x * cosA - p.z * sinA }
  function RotZ(p: Point3D, cosA: real, sinA: real): real { p.x * sinA + p.z * cosA }

  /** Rotate, then project: column width/2 + rotX, row height/2 + y/2, both truncated. */
  function Project(p: Point3D, cosA: real, sinA: real): Screen
  {
    Screen(Trunc(30.0 + RotX(p, cosA, sinA)), Trunc(15.0 + p.y * 0.5), RotZ(p, cosA, sinA))
  }

  /** The viewport clip: the projected point lies on the grid. */
  predicate InBounds(q: Screen)
  {
    0 <= q.sx < Width && 0 <= q.sy < Height
  }

  /** The projected point lands on the cell (r, c) of the grid. */
  predicate Hits(q: Screen, r: int, c: int)
  {
    InBounds(q) && q.sy == r && q.sx == c
  }

  /** Every point projected in order. */
  function Screens(points: seq<Point3D>, cosA: real, sinA: real): seq<Screen>
  {
    seq(|points|, i requires 0 <= i < |points| => Project(points[i], cosA, sinA))
  }

  /**
   * A point survives the clip exactly when its unclipped screen position lies
   * strictly above -1 on both axes: because of truncation, a column or row in
   * (-1, 0) still lands on cell 0.
   */
  lemma ClipCondition(p: Point3D, cosA: real, sinA: real)
    ensures InBounds(Project(p, cosA, sinA)) <==>
      -1.0 < 30.0 + RotX(p, cosA, sinA) < 60.0 && -1.0 < 15.0 + p.y * 0.5 < 30.0
  {
  }

  /** A rotated point that is just off the left edge is drawn in column 0, not clipped. */
  lemma LeftEdgeLandsInColumnZero(p: Point3D, cosA: real, sinA: real)
    requires -31.0 < RotX(p, cosA, sinA) < -29.0
    ensures Project(p, cosA, sinA).sx == 0
  {
  }

  /**
   * When (cosA, sinA) lies on the unit circle, the rotation keeps the
   * point's distance from the vertical axis.
   */
  lemma RotationKeepsRadius(p: Point3D, cosA: real, sinA: real)
    requires cosA * cosA + sinA * sinA == 1.0
    ensures RotX(p, cosA, sinA) * RotX(p, cosA, sinA) + RotZ(p, cosA, sinA) * RotZ(p, cosA, sinA)
         == p.x * p.x + p.z * p.z
  {
    var x, z := p.x, p.z;
    calc {
      (x * cosA - z * sinA) * (x * cosA - z * sinA) + (x * sinA + z * cosA) * (x * sinA + z * cosA);
      x * x * (cosA * cosA + sinA * sinA) + z * z * (cosA * cosA + sinA * sinA);
      x * x + z * z;
    }
  }
}

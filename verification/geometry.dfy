/** Points, bounding boxes and the small pieces of real arithmetic shared by
    the pointer layer and the answer interpreter. */
module Geometry {
  import opened Values

  datatype Point = Point(x: real, y: real)

  /** A viewport size. */
  datatype Size = Size(width: real, height: real)

  /** An element's bounding box as the automation layer reports it. */
  datatype Box = Box(x: real, y: real, width: real, height: real)

  /** One entry of a replayed trajectory: a point and an optional pause in seconds. */
  datatype Waypoint = Waypoint(at: Point, delay: Option<real>)

  function Max(a: real, b: real): real {
    if a >= b then a else b
  }

  function Min(a: real, b: real): real {
    if a <= b then a else b
  }

  function Center(b: Box): Point {
    Point(b.x + b.width / 2.0, b.y + b.height / 2.0)
  }

  function Translate(p: Point, origin: Point): Point {
    Point(origin.x + p.x, origin.y + p.y)
  }

  /** `_point_inside_box`: closed on all four edges. */
  predicate PointInsideBox(b: Box, p: Point) {
    b.x <= p.x <= b.x + b.width && b.y <= p.y <= b.y + b.height
  }

  /** The submit-box test is inclusive on every edge: the four corners and
      the centre of a box count as inside, and a point past any edge does not. */
  lemma InsideBoxIsInclusive(b: Box, p: Point)
    requires b.width >= 0.0 && b.height >= 0.0
    ensures PointInsideBox(b, Point(b.x, b.y))
    ensures PointInsideBox(b, Point(b.x + b.width, b.y))
    ensures PointInsideBox(b, Point(b.x, b.y + b.height))
    ensures PointInsideBox(b, Point(b.x + b.width, b.y + b.height))
    ensures PointInsideBox(b, Center(b))
    ensures PointInsideBox(b, p) <==>
              !(p.x < b.x || p.x > b.x + b.width || p.y < b.y || p.y > b.y + b.height)
  {
  }

  lemma MulNonnegative(x: real, y: real)
    requires x >= 0.0 && y >= 0.0
    ensures x * y >= 0.0
  {
  }

  lemma MulPositive(x: real, y: real)
    requires x > 0.0 && y > 0.0
    ensures x * y > 0.0
  {
  }

  /** Round half to even, Python's rounding rule. */
  function RoundHalfEven(r: real): (n: int)
    ensures r - 0.5 <= n as real <= r + 0.5
    ensures r <= 0.0 ==> n <= 0
  {
    var f := r.Floor;
    var frac := r - f as real;
    if frac < 0.5 then f
    else if frac > 0.5 then f + 1
    else if f % 2 == 0 then f
    else f + 1
  }

  /** Python's `round(r, 2)`, on exact reals. */
  function Round2(r: real): (v: real)
    ensures r - 0.005 <= v <= r + 0.005
    ensures r <= 0.0 ==> v <= 0.0
  {
    RoundHalfEven(r * 100.0) as real / 100.0
  }
}

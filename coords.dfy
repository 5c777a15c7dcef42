// The static coordinate maps of the Java tracker: floor space (metres,
// bounded by minx..maxx, miny..maxy) to normalized space and back.
// Float arithmetic is modelled over the reals; where the source divides by
// a floor size that is zero, Java yields an infinity or NaN, which the model
// reports as `None`.

module Coords {
  import opened Common

  /** The video display bounds, in metres. */
  datatype Bounds = Bounds(minx: real, maxx: real, miny: real, maxy: real)

  /** `getFloorCenter`. */
  function FloorCenter(b: Bounds): Point
  {
    Point((b.minx + b.maxx) / 2.0, (b.miny + b.maxy) / 2.0)
  }

  /** `getFloorSize`. */
  function FloorSize(b: Bounds): Point
  {
    Point(b.maxx - b.minx, b.maxy - b.miny)
  }

  predicate NonDegenerate(b: Bounds)
  {
    b.maxx != b.minx && b.maxy != b.miny
  }

  /** `floorToNormalized(raw, preserveAspect)`: offset from the centre, then
      scaled by 2/width and 2/height, or by 2/min(width, height) for both
      axes when the aspect is preserved. */
  function FloorToNormalized(b: Bounds, raw: Point, preserveAspect: bool): (r: Option<Point>)
    ensures r.Some? <==>
      (if preserveAspect then MinR(FloorSize(b).x, FloorSize(b).y) != 0.0 else NonDegenerate(b))
  {
    var mid := FloorCenter(b);
    var sz := FloorSize(b);
    var d := raw.Minus(mid);
    if preserveAspect then
      var m := MinR(sz.x, sz.y);
      if m == 0.0 then None else Some(d.Scale(2.0 / m))
    else if sz.x == 0.0 || sz.y == 0.0 then None
    else Some(Point(d.x * 2.0 / sz.x, d.y * 2.0 / sz.y))
  }

  /** `normalizedToFloor`. */
  function NormalizedToFloor(b: Bounds, mapped: Point): Point
  {
    var mid := FloorCenter(b);
    var sz := FloorSize(b);
    Point(mapped.x * sz.x / 2.0 + mid.x, mapped.y * sz.y / 2.0 + mid.y)
  }

  /** `mapVelocity`: metres per second to normalized units per second, with
      the x axis mirrored. */
  function MapVelocity(b: Bounds, v: Point): (r: Option<Point>)
    ensures r.Some? <==> NonDegenerate(b)
  {
    var sz := FloorSize(b);
    if sz.x == 0.0 || sz.y == 0.0 then None
    else Some(Point(-v.x * 2.0 / sz.x, v.y * 2.0 / sz.y))
  }

  /** `inBounds`: inside the closed display rectangle. */
  predicate InBounds(b: Bounds, p: Point)
  {
    p.x >= b.minx && p.x <= b.maxx && p.y >= b.miny && p.y <= b.maxy
  }

  // ---------------------------------------------------------------------

  /** The two maps are inverse to each other, in both orders. */
  lemma {:induction false} RoundTrip(b: Bounds, p: Point, q: Point)
    requires NonDegenerate(b)
    ensures FloorToNormalized(b, p, false).Some?
    ensures NormalizedToFloor(b, FloorToNormalized(b, p, false).value) == p
    ensures FloorToNormalized(b, NormalizedToFloor(b, q), false) == Some(q)
  {
    var mid, sz := FloorCenter(b), FloorSize(b);
    var n := FloorToNormalized(b, p, false).value;
    DivMul(p.x - mid.x, sz.x);
    DivMul(p.y - mid.y, sz.y);
    var f := NormalizedToFloor(b, q);
    MulDiv(q.x, sz.x);
    MulDiv(q.y, sz.y);
    var d := f.Minus(mid);
    assert d.x == q.x * sz.x / 2.0 && d.y == q.y * sz.y / 2.0;
    assert d.x * 2.0 / sz.x == q.x && d.y * 2.0 / sz.y == q.y;
    assert FloorToNormalized(b, f, false) == Some(Point(d.x * 2.0 / sz.x, d.y * 2.0 / sz.y));
  }

  lemma DivMul(d: real, s: real)
    requires s != 0.0
    ensures (d * 2.0 / s) * s / 2.0 == d
  {
    var t := d * 2.0 / s;
    assert t * s == d * 2.0;
  }

  lemma MulDiv(q: real, s: real)
    requires s != 0.0
    ensures (q * s / 2.0) * 2.0 / s == q
  {
    assert (q * s / 2.0) * 2.0 == q * s;
  }

  lemma Unit(s: real)
    requires s != 0.0
    ensures s / s == 1.0 && (-s) / s == -1.0
  {
  }

  /** The centre of the floor maps to the origin, the (minx, miny) corner to
      (-1, -1) and the (maxx, maxy) corner to (1, 1): no axis is inverted. */
  lemma {:induction false} Landmarks(b: Bounds)
    requires NonDegenerate(b)
    ensures FloorToNormalized(b, FloorCenter(b), false) == Some(Origin)
    ensures FloorToNormalized(b, Point(b.minx, b.miny), false) == Some(Point(-1.0, -1.0))
    ensures FloorToNormalized(b, Point(b.maxx, b.maxy), false) == Some(Point(1.0, 1.0))
  {
    var sz := FloorSize(b);
    assert (b.minx - (b.minx + b.maxx) / 2.0) * 2.0 == -sz.x;
    assert (b.miny - (b.miny + b.maxy) / 2.0) * 2.0 == -sz.y;
    assert (b.maxx - (b.minx + b.maxx) / 2.0) * 2.0 == sz.x;
    assert (b.maxy - (b.miny + b.maxy) / 2.0) * 2.0 == sz.y;
    Unit(sz.x);
    Unit(sz.y);
  }

  /** A point is in bounds exactly when its normalized image lies in the
      square [-1, 1] x [-1, 1] (for bounds with positive size). */
  lemma {:induction false} InBoundsIffInSquare(b: Bounds, p: Point)
    requires b.minx < b.maxx && b.miny < b.maxy
    ensures FloorToNormalized(b, p, false).Some?
    ensures var n := FloorToNormalized(b, p, false).value;
      InBounds(b, p) <==> (-1.0 <= n.x <= 1.0 && -1.0 <= n.y <= 1.0)
  {
    var n := FloorToNormalized(b, p, false).value;
    var mid, sz := FloorCenter(b), FloorSize(b);
    ScaledInUnit(p.x - mid.x, sz.x);
    ScaledInUnit(p.y - mid.y, sz.y);
  }

  lemma ScaledInUnit(d: real, s: real)
    requires s > 0.0
    ensures (-s / 2.0 <= d <= s / 2.0) <==> (-1.0 <= d * 2.0 / s <= 1.0)
  {
    var t := d * 2.0 / s;
    assert d == t * s / 2.0;
    if -1.0 <= t <= 1.0 {
      assert -s <= t * s <= s;
    }
  }

  /** `mapVelocity` mirrors x and scales each axis by 2/size, which is the
      difference of the positions it maps: velocities map like displacements. */
  lemma {:induction false} VelocityIsDisplacement(b: Bounds, p: Point, v: Point)
    requires NonDegenerate(b)
    ensures MapVelocity(b, v).Some?
    ensures var n0 := FloorToNormalized(b, p, false).value;
      var n1 := FloorToNormalized(b, p.Plus(v), false).value;
      MapVelocity(b, v).value == Point(-(n1.x - n0.x), n1.y - n0.y)
  {
    var mid, sz := FloorCenter(b), FloorSize(b);
    assert (p.x + v.x - mid.x) * 2.0 / sz.x - (p.x - mid.x) * 2.0 / sz.x == v.x * 2.0 / sz.x;
    assert (p.y + v.y - mid.y) * 2.0 / sz.y - (p.y - mid.y) * 2.0 / sz.y == v.y * 2.0 / sz.y;
  }

  /** With the aspect preserved, both axes get the same factor, and the
      smaller axis still spans exactly [-1, 1]. */
  lemma {:induction false} AspectPreservedUniform(b: Bounds, p: Point)
    requires b.minx < b.maxx && b.miny < b.maxy
    ensures FloorToNormalized(b, p, true).Some?
    ensures var n := FloorToNormalized(b, p, true).value;
      var d := p.Minus(FloorCenter(b));
      var m := MinR(FloorSize(b).x, FloorSize(b).y);
      n.x * m == 2.0 * d.x && n.y * m == 2.0 * d.y
  {
  }
}

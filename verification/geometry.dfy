/** Plane geometry shared by the trainer: vectors, oriented rectangles,
    angle folding, the separating-axis overlap test and the point-to-segment
    distance. */
module Geometry {
  import opened RealMath

  datatype Vec2 = Vec2(x: real, y: real) {
    function Plus(o: Vec2): Vec2 { Vec2(x + o.x, y + o.y) }
    function Minus(o: Vec2): Vec2 { Vec2(x - o.x, y - o.y) }
    function Scale(k: real): Vec2 { Vec2(k * x, k * y) }
    function Negate(): Vec2 { Vec2(-x, -y) }
    function Dot(o: Vec2): real { x * o.x + y * o.y }
    function LengthSquared(): real { x * x + y * y }
  }

  /** pygame's `Vector2.distance_to`. */
  function Distance(m: MathLib, p: Vec2, q: Vec2): (r: real)
    ensures 0.0 <= r
    ensures p == q ==> r == m.sqrt(0.0)
  {
    var d := p.Minus(q);
    assert d.LengthSquared() >= 0.0 by { assert d.x * d.x >= 0.0 && d.y * d.y >= 0.0; }
    m.sqrt(d.LengthSquared())
  }

  lemma LengthSquaredNonNegative(d: Vec2)
    ensures 0.0 <= d.LengthSquared()
  {
    assert d.x * d.x >= 0.0;
    assert d.y * d.y >= 0.0;
  }

  /** Only the zero vector has length zero. */
  lemma LengthSquaredPositive(d: Vec2)
    requires d != Vec2(0.0, 0.0)
    ensures 0.0 < d.LengthSquared()
  {
    if d.x != 0.0 {
      calc { d.LengthSquared(); == d.x * d.x + d.y * d.y; > { SumOfSquaresPositive(d.x, d.y); } 0.0; }
    } else {
      calc { d.LengthSquared(); == d.y * d.y + d.x * d.x; > { SumOfSquaresPositive(d.y, d.x); } 0.0; }
    }
  }

  // ---------------------------------------------------------------------
  // Angles

  /** Folds an angle in degrees into (-180, 180]. The `< -180` branch of the
      source is kept although `Mod360` never yields a negative value. */
  function NormalizeAngle(angle: real): (r: real)
    ensures -180.0 < r <= 180.0
    ensures IsIntegral((angle - r) / 360.0)
  {
    var a := Mod360(angle);
    if a > 180.0 then
      assert (angle - (a - 360.0)) / 360.0 == (angle - a) / 360.0 + 1.0;
      IntegralSum((angle - a) / 360.0, 1.0);
      a - 360.0
    else if a < -180.0 then a + 360.0
    else a
  }

  /** The folded angle is the only value in (-180, 180] that differs from the
      input by whole turns. */
  lemma NormalizeAngleUnique(angle: real, y: real)
    requires -180.0 < y <= 180.0
    requires IsIntegral((angle - y) / 360.0)
    ensures y == NormalizeAngle(angle)
  {
    var r := NormalizeAngle(angle);
    assert (y - r) / 360.0 == (angle - r) / 360.0 - (angle - y) / 360.0;
    IntegralDifference((angle - r) / 360.0, (angle - y) / 360.0);
  }

  lemma NormalizeAngleIdempotent(angle: real)
    ensures NormalizeAngle(NormalizeAngle(angle)) == NormalizeAngle(angle)
  {
    var r := NormalizeAngle(angle);
    assert (r - r) / 360.0 == 0.0;
    NormalizeAngleUnique(r, r);
  }

  /** Both ends of the half-open range fold to 180. */
  lemma NormalizeAngleHalfTurn()
    ensures NormalizeAngle(180.0) == 180.0
    ensures NormalizeAngle(-180.0) == 180.0
  {
    Mod360Small(180.0);
    Mod360Small(-180.0);
  }

  // ---------------------------------------------------------------------
  // Oriented rectangles

  /** A static oriented rectangle: the parking spot and the obstacle cars. */
  datatype Rect = Rect(center: Vec2, angle: real, width: real, height: real)

  /** The four corners of the rectangle: the half-extent offsets, in the order
      (-w, -h), (w, -h), (w, h), (-w, h), rotated by the heading and translated
      to the center. Consecutive corners form the edges. */
  function Corners(m: MathLib, r: Rect): (cs: seq<Vec2>)
    ensures |cs| == 4
    ensures cs[0].Plus(cs[2]) == r.center.Scale(2.0)
    ensures cs[1].Plus(cs[3]) == r.center.Scale(2.0)
  {
    var hw, hh := r.width / 2.0, r.height / 2.0;
    var c, s := m.cosDeg(r.angle), m.sinDeg(r.angle);
    [Place(r.center, -hw, -hh, c, s), Place(r.center, hw, -hh, c, s),
     Place(r.center, hw, hh, c, s), Place(r.center, -hw, hh, c, s)]
  }

  /** A local offset rotated by (cos, sin) and translated to `center`. */
  function Place(center: Vec2, lx: real, ly: real, c: real, s: real): Vec2 {
    Vec2(center.x + (lx * c - ly * s), center.y + (lx * s + ly * c))
  }

  /** The difference of two placed offsets is the placed difference of the offsets. */
  lemma PlaceDifference(center: Vec2, ax: real, ay: real, bx: real, bz: real, c: real, s: real)
    ensures Place(center, bx, bz, c, s).Minus(Place(center, ax, ay, c, s)) == Place(Vec2(0.0, 0.0), bx - ax, bz - ay, c, s)
  {
    assert (bx * c - bz * s) - (ax * c - ay * s) == (bx - ax) * c - (bz - ay) * s;
    assert (bx * s + bz * c) - (ax * s + ay * c) == (bx - ax) * s + (bz - ay) * c;
  }

  lemma RotationExpansion(lx: real, ly: real, c: real, s: real)
    ensures (lx * c - ly * s) * (lx * c - ly * s) + (lx * s + ly * c) * (lx * s + ly * c)
         == (lx * lx + ly * ly) * (c * c + s * s)
  {
  }

  /** A rotation (cos^2 + sin^2 = 1) keeps the length of an offset. */
  lemma RotationPreservesLength(lx: real, ly: real, c: real, s: real)
    requires c * c + s * s == 1.0
    ensures Place(Vec2(0.0, 0.0), lx, ly, c, s).LengthSquared() == lx * lx + ly * ly
  {
    calc {
      Place(Vec2(0.0, 0.0), lx, ly, c, s).LengthSquared();
      == (lx * c - ly * s) * (lx * c - ly * s) + (lx * s + ly * c) * (lx * s + ly * c);
      == { RotationExpansion(lx, ly, c, s); }
      (lx * lx + ly * ly) * (c * c + s * s);
      == (lx * lx + ly * ly) * 1.0;
    }
  }

  /** When cos^2 + sin^2 = 1 for the heading, consecutive corners are `width`
      and `height` apart, alternately. */
  lemma CornersSideLengths(m: MathLib, r: Rect)
    requires Pythagorean(m, r.angle)
    ensures var cs := Corners(m, r);
      && cs[1].Minus(cs[0]).LengthSquared() == r.width * r.width
      && cs[2].Minus(cs[1]).LengthSquared() == r.height * r.height
      && cs[3].Minus(cs[2]).LengthSquared() == r.width * r.width
      && cs[0].Minus(cs[3]).LengthSquared() == r.height * r.height
  {
    var hw, hh := r.width / 2.0, r.height / 2.0;
    var c, s := m.cosDeg(r.angle), m.sinDeg(r.angle);
    SideLength(r.center, -hw, -hh, hw, -hh, c, s, r.width, 0.0);
    SideLength(r.center, hw, -hh, hw, hh, c, s, 0.0, r.height);
    SideLength(r.center, hw, hh, -hw, hh, c, s, -r.width, 0.0);
    SideLength(r.center, -hw, hh, -hw, -hh, c, s, 0.0, -r.height);
  }

  lemma SideLength(center: Vec2, ax: real, ay: real, bx: real, bz: real, c: real, s: real, dx: real, dy: real)
    requires c * c + s * s == 1.0
    requires bx - ax == dx && bz - ay == dy
    ensures Place(center, bx, bz, c, s).Minus(Place(center, ax, ay, c, s)).LengthSquared() == dx * dx + dy * dy
  {
    PlaceDifference(center, ax, ay, bx, bz, c, s);
    RotationPreservesLength(dx, dy, c, s);
  }

  // ---------------------------------------------------------------------
  // Separating-axis overlap test

  /** The scalar projections of all vertices onto `axis`: their least value. */
  function MinProjection(axis: Vec2, poly: seq<Vec2>): (r: real)
    requires |poly| > 0
    ensures forall k :: 0 <= k < |poly| ==> r <= axis.Dot(poly[k])
  {
    if |poly| == 1 then axis.Dot(poly[0])
    else
      var rest := MinProjection(axis, poly[1..]);
      assert forall k :: 1 <= k < |poly| ==> poly[k] == poly[1..][k - 1];
      Min(axis.Dot(poly[0]), rest)
  }

  /** ... and their greatest value. */
  function MaxProjection(axis: Vec2, poly: seq<Vec2>): (r: real)
    requires |poly| > 0
    ensures forall k :: 0 <= k < |poly| ==> axis.Dot(poly[k]) <= r
  {
    if |poly| == 1 then axis.Dot(poly[0])
    else
      var rest := MaxProjection(axis, poly[1..]);
      assert forall k :: 1 <= k < |poly| ==> poly[k] == poly[1..][k - 1];
      Max(axis.Dot(poly[0]), rest)
  }

  /** The projection intervals of the two polygons on `axis` are strictly apart. */
  predicate Separated(axis: Vec2, p: seq<Vec2>, q: seq<Vec2>)
    requires |p| > 0 && |q| > 0
  {
    MaxProjection(axis, p) < MinProjection(axis, q) || MaxProjection(axis, q) < MinProjection(axis, p)
  }

  /** The normal (-dy, dx) of the edge from vertex i to the next one. */
  function EdgeNormal(poly: seq<Vec2>, i: nat): Vec2
    requires i < |poly|
  {
    var e := poly[(i + 1) % |poly|].Minus(poly[i]);
    Vec2(-e.y, e.x)
  }

  predicate DegenerateEdge(poly: seq<Vec2>, i: nat)
    requires i < |poly|
  {
    EdgeNormal(poly, i).LengthSquared() == 0.0
  }

  /** Edge i of `poly` is non-degenerate and its normal separates p from q. */
  predicate SeparatingEdge(poly: seq<Vec2>, i: nat, p: seq<Vec2>, q: seq<Vec2>)
    requires |p| > 0 && |q| > 0
  {
    i < |poly| && !DegenerateEdge(poly, i) && Separated(EdgeNormal(poly, i), p, q)
  }

  /** Reference verdict: no edge of either polygon yields a separating axis. */
  predicate Overlap(p: seq<Vec2>, q: seq<Vec2>)
    requires |p| > 0 && |q| > 0
  {
    (forall i :: 0 <= i < |p| ==> !SeparatingEdge(p, i, p, q)) && (forall i :: 0 <= i < |q| ==> !SeparatingEdge(q, i, p, q))
  }

  /** The least projection is the projection of some vertex. */
  lemma {:induction false} MinProjectionAttained(axis: Vec2, poly: seq<Vec2>)
    requires |poly| > 0
    ensures exists k :: 0 <= k < |poly| && MinProjection(axis, poly) == axis.Dot(poly[k])
  {
    if |poly| == 1 {
      assert MinProjection(axis, poly) == axis.Dot(poly[0]);
    } else {
      MinProjectionAttained(axis, poly[1..]);
      var k :| 0 <= k < |poly[1..]| && MinProjection(axis, poly[1..]) == axis.Dot(poly[1..][k]);
      assert poly[1..][k] == poly[k + 1];
      if MinProjection(axis, poly) != axis.Dot(poly[0]) {
        assert MinProjection(axis, poly) == axis.Dot(poly[k + 1]);
      }
    }
  }

  /** The greatest projection is the projection of some vertex. */
  lemma {:induction false} MaxProjectionAttained(axis: Vec2, poly: seq<Vec2>)
    requires |poly| > 0
    ensures exists k :: 0 <= k < |poly| && MaxProjection(axis, poly) == axis.Dot(poly[k])
  {
    if |poly| == 1 {
      assert MaxProjection(axis, poly) == axis.Dot(poly[0]);
    } else {
      MaxProjectionAttained(axis, poly[1..]);
      var k :| 0 <= k < |poly[1..]| && MaxProjection(axis, poly[1..]) == axis.Dot(poly[1..][k]);
      assert poly[1..][k] == poly[k + 1];
      if MaxProjection(axis, poly) != axis.Dot(poly[0]) {
        assert MaxProjection(axis, poly) == axis.Dot(poly[k + 1]);
      }
    }
  }

  /** The unit vector along a non-zero axis (pygame's `normalize`). */
  function UnitAxis(m: MathLib, axis: Vec2): Vec2
    requires axis.LengthSquared() > 0.0
  {
    axis.Scale(1.0 / m.sqrt(axis.LengthSquared()))
  }

  /** Every vertex of p projects strictly before every vertex of q. */
  predicate AllBefore(axis: Vec2, p: seq<Vec2>, q: seq<Vec2>) {
    forall i, j :: 0 <= i < |p| && 0 <= j < |q| ==> axis.Dot(p[i]) < axis.Dot(q[j])
  }

  /** The interval comparison of the separating-axis test is the vertex-wise one. */
  lemma BeforeIffAllBefore(axis: Vec2, p: seq<Vec2>, q: seq<Vec2>)
    requires |p| > 0 && |q| > 0
    ensures MaxProjection(axis, p) < MinProjection(axis, q) <==> AllBefore(axis, p, q)
  {
    MaxProjectionAttained(axis, p);
    MinProjectionAttained(axis, q);
    var i :| 0 <= i < |p| && MaxProjection(axis, p) == axis.Dot(p[i]);
    var j :| 0 <= j < |q| && MinProjection(axis, q) == axis.Dot(q[j]);
  }

  /** A positive factor on the axis keeps the order of two projections. */
  lemma DotScaleOrder(axis: Vec2, c: real, u: Vec2, v: Vec2)
    requires c > 0.0
    ensures axis.Scale(c).Dot(u) < axis.Scale(c).Dot(v) <==> axis.Dot(u) < axis.Dot(v)
  {
    var a, b := axis.Dot(u), axis.Dot(v);
    assert axis.Scale(c).Dot(u) == c * a;
    assert axis.Scale(c).Dot(v) == c * b;
    MulMonotone(c, a, b);
  }

  lemma AllBeforeScale(axis: Vec2, c: real, p: seq<Vec2>, q: seq<Vec2>)
    requires c > 0.0
    ensures AllBefore(axis.Scale(c), p, q) <==> AllBefore(axis, p, q)
  {
    forall i, j | 0 <= i < |p| && 0 <= j < |q|
      ensures axis.Scale(c).Dot(p[i]) < axis.Scale(c).Dot(q[j]) <==> axis.Dot(p[i]) < axis.Dot(q[j])
    {
      DotScaleOrder(axis, c, p[i], q[j]);
    }
  }

  /** Scaling the axis by a positive factor does not change the verdict. */
  lemma SeparatedScale(axis: Vec2, c: real, p: seq<Vec2>, q: seq<Vec2>)
    requires c > 0.0 && |p| > 0 && |q| > 0
    ensures Separated(axis.Scale(c), p, q) <==> Separated(axis, p, q)
  {
    BeforeIffAllBefore(axis, p, q);
    BeforeIffAllBefore(axis, q, p);
    BeforeIffAllBefore(axis.Scale(c), p, q);
    BeforeIffAllBefore(axis.Scale(c), q, p);
    AllBeforeScale(axis, c, p, q);
    AllBeforeScale(axis, c, q, p);
  }

  /** Negating the axis swaps and negates the projection bounds. */
  lemma ProjectionNegate(axis: Vec2, poly: seq<Vec2>)
    requires |poly| > 0
    ensures MinProjection(axis.Negate(), poly) == -MaxProjection(axis, poly)
    ensures MaxProjection(axis.Negate(), poly) == -MinProjection(axis, poly)
  {
    assert forall k :: 0 <= k < |poly| ==> axis.Negate().Dot(poly[k]) == -axis.Dot(poly[k]);
    var lo, hi := MinProjection(axis, poly), MaxProjection(axis, poly);
    MinProjectionAttained(axis, poly);
    MaxProjectionAttained(axis, poly);
    MinProjectionAttained(axis.Negate(), poly);
    MaxProjectionAttained(axis.Negate(), poly);
    var i :| 0 <= i < |poly| && lo == axis.Dot(poly[i]);
    var i' :| 0 <= i' < |poly| && hi == axis.Dot(poly[i']);
    var nlo, nhi := MinProjection(axis.Negate(), poly), MaxProjection(axis.Negate(), poly);
    var j :| 0 <= j < |poly| && nlo == axis.Negate().Dot(poly[j]);
    var j' :| 0 <= j' < |poly| && nhi == axis.Negate().Dot(poly[j']);
  }

  lemma SeparatedNegate(axis: Vec2, p: seq<Vec2>, q: seq<Vec2>)
    requires |p| > 0 && |q| > 0
    ensures Separated(axis.Negate(), p, q) <==> Separated(axis, p, q)
  {
    ProjectionNegate(axis, p);
    ProjectionNegate(axis, q);
  }

  /** The source's scan over the edges of `poly` from index i, with the axis
      normalised before projecting and zero-length edges skipped: false as
      soon as an axis separates p from q. */
  function ScanEdges(m: MathLib, poly: seq<Vec2>, i: nat, p: seq<Vec2>, q: seq<Vec2>): (r: bool)
    requires i <= |poly| && |p| > 0 && |q| > 0
    ensures r <==> forall j :: i <= j < |poly| ==> !SeparatingEdge(poly, j, p, q)
    decreases |poly| - i
  {
    if i == |poly| then true
    else
      var axis := EdgeNormal(poly, i);
      if axis.LengthSquared() == 0.0 then ScanEdges(m, poly, i + 1, p, q)
      else
        var len := m.sqrt(axis.LengthSquared());
        LengthSquaredNonNegative(axis);
        assert 0.0 < len;
        InversePositive(len);
        SeparatedScale(axis, 1.0 / len, p, q);
        if Separated(UnitAxis(m, axis), p, q) then
          assert SeparatingEdge(poly, i, p, q);
          false
        else ScanEdges(m, poly, i + 1, p, q)
  }

  /** `do_polygons_collide`: the edges of the first polygon, then those of the
      second, are tried as separating axes. */
  function PolygonsCollide(m: MathLib, p: seq<Vec2>, q: seq<Vec2>): (r: bool)
    requires |p| > 0 && |q| > 0
    ensures r <==> Overlap(p, q)
  {
    ScanEdges(m, p, 0, p, q) && ScanEdges(m, q, 0, p, q)
  }

  /** The verdict does not depend on the argument order. */
  lemma PolygonsCollideSymmetric(m: MathLib, p: seq<Vec2>, q: seq<Vec2>)
    requires |p| > 0 && |q| > 0
    ensures PolygonsCollide(m, p, q) == PolygonsCollide(m, q, p)
  {
    forall poly: seq<Vec2>, i: nat
      ensures SeparatingEdge(poly, i, p, q) <==> SeparatingEdge(poly, i, q, p)
    {
    }
  }

  /** A polygon always overlaps itself: equal intervals are never strictly apart. */
  lemma PolygonCollidesWithItself(m: MathLib, p: seq<Vec2>)
    requires |p| > 0
    ensures PolygonsCollide(m, p, p)
  {
    forall axis: Vec2
      ensures !Separated(axis, p, p)
    {
      assert MinProjection(axis, p) <= axis.Dot(p[0]) <= MaxProjection(axis, p);
    }
  }

  /** All vertices of the polygon are the same point. */
  predicate Coincident(p: seq<Vec2>) {
    forall i :: 0 <= i < |p| ==> p[i] == p[0]
  }

  /** Every edge of a polygon whose vertices coincide is skipped, so it is
      never separated by its own edges. */
  lemma CoincidentOwnEdgesNeverSeparate(m: MathLib, p: seq<Vec2>, q: seq<Vec2>)
    requires |p| > 0 && |q| > 0 && Coincident(p)
    ensures ScanEdges(m, p, 0, p, q) && ScanEdges(m, p, 0, q, p)
  {
    forall i: nat | i < |p|
      ensures DegenerateEdge(p, i)
    {
      CoincidentEdgeDegenerate(p, i);
    }
  }

  lemma CoincidentEdgeDegenerate(p: seq<Vec2>, i: nat)
    requires i < |p| && Coincident(p)
    ensures DegenerateEdge(p, i)
  {
    assert p[(i + 1) % |p|] == p[i];
    assert EdgeNormal(p, i) == Vec2(0.0, 0.0);
  }

  /** Consequently two single points at different places are reported as
      colliding: no axis is ever tried. */
  lemma DistinctPointsCollide(m: MathLib, a: Vec2, b: Vec2)
    ensures PolygonsCollide(m, [a], [b])
  {
    CoincidentOwnEdgesNeverSeparate(m, [a], [b]);
    CoincidentOwnEdgesNeverSeparate(m, [b], [a]);
  }

  /** On the axis (-h, 0) with h > 0, a point further right projects lower. */
  lemma HorizontalAxisOrder(h: real, u: Vec2, v: Vec2)
    requires h > 0.0 && u.x < v.x
    ensures Vec2(-h, 0.0).Dot(v) < Vec2(-h, 0.0).Dot(u)
  {
    assert Vec2(-h, 0.0).Dot(u) == -(h * u.x);
    assert Vec2(-h, 0.0).Dot(v) == -(h * v.x);
    MulMonotone(h, u.x, v.x);
  }

  /** Ground truth: two axis-aligned rectangles whose centers are further apart
      along x than the sum of their half-widths do not collide. */
  lemma AxisAlignedApartDoNotCollide(m: MathLib, a: Rect, b: Rect)
    requires m.cosDeg(a.angle) == 1.0 && m.sinDeg(a.angle) == 0.0
    requires m.cosDeg(b.angle) == 1.0 && m.sinDeg(b.angle) == 0.0
    requires a.width > 0.0 && a.height > 0.0 && b.width > 0.0 && b.height > 0.0
    requires b.center.x - a.center.x > (a.width + b.width) / 2.0
    ensures !PolygonsCollide(m, Corners(m, a), Corners(m, b))
  {
    var p, q := Corners(m, a), Corners(m, b);
    var axis := EdgeNormal(p, 1);
    assert axis == Vec2(-a.height, 0.0);
    LengthSquaredPositive(axis);
    var hi := a.center.x + a.width / 2.0;
    var lo' := b.center.x - b.width / 2.0;
    assert forall i :: 0 <= i < 4 ==> p[i].x <= hi;
    assert forall j :: 0 <= j < 4 ==> lo' <= q[j].x;
    forall i, j | 0 <= i < 4 && 0 <= j < 4
      ensures axis.Dot(q[j]) < axis.Dot(p[i])
    {
      HorizontalAxisOrder(a.height, p[i], q[j]);
    }
    BeforeIffAllBefore(axis, q, p);
    assert SeparatingEdge(p, 1, p, q);
  }

  // ---------------------------------------------------------------------
  // Point to segment distance

  /** The point a + t (b - a) of the line through a and b. */
  function PointAt(a: Vec2, b: Vec2, t: real): Vec2 {
    a.Plus(b.Minus(a).Scale(t))
  }

  /** The clamped projection parameter of `point` on the segment [a, b]. */
  function SegmentParameter(point: Vec2, a: Vec2, b: Vec2): (t: real)
    requires a != b
    ensures 0.0 <= t <= 1.0
  {
    var d := b.Minus(a);
    LengthSquaredPositive(d);
    Max(0.0, Min(1.0, point.Minus(a).Dot(d) / d.LengthSquared()))
  }

  /** The point of parameter t is a point of the segment [a, b] nearest to `point`. */
  ghost predicate NearestOnSegment(point: Vec2, a: Vec2, b: Vec2, t: real) {
    && 0.0 <= t <= 1.0
    && forall s :: 0.0 <= s <= 1.0 ==>
         point.Minus(PointAt(a, b, t)).LengthSquared() <= point.Minus(PointAt(a, b, s)).LengthSquared()
  }

  /** `point_to_line_distance`: the distance to `a` for a one-point segment,
      and otherwise the distance to a nearest point of the segment. */
  function PointToSegmentDistance(m: MathLib, point: Vec2, a: Vec2, b: Vec2): (r: real)
    ensures a == b ==> r == Distance(m, point, a)
    ensures a != b ==> exists t :: NearestOnSegment(point, a, b, t) && r == Distance(m, point, PointAt(a, b, t))
  {
    if a == b then Distance(m, point, a)
    else
      var t := SegmentParameter(point, a, b);
      forall s | 0.0 <= s <= 1.0
        ensures point.Minus(PointAt(a, b, t)).LengthSquared() <= point.Minus(PointAt(a, b, s)).LengthSquared()
      {
        SegmentParameterIsNearest(point, a, b, s);
      }
      assert NearestOnSegment(point, a, b, t);
      Distance(m, point, PointAt(a, b, t))
  }

  /** |w - u d|^2 expanded as a quadratic in u. */
  lemma QuadraticExpansion(w: Vec2, d: Vec2, u: real)
    ensures w.Minus(d.Scale(u)).LengthSquared() == w.LengthSquared() - 2.0 * u * w.Dot(d) + u * u * d.LengthSquared()
  {
  }

  /** The clamp of the unconstrained minimiser `star` = wd / dd into [0, 1]
      minimises u^2 dd - 2 u wd over [0, 1] when dd > 0. */
  lemma ClampMinimises(dd: real, wd: real, t: real, s: real)
    requires dd > 0.0 && 0.0 <= s <= 1.0
    requires t == Max(0.0, Min(1.0, wd / dd))
    ensures t * t * dd - 2.0 * t * wd <= s * s * dd - 2.0 * s * wd
  {
    var star := wd / dd;
    assert wd == star * dd;
    var g := (s - t) * (s + t - 2.0 * star);
    if 0.0 <= star <= 1.0 {
      assert g == (s - t) * (s - t);
      ProductNonNegative(s - t, s - t);
    } else {
      ProductNonNegative(s - t, s + t - 2.0 * star);
    }
    ProductNonNegative(g, dd);
    assert (s * s * dd - 2.0 * s * (star * dd)) - (t * t * dd - 2.0 * t * (star * dd)) == g * dd;
  }

  /** The squared distance from `point` to the point of parameter u on the
      line through a and b, as a quadratic in u. */
  lemma LineDistanceExpansion(point: Vec2, a: Vec2, b: Vec2, u: real)
    ensures point.Minus(PointAt(a, b, u)).LengthSquared()
         == point.Minus(a).LengthSquared() - 2.0 * u * point.Minus(a).Dot(b.Minus(a)) + u * u * b.Minus(a).LengthSquared()
  {
    assert point.Minus(PointAt(a, b, u)) == point.Minus(a).Minus(b.Minus(a).Scale(u));
    QuadraticExpansion(point.Minus(a), b.Minus(a), u);
  }

  /** The clamped parameter picks the point of the segment nearest to `point`. */
  lemma SegmentParameterIsNearest(point: Vec2, a: Vec2, b: Vec2, s: real)
    requires a != b && 0.0 <= s <= 1.0
    ensures point.Minus(PointAt(a, b, SegmentParameter(point, a, b))).LengthSquared()
         <= point.Minus(PointAt(a, b, s)).LengthSquared()
  {
    LengthSquaredPositive(b.Minus(a));
    LineDistanceExpansion(point, a, b, SegmentParameter(point, a, b));
    LineDistanceExpansion(point, a, b, s);
    ClampMinimises(b.Minus(a).LengthSquared(), point.Minus(a).Dot(b.Minus(a)), SegmentParameter(point, a, b), s);
  }
}

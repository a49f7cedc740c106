/** The target parking spot: a static oriented rectangle. */
module ParkingSpot {
  import opened Wrappers
  import opened Constants
  import opened RealMath
  import opened Geometry

  /** `ParkingSpot(x, y, width, height, angle)`. The angle has no usable
      default: `float(None)` raises, so a spot built without an angle is an
      error (`None`). */
  function NewSpot(x: real, y: real, width: real, height: real, angle: Option<real>): (r: Option<Rect>)
    ensures r.None? <==> angle.None?
    ensures r.Some? ==> r.value == Rect(Vec2(x, y), angle.value, width, height)
  {
    match angle
    case None => None
    case Some(a) => Some(Rect(Vec2(x, y), a, width, height))
  }

  /** The spot every scenario starts from: `ParkingSpot(x, y, angle=PARK_ANGLE)`. */
  function DefaultSpot(x: real, y: real): (r: Rect)
    ensures NewSpot(x, y, ParkWidth, ParkHeight, Some(ParkAngle)) == Some(r)
  {
    Rect(Vec2(x, y), ParkAngle, ParkWidth, ParkHeight)
  }

  /** `set_center(pos, angle)`: moves the spot; the heading changes only when an
      angle is passed. */
  function SetCenter(spot: Rect, pos: Vec2, angle: Option<real>): (r: Rect)
    ensures r.center == pos
    ensures r.angle == if angle.Some? then angle.value else spot.angle
    ensures r.width == spot.width && r.height == spot.height
  {
    match angle
    case None => spot.(center := pos)
    case Some(a) => spot.(center := pos, angle := a)
  }

  /** Moving without an angle and then back restores the spot. */
  lemma SetCenterBack(spot: Rect, pos: Vec2)
    ensures SetCenter(SetCenter(spot, pos, None), spot.center, None) == spot
  {
  }

  /** Re-centering is idempotent, and only the last call matters. */
  lemma SetCenterLastWins(spot: Rect, p: Vec2, q: Vec2, a: Option<real>, b: Option<real>)
    ensures SetCenter(SetCenter(spot, p, a), q, b) == SetCenter(spot, q, if b.Some? then b else a)
  {
  }

  /** `get_corners`: the four corners, opposite ones symmetric about the center. */
  function SpotCorners(m: MathLib, spot: Rect): (cs: seq<Vec2>)
    ensures |cs| == 4
    ensures cs[0].Plus(cs[2]) == spot.center.Scale(2.0) && cs[1].Plus(cs[3]) == spot.center.Scale(2.0)
  {
    Corners(m, spot)
  }
}

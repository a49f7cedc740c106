/** The manual prototype of the parking game: one car driven either by an
    action number or by the keyboard, reset on any collision, and a parked
    test that folds opposite headings together. Its polygon test normalises
    every edge normal without checking its length, so a zero-length edge is an
    error. */
module Prototype {
  import opened Wrappers
  import opened RealMath
  import opened Constants
  import opened Geometry
  import opened Agent

  /** The player's car: its pose, speed and steering, and the pose `reset`
      returns it to. */
  datatype ManualCar = ManualCar(
    position: Vec2,
    velocity: real,
    angle: real,
    steering: real,
    initialPosition: Vec2,
    initialAngle: real)

  function NewManualCar(position: Vec2, initialAngle: real): (c: ManualCar)
    ensures c.position == c.initialPosition == position
    ensures c.angle == c.initialAngle == initialAngle
    ensures c.velocity == 0.0 && c.steering == 0.0
  {
    ManualCar(position, 0.0, initialAngle, 0.0, position, initialAngle)
  }

  /** `reset`: back to the initial pose, at rest with straight wheels. */
  function Reset(c: ManualCar): (r: ManualCar)
    ensures r.position == c.initialPosition && r.angle == c.initialAngle
    ensures r.velocity == 0.0 && r.steering == 0.0
    ensures r.initialPosition == c.initialPosition && r.initialAngle == c.initialAngle
  {
    c.(position := c.initialPosition, angle := c.initialAngle, velocity := 0.0, steering := 0.0)
  }

  /** Resetting twice is resetting once, and a new car is already reset. */
  lemma ResetIdempotent(c: ManualCar, position: Vec2, angle: real)
    ensures Reset(Reset(c)) == Reset(c)
    ensures Reset(NewManualCar(position, angle)) == NewManualCar(position, angle)
  {
  }

  /** A reset car is the new car built at its initial pose. */
  lemma ResetIsRebuild(c: ManualCar)
    ensures Reset(c) == NewManualCar(c.initialPosition, c.initialAngle)
  {
  }

  // ---------------------------------------------------------------------
  // Controls

  /** What drives the car in a frame: an action number, the four keys W, S, A
      and D, or nothing. */
  datatype Control = Action(action: int) | Keys(w: bool, s: bool, a: bool, d: bool) | Idle

  /** Speed and steering together. */
  datatype Controls = Controls(velocity: real, steering: real)

  predicate InRange(k: Controls) {
    VelocityInRange(k.velocity) && SteeringInRange(k.steering)
  }

  /** The action branch: first the action's own effect, where steering moves
      only while the car moves; then, for actions other than steering, the
      wheels re-centre while the car moves; then, for actions other than
      accelerating and braking, friction. */
  function ActionControls(k: Controls, action: int): (r: Controls)
    ensures InRange(k) ==> InRange(r)
    ensures action == 0 ==> r.velocity <= MaxVelocity
    ensures action == 1 ==> -MaxVelocity / 2.0 <= r.velocity
    ensures action in {2, 3} && k.velocity == 0.0 ==> r == k
    ensures action == 2 && k.velocity != 0.0 ==> r.steering == Max(k.steering - TurnRate, -MaxSteeringAngle)
    ensures action == 3 && k.velocity != 0.0 ==> r.steering == Min(k.steering + TurnRate, MaxSteeringAngle)
    ensures action !in {2, 3} ==>
      var moving := if action in {0, 1, 4} then r.velocity else k.velocity;
      && (moving == 0.0 ==> r.steering == k.steering)
      && (moving != 0.0 ==> Abs(r.steering) == Max(Abs(k.steering) - TurnRate / 2.0, 0.0) && r.steering * k.steering >= 0.0)
    ensures action in {0, 1} ==> r.velocity == Throttle(k.velocity, ActionOf(action as nat))
    ensures action == 4 ==> r.velocity == Throttle(k.velocity, Brake)
    ensures action !in {0, 1, 4} ==> r.velocity == TowardZero(k.velocity, Friction)
  {
    var first :=
      if action == 0 then Controls(Min(k.velocity + AccelerationRate, MaxVelocity), k.steering)
      else if action == 1 then Controls(Max(k.velocity - AccelerationRate, -MaxVelocity / 2.0), k.steering)
      else if action == 2 then
        Controls(k.velocity, if k.velocity != 0.0 then Max(k.steering - TurnRate, -MaxSteeringAngle) else k.steering)
      else if action == 3 then
        Controls(k.velocity, if k.velocity != 0.0 then Min(k.steering + TurnRate, MaxSteeringAngle) else k.steering)
      else if action == 4 then Controls(TowardZero(k.velocity, BrakingRate), k.steering)
      else k;
    var centred :=
      if action !in {2, 3} && first.velocity != 0.0 then first.(steering := TowardZero(first.steering, TurnRate / 2.0))
      else first;
    if action !in {0, 1, 4} then centred.(velocity := TowardZero(centred.velocity, Friction))
    else centred
  }

  /** While the car keeps moving, an action has the same effect as in the
      trainer's car; the variants differ only at standstill. */
  lemma ActionMatchesTrainerWhileMoving(k: Controls, action: int)
    requires 0 <= action < OutputSize
    requires k.velocity != 0.0 && ActionControls(k, action).velocity != 0.0
    ensures ActionControls(k, action) ==
      Controls(Throttle(k.velocity, ActionOf(action as nat)), Steer(k.steering, ActionOf(action as nat)))
  {
  }

  /** At standstill a steering action does nothing, unlike in the trainer's
      car, whose wheels turn even when it stands. */
  lemma StandstillSteeringDiffers(k: Controls)
    requires k.velocity == 0.0 && k.steering == 0.0
    ensures ActionControls(k, 2) == k
    ensures Steer(k.steering, SteerLeft) == -TurnRate
  {
  }

  /** The keyboard branch: W accelerates and S reverses, otherwise friction;
      A and D steer, also at standstill; the wheels re-centre only while the
      car moves. */
  function KeyControls(k: Controls, w: bool, s: bool, a: bool, d: bool): (r: Controls)
    ensures InRange(k) ==> InRange(r)
    ensures w ==> r.velocity == Throttle(k.velocity, Forward)
    ensures !w && s ==> r.velocity == Throttle(k.velocity, Backward)
    ensures !w && !s ==> r.velocity == TowardZero(k.velocity, Friction)
    ensures a ==> r.steering == Steer(k.steering, SteerLeft)
    ensures !a && d ==> r.steering == Steer(k.steering, SteerRight)
    ensures !a && !d && r.velocity == 0.0 ==> r.steering == k.steering
    ensures !a && !d && r.velocity != 0.0 ==> r.steering == TowardZero(k.steering, TurnRate / 2.0)
  {
    var v :=
      if w then Min(k.velocity + AccelerationRate, MaxVelocity)
      else if s then Max(k.velocity - AccelerationRate, -MaxVelocity / 2.0)
      else TowardZero(k.velocity, Friction);
    var steering :=
      if a then Max(k.steering - TurnRate, -MaxSteeringAngle)
      else if d then Min(k.steering + TurnRate, MaxSteeringAngle)
      else if v != 0.0 then TowardZero(k.steering, TurnRate / 2.0)
      else k.steering;
    Controls(v, steering)
  }

  /** The prototype's kinematic step: the heading turns first, when the car
      both steers and moves, and the car then advances along the new heading. */
  function Move(m: MathLib, position: Vec2, angle: real, k: Controls): (r: Pose)
    requires SteeringInRange(k.steering)
    ensures k.steering == 0.0 || k.velocity == 0.0 ==> r.angle == angle
    ensures k.steering != 0.0 && k.velocity != 0.0 ==> 0.0 <= r.angle < 360.0
    ensures r.position == position.Plus(Displacement(m, r.angle, k.velocity))
  {
    var heading := if k.steering != 0.0 && k.velocity != 0.0 then Mod360(angle + Turn(m, k.velocity, k.steering)) else angle;
    Pose(position.Plus(Displacement(m, heading, k.velocity)), heading)
  }

  /** A car at rest stays where it is. */
  lemma AtRestStaysPut(m: MathLib, position: Vec2, angle: real, steering: real)
    requires SteeringInRange(steering)
    ensures Move(m, position, angle, Controls(0.0, steering)) == Pose(position, angle)
  {
  }

  /** `update(pressed_keys, action)`: an action takes precedence over keys. */
  function Update(m: MathLib, c: ManualCar, control: Control): (r: ManualCar)
    requires SteeringInRange(c.steering)
    ensures SteeringInRange(r.steering)
    ensures VelocityInRange(c.velocity) ==> VelocityInRange(r.velocity)
    ensures r.initialPosition == c.initialPosition && r.initialAngle == c.initialAngle
    ensures control.Action? ==> Controls(r.velocity, r.steering) == ActionControls(Controls(c.velocity, c.steering), control.action)
    ensures control.Keys? ==>
      Controls(r.velocity, r.steering) == KeyControls(Controls(c.velocity, c.steering), control.w, control.s, control.a, control.d)
    ensures control == Idle ==> r.velocity == c.velocity && r.steering == c.steering
    ensures Pose(r.position, r.angle) == Move(m, c.position, c.angle, Controls(r.velocity, r.steering))
    ensures r.steering == 0.0 || r.velocity == 0.0 ==> r.angle == c.angle
    ensures r.steering != 0.0 && r.velocity != 0.0 ==> 0.0 <= r.angle < 360.0
  {
    var k := Controls(c.velocity, c.steering);
    var k' := match control
      case Action(action) => ActionControls(k, action)
      case Keys(w, s, a, d) => KeyControls(k, w, s, a, d)
      case Idle => k;
    var pose := Move(m, c.position, c.angle, k');
    c.(velocity := k'.velocity, steering := k'.steering, position := pose.position, angle := pose.angle)
  }

  // ---------------------------------------------------------------------
  // Polygon test without the zero-length guard

  /** The normal this variant uses, (dy, -dx): the opposite of the shared one. */
  function PrototypeNormal(poly: seq<Vec2>, i: nat): (n: Vec2)
    requires i < |poly|
    ensures n == EdgeNormal(poly, i).Negate()
    ensures n.LengthSquared() == EdgeNormal(poly, i).LengthSquared()
  {
    var e := poly[(i + 1) % |poly|].Minus(poly[i]);
    Vec2(e.y, -e.x)
  }

  /** The normalised normal separates exactly when the shared normal of the
      same edge does. */
  lemma PrototypeAxisAgrees(m: MathLib, poly: seq<Vec2>, i: nat, p: seq<Vec2>, q: seq<Vec2>)
    requires i < |poly| && |p| > 0 && |q| > 0 && !DegenerateEdge(poly, i)
    ensures PrototypeNormal(poly, i).LengthSquared() > 0.0
    ensures Separated(UnitAxis(m, PrototypeNormal(poly, i)), p, q) <==> Separated(EdgeNormal(poly, i), p, q)
  {
    var n := PrototypeNormal(poly, i);
    LengthSquaredNonNegative(n);
    var len := m.sqrt(n.LengthSquared());
    assert 0.0 < len;
    InversePositive(len);
    SeparatedScale(n, 1.0 / len, p, q);
    SeparatedNegate(EdgeNormal(poly, i), p, q);
  }

  /** The edge scan from index i: `None` when `normalize` fails on a
      zero-length edge reached before any separating one. */
  function UnguardedScan(m: MathLib, poly: seq<Vec2>, i: nat, p: seq<Vec2>, q: seq<Vec2>): (r: Option<bool>)
    requires i <= |poly| && |p| > 0 && |q| > 0
    ensures r.Some? ==> (r.value <==> forall j :: i <= j < |poly| ==> !SeparatingEdge(poly, j, p, q))
    ensures r.None? ==> exists j :: i <= j < |poly| && DegenerateEdge(poly, j)
    ensures (forall j :: i <= j < |poly| ==> !DegenerateEdge(poly, j)) ==> r.Some?
    decreases |poly| - i
  {
    if i == |poly| then Some(true)
    else
      var axis := PrototypeNormal(poly, i);
      if axis.LengthSquared() == 0.0 then
        assert DegenerateEdge(poly, i);
        None
      else
        PrototypeAxisAgrees(m, poly, i, p, q);
        if Separated(UnitAxis(m, axis), p, q) then
          assert SeparatingEdge(poly, i, p, q);
          Some(false)
        else UnguardedScan(m, poly, i + 1, p, q)
  }

  /** No edge of the polygon has zero length. */
  ghost predicate NoDegenerateEdge(poly: seq<Vec2>) {
    forall j :: 0 <= j < |poly| ==> !DegenerateEdge(poly, j)
  }

  /** This variant's `do_polygons_collide`: the first polygon's edges, then the
      second's. Whenever it answers, it answers as the guarded test does. */
  function UnguardedCollide(m: MathLib, p: seq<Vec2>, q: seq<Vec2>): (r: Option<bool>)
    requires |p| > 0 && |q| > 0
    ensures r.Some? ==> r.value == PolygonsCollide(m, p, q)
    ensures NoDegenerateEdge(p) && NoDegenerateEdge(q) ==> r == Some(PolygonsCollide(m, p, q))
    ensures r.None? ==> !NoDegenerateEdge(p) || !NoDegenerateEdge(q)
  {
    match UnguardedScan(m, p, 0, p, q)
    case None => None
    case Some(first) => if first then UnguardedScan(m, q, 0, p, q) else Some(false)
  }

  /** A single point's only edge has zero length, so the scan fails at once. */
  lemma FirstEdgeFails(m: MathLib, poly: seq<Vec2>, p: seq<Vec2>, q: seq<Vec2>)
    requires |poly| == 1 && |p| > 0 && |q| > 0
    ensures UnguardedScan(m, poly, 0, p, q) == None
  {
    assert (0 + 1) % |poly| == 0;
    assert PrototypeNormal(poly, 0) == Vec2(0.0, 0.0);
  }

  /** Two single points make this variant fail on the first point's
      zero-length edge, where the guarded test reports a collision. */
  lemma SinglePointsFail(m: MathLib, a: Vec2, b: Vec2)
    ensures UnguardedCollide(m, [a], [b]) == None
    ensures PolygonsCollide(m, [a], [b])
  {
    FirstEdgeFails(m, [a], [a], [b]);
    DistinctPointsCollide(m, a, b);
  }

  /** With a consistent sine and cosine, a rectangle with positive sides has no
      zero-length edge, so the variant always answers for two of them. */
  lemma RectanglesNeverFail(m: MathLib, a: Rect, b: Rect)
    requires a.width > 0.0 && a.height > 0.0 && b.width > 0.0 && b.height > 0.0
    requires Pythagorean(m, a.angle)
    requires Pythagorean(m, b.angle)
    ensures UnguardedCollide(m, Corners(m, a), Corners(m, b)) == Some(PolygonsCollide(m, Corners(m, a), Corners(m, b)))
  {
    RectangleEdgesNonDegenerate(m, a);
    RectangleEdgesNonDegenerate(m, b);
  }

  lemma RectangleEdgesNonDegenerate(m: MathLib, r: Rect)
    requires r.width > 0.0 && r.height > 0.0
    requires Pythagorean(m, r.angle)
    ensures NoDegenerateEdge(Corners(m, r))
  {
    var cs := Corners(m, r);
    CornersSideLengths(m, r);
    EdgeNonDegenerate(cs, 0, r.width);
    EdgeNonDegenerate(cs, 1, r.height);
    EdgeNonDegenerate(cs, 2, r.width);
    EdgeNonDegenerate(cs, 3, r.height);
    forall j | 0 <= j < 4 ensures !DegenerateEdge(cs, j) {
      assert j == 0 || j == 1 || j == 2 || j == 3;
    }
  }

  /** An edge of non-zero length has a normal of non-zero length. */
  lemma EdgeNonDegenerate(poly: seq<Vec2>, i: nat, side: real)
    requires i < |poly|
    requires side != 0.0
    requires poly[(i + 1) % |poly|].Minus(poly[i]).LengthSquared() == side * side
    ensures !DegenerateEdge(poly, i)
  {
    var e := poly[(i + 1) % |poly|].Minus(poly[i]);
    calc {
      EdgeNormal(poly, i).LengthSquared();
      == (-e.y) * (-e.y) + e.x * e.x;
      == e.LengthSquared();
      == side * side;
      > { SquarePositive(side); } 0.0;
    }
  }

  // ---------------------------------------------------------------------
  // The parked test

  /** `angle % 360`, then moved into (-180, 180]: the shared angle folding. */
  function FoldAngle(angle: real): (r: real)
    ensures r == NormalizeAngle(angle)
  {
    var a := Mod360(angle);
    if a > 180.0 then a - 360.0 else a
  }

  /** The heading difference of the parked test: headings about half a turn
      or a full turn apart count as aligned, since a car may park either way
      round. */
  function ParkedAngleDifference(carAngle: real, spotAngle: real): (r: real)
    ensures 0.0 <= r < 360.0
  {
    var d := Abs(FoldAngle(carAngle) - FoldAngle(spotAngle));
    if 170.0 < d < 190.0 then Abs(d - 180.0)
    else if 350.0 < d < 370.0 then Abs(d - 360.0)
    else d
  }

  /** Headings exactly half a turn apart are perfectly aligned. */
  lemma OppositeHeadingsAligned(carAngle: real, spotAngle: real)
    requires IsIntegral((carAngle - spotAngle - 180.0) / 360.0)
    ensures ParkedAngleDifference(carAngle, spotAngle) == 0.0
  {
    var fa, fb := NormalizeAngle(carAngle), NormalizeAngle(spotAngle);
    var k := (fa - fb - 180.0) / 360.0;
    assert k == (carAngle - spotAngle - 180.0) / 360.0 - (carAngle - fa) / 360.0 + (spotAngle - fb) / 360.0;
    IntegralDifference((carAngle - spotAngle - 180.0) / 360.0, (carAngle - fa) / 360.0);
    IntegralSum((carAngle - spotAngle - 180.0) / 360.0 - (carAngle - fa) / 360.0, (spotAngle - fb) / 360.0);
    assert -2.0 < k < 1.0;
    assert k == 0.0 || k == -1.0;
  }

  /** Equal headings, up to whole turns, are perfectly aligned. */
  lemma EqualHeadingsAligned(carAngle: real, spotAngle: real)
    requires IsIntegral((carAngle - spotAngle) / 360.0)
    ensures ParkedAngleDifference(carAngle, spotAngle) == 0.0
  {
    Mod360Periodic(carAngle, spotAngle);
  }

  /** Headings equal or opposite, up to whole turns, are perfectly aligned. */
  lemma HeadingsAligned(carAngle: real, spotAngle: real)
    requires IsIntegral((carAngle - spotAngle) / 360.0) || IsIntegral((carAngle - spotAngle - 180.0) / 360.0)
    ensures ParkedAngleDifference(carAngle, spotAngle) == 0.0
  {
    if IsIntegral((carAngle - spotAngle) / 360.0) {
      EqualHeadingsAligned(carAngle, spotAngle);
    } else {
      OppositeHeadingsAligned(carAngle, spotAngle);
    }
  }

  /** The parked test of a frame. `corners` are the car's corners as computed
      before the frame's collision resets, as in the source. The overlap test
      is only run when the car is close enough, and may fail. */
  function ParkedCheck(m: MathLib, c: ManualCar, corners: seq<Vec2>, spot: Rect): (r: Option<bool>)
    requires |corners| > 0
    ensures r == Some(true) ==>
      && Distance(m, c.position, spot.center) < CarWidth * 0.75
      && ParkedAngleDifference(c.angle, spot.angle) < ParkingMaxAngleDiff
      && Abs(c.velocity) < ParkingMinVelocity
      && Distance(m, c.position, spot.center) < Max(spot.width, spot.height) * 0.7
      && PolygonsCollide(m, corners, Corners(m, spot))
    ensures r.None? ==> Distance(m, c.position, spot.center) < Max(spot.width, spot.height) * 0.7
    ensures Distance(m, c.position, spot.center) >= Max(spot.width, spot.height) * 0.7 ==> r == Some(false)
  {
    var dist := Distance(m, c.position, spot.center);
    var inSpot :=
      if dist < Max(spot.width, spot.height) * 0.7 then UnguardedCollide(m, corners, Corners(m, spot))
      else Some(false);
    match inSpot
    case None => None
    case Some(overlap) =>
      Some(overlap && ParkedAngleDifference(c.angle, spot.angle) < ParkingMaxAngleDiff
           && Abs(c.velocity) < ParkingMinVelocity && dist < CarWidth * 0.75)
  }

  /** For the car's body and the spot, the variant's overlap test answers. */
  lemma OverlapAnswered(m: MathLib, c: ManualCar, spot: Rect)
    requires Pythagorean(m, c.angle) && Pythagorean(m, spot.angle)
    requires spot.width > 0.0 && spot.height > 0.0
    ensures var corners := Corners(m, Rect(c.position, c.angle, CarWidth, CarHeight));
      UnguardedCollide(m, corners, Corners(m, spot)) == Some(PolygonsCollide(m, corners, Corners(m, spot)))
  {
    RectanglesNeverFail(m, Rect(c.position, c.angle, CarWidth, CarHeight), spot);
  }

  /** A car whose body overlaps the spot, that is close to its center,
      nearly aligned with it and slow, is parked: for two rectangles the
      overlap test does not fail. */
  lemma ParkedWhenAllHold(m: MathLib, c: ManualCar, spot: Rect)
    requires Pythagorean(m, c.angle) && Pythagorean(m, spot.angle)
    requires spot.width > 0.0 && spot.height > 0.0
    requires PolygonsCollide(m, Corners(m, Rect(c.position, c.angle, CarWidth, CarHeight)), Corners(m, spot))
    requires Distance(m, c.position, spot.center) < CarWidth * 0.75
    requires Distance(m, c.position, spot.center) < Max(spot.width, spot.height) * 0.7
    requires ParkedAngleDifference(c.angle, spot.angle) < ParkingMaxAngleDiff
    requires Abs(c.velocity) < ParkingMinVelocity
    ensures ParkedCheck(m, c, Corners(m, Rect(c.position, c.angle, CarWidth, CarHeight)), spot) == Some(true)
  {
    OverlapAnswered(m, c, spot);
  }

  /** With the car at the spot's exact heading or the opposite one, at rest,
      close to the center and overlapping it, the car is parked. */
  lemma ParkedEitherWayRound(m: MathLib, c: ManualCar, spot: Rect)
    requires Pythagorean(m, c.angle) && Pythagorean(m, spot.angle)
    requires spot.width > 0.0 && spot.height > 0.0
    requires IsIntegral((c.angle - spot.angle) / 360.0) || IsIntegral((c.angle - spot.angle - 180.0) / 360.0)
    requires c.velocity == 0.0
    requires PolygonsCollide(m, Corners(m, Rect(c.position, c.angle, CarWidth, CarHeight)), Corners(m, spot))
    requires Distance(m, c.position, spot.center) < CarWidth * 0.75
    requires Distance(m, c.position, spot.center) < Max(spot.width, spot.height) * 0.7
    ensures ParkedCheck(m, c, Corners(m, Rect(c.position, c.angle, CarWidth, CarHeight)), spot) == Some(true)
  {
    HeadingsAligned(c.angle, spot.angle);
    ParkedWhenAllHold(m, c, spot);
  }
}

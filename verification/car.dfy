/** A learning car: its observation, its five-way action dispatch, the
    kinematic step, the collision check and the reward-shaping state machine.
    The car's controller is a `NeuralNetwork.Network`; obstacles and the
    parking spot are static `Geometry.Rect`s. */
module Agent {
  import opened RealMath
  import opened Constants
  import opened Geometry
  import opened NeuralNetwork

  /** Ticks a car may spend below the stop speed before it is penalised. */
  const StoppedThreshold: int := Fps * 2

  /** The speed under which a car counts as stopped, and the dead band of the
      kinematic update. */
  const StopSpeed: real := 0.1

  /** The state of one car. `prevDistance` is the distance to the spot at the
      previous reward computation. */
  datatype Car = Car(
    position: Vec2,
    velocity: real,
    angle: real,
    steering: real,
    stoppedTimer: nat,
    brain: Network,
    reward: real,
    active: bool,
    collided: bool,
    parked: bool,
    prevDistance: real)

  /** `Car(x, y, initial_angle, brain=brain)`: at rest, straight wheels, active,
      no reward yet. The trainer sets the previous distance right after
      construction, so it is a parameter here. */
  function NewCar(position: Vec2, initialAngle: real, brain: Network, prevDistance: real): (c: Car)
    ensures c.position == position && c.angle == initialAngle && c.brain == brain
    ensures c.velocity == 0.0 && c.steering == 0.0 && c.stoppedTimer == 0
    ensures c.reward == 0.0 && c.active && !c.collided && !c.parked
    ensures c.prevDistance == prevDistance
  {
    Car(position, 0.0, initialAngle, 0.0, 0, brain, 0.0, true, false, false, prevDistance)
  }

  // ---------------------------------------------------------------------
  // Bodies

  /** The car's body as an oriented rectangle. */
  function Body(c: Car): Rect {
    Rect(c.position, c.angle, CarWidth, CarHeight)
  }

  /** `get_corners`: the body's four corners, symmetric about the position. */
  function CarCorners(m: MathLib, c: Car): (cs: seq<Vec2>)
    ensures |cs| == 4
    ensures cs[0].Plus(cs[2]) == c.position.Scale(2.0) && cs[1].Plus(cs[3]) == c.position.Scale(2.0)
  {
    Corners(m, Body(c))
  }

  /** With a consistent sine and cosine, the corners span a CAR_WIDTH by
      CAR_HEIGHT rectangle. */
  lemma CarCornersSpanTheBody(m: MathLib, c: Car)
    requires Pythagorean(m, c.angle)
    ensures var cs := CarCorners(m, c);
      && cs[1].Minus(cs[0]).LengthSquared() == CarWidth * CarWidth
      && cs[2].Minus(cs[1]).LengthSquared() == CarHeight * CarHeight
  {
    CornersSideLengths(m, Body(c));
  }

  /** An obstacle car: a static rectangle of OBSTACLE_WIDTH by OBSTACLE_HEIGHT. */
  function ObstacleBody(position: Vec2, angle: real): (r: Rect)
    ensures r.width == ObstacleWidth && r.height == ObstacleHeight
    ensures r.center == position && r.angle == angle
  {
    Rect(position, angle, ObstacleWidth, ObstacleHeight)
  }

  // ---------------------------------------------------------------------
  // Observation

  /** `get_state`: velocity, heading and steering scaled to about [-1, 1], the
      offset to the spot as a fraction of the screen, the heading difference to
      the spot, and the distances to the four screen borders as fractions. */
  function GetState(c: Car, spot: Rect): (s: seq<real>)
    ensures |s| == InputSize
    ensures -1.0 < s[1] <= 1.0 && -1.0 < s[5] <= 1.0
    ensures s[6] + s[7] == 1.0 && s[8] + s[9] == 1.0
  {
    [c.velocity / MaxVelocity,
     NormalizeAngle(c.angle) / 180.0,
     c.steering / MaxSteeringAngle,
     (spot.center.x - c.position.x) / ScreenWidth,
     (spot.center.y - c.position.y) / ScreenHeight,
     NormalizeAngle(spot.angle - c.angle) / 180.0,
     c.position.x / ScreenWidth,
     (ScreenWidth - c.position.x) / ScreenWidth,
     c.position.y / ScreenHeight,
     (ScreenHeight - c.position.y) / ScreenHeight]
  }

  /** The observation determines the car's position and the spot's center. */
  lemma StateRecoversPositions(c: Car, spot: Rect)
    ensures var s := GetState(c, spot);
      && c.position == Vec2(s[6] * ScreenWidth, s[8] * ScreenHeight)
      && spot.center == Vec2((s[3] + s[6]) * ScreenWidth, (s[4] + s[8]) * ScreenHeight)
  {
  }

  /** A car on the screen sees all four border entries within [0, 1], and
      conversely. */
  lemma StateOnScreen(c: Car, spot: Rect)
    ensures var s := GetState(c, spot);
      (0.0 <= c.position.x <= ScreenWidth && 0.0 <= c.position.y <= ScreenHeight)
      <==> (forall k :: 6 <= k < 10 ==> 0.0 <= s[k] <= 1.0)
  {
  }

  /** Speed and steering within their limits give entries within [-1, 1]. */
  lemma StateBounded(c: Car, spot: Rect)
    requires VelocityInRange(c.velocity) && SteeringInRange(c.steering)
    ensures var s := GetState(c, spot);
      -1.0 <= s[0] <= 1.0 && -1.0 <= s[2] <= 1.0
  {
  }

  // ---------------------------------------------------------------------
  // Action choice

  /** `np.argmax`: the index of a maximal score; on ties, the lowest one. */
  function ArgMax(s: seq<real>): (i: nat)
    requires |s| > 0
    ensures i < |s|
    ensures forall j :: 0 <= j < |s| ==> s[j] <= s[i]
    ensures forall j :: 0 <= j < i ==> s[j] < s[i]
  {
    if |s| == 1 then 0
    else
      var k := ArgMax(s[..|s| - 1]);
      if s[|s| - 1] > s[k] then |s| - 1 else k
  }

  /** The first maximal index is unique: any index with both properties is
      the one `ArgMax` returns. */
  lemma ArgMaxUnique(s: seq<real>, i: nat)
    requires i < |s|
    requires forall j :: 0 <= j < |s| ==> s[j] <= s[i]
    requires forall j :: 0 <= j < i ==> s[j] < s[i]
    ensures ArgMax(s) == i
  {
    var k := ArgMax(s);
    assert s[k] == s[i];
  }

  /** The five actions, in score order. */
  datatype Action = Forward | Backward | SteerLeft | SteerRight | Brake

  function ActionOf(i: nat): (a: Action)
    requires i < OutputSize
    ensures ActionIndex(a) == i
  {
    if i == 0 then Forward
    else if i == 1 then Backward
    else if i == 2 then SteerLeft
    else if i == 3 then SteerRight
    else Brake
  }

  function ActionIndex(a: Action): (i: nat)
    ensures i < OutputSize
  {
    match a
    case Forward => 0
    case Backward => 1
    case SteerLeft => 2
    case SteerRight => 3
    case Brake => 4
  }

  /** Numbering the actions and reading them back is the identity. */
  lemma ActionRoundTrip(a: Action)
    ensures ActionOf(ActionIndex(a)) == a
  {
  }

  /** The action the car's network chooses: the first best-scoring one. */
  function Decide(m: MathLib, c: Car, spot: Rect): (a: Action)
    requires WellShaped(c.brain)
    ensures var scores := Feedforward(m, c.brain, GetState(c, spot));
      && (forall j :: 0 <= j < |scores| ==> scores[j] <= scores[ActionIndex(a)])
      && (forall j :: 0 <= j < ActionIndex(a) ==> scores[j] < scores[ActionIndex(a)])
  {
    ActionOf(ArgMax(Feedforward(m, c.brain, GetState(c, spot))))
  }

  // ---------------------------------------------------------------------
  // Speed and steering

  /** Speed limits: full speed forward, half of it in reverse. */
  predicate VelocityInRange(v: real) { -MaxVelocity / 2.0 <= v <= MaxVelocity }

  predicate SteeringInRange(s: real) { -MaxSteeringAngle <= s <= MaxSteeringAngle }

  /** Moves a value toward zero by `step`, stopping at zero. */
  function TowardZero(x: real, step: real): (r: real)
    requires 0.0 < step
    ensures 0.0 <= x ==> 0.0 <= r <= x
    ensures x <= 0.0 ==> x <= r <= 0.0
    ensures Abs(r) == Max(Abs(x) - step, 0.0)
  {
    if Abs(x) > step then x - CopySign(step, x) else 0.0
  }

  /** `n` applications of `TowardZero`. */
  function Decay(x: real, step: real, n: nat): real
    requires 0.0 < step
  {
    if n == 0 then x else TowardZero(Decay(x, step, n - 1), step)
  }

  /** Decaying n times shortens the value by n steps, down to zero. */
  lemma DecayMagnitude(x: real, step: real, n: nat)
    requires 0.0 < step
    ensures Abs(Decay(x, step, n)) == Max(Abs(x) - n as real * step, 0.0)
  {
    DecayShortens(x, step, n, n as real * step);
  }

  /** The induction behind `DecayMagnitude`, with the n steps' total length
      named `total` so that the inductive step stays linear. */
  lemma {:induction false} DecayShortens(x: real, step: real, n: nat, total: real)
    requires 0.0 < step && total == n as real * step
    ensures Abs(Decay(x, step, n)) == Max(Abs(x) - total, 0.0)
  {
    if n > 0 {
      OneStepLess(n, step);
      DecayShortens(x, step, n - 1, total - step);
      MaxStep(Abs(x), total - step, step);
    }
  }

  /** n - 1 steps are one step short of n steps. */
  lemma OneStepLess(n: nat, step: real)
    requires n > 0
    ensures (n - 1) as real * step == n as real * step - step
  {
    var k := (n - 1) as real;
    assert n as real == k + 1.0;
    assert (k + 1.0) * step == k * step + step;
  }

  /** Two decrements, each floored at zero, are one decrement by their sum. */
  lemma MaxStep(a: real, b: real, step: real)
    requires 0.0 < step
    ensures Max(Max(a - b, 0.0) - step, 0.0) == Max(a - (b + step), 0.0)
  {
  }

  /** Once enough steps have been taken the value is zero. */
  lemma DecayReachesZero(x: real, step: real, n: nat)
    requires 0.0 < step && Abs(x) <= n as real * step
    ensures Decay(x, step, n) == 0.0
  {
    DecayMagnitude(x, step, n);
  }

  /** The speed after an action. */
  function Throttle(v: real, a: Action): (r: real)
    ensures VelocityInRange(v) ==> VelocityInRange(r)
    ensures a == Forward ==> r <= MaxVelocity && (r == v + AccelerationRate || r == MaxVelocity)
    ensures a == Forward && v <= MaxVelocity - AccelerationRate ==> r == v + AccelerationRate
    ensures a == Backward ==> -MaxVelocity / 2.0 <= r && (r == v - AccelerationRate || r == -MaxVelocity / 2.0)
    ensures a == Backward && -MaxVelocity / 2.0 + AccelerationRate <= v ==> r == v - AccelerationRate
    ensures a == Brake ==> Abs(r) == Max(Abs(v) - BrakingRate, 0.0) && r * v >= 0.0
    ensures a in {SteerLeft, SteerRight} ==> Abs(r) == Max(Abs(v) - Friction, 0.0) && r * v >= 0.0
  {
    match a
    case Forward => Min(v + AccelerationRate, MaxVelocity)
    case Backward => Max(v - AccelerationRate, -MaxVelocity / 2.0)
    case Brake => TowardZero(v, BrakingRate)
    case _ => TowardZero(v, Friction)
  }

  /** The steering angle after an action. */
  function Steer(s: real, a: Action): (r: real)
    ensures SteeringInRange(s) ==> SteeringInRange(r)
    ensures a == SteerLeft ==> -MaxSteeringAngle <= r && (r == s - TurnRate || r == -MaxSteeringAngle)
    ensures a == SteerLeft && -MaxSteeringAngle + TurnRate <= s ==> r == s - TurnRate
    ensures a == SteerRight ==> r <= MaxSteeringAngle && (r == s + TurnRate || r == MaxSteeringAngle)
    ensures a == SteerRight && s <= MaxSteeringAngle - TurnRate ==> r == s + TurnRate
    ensures a !in {SteerLeft, SteerRight} ==> Abs(r) == Max(Abs(s) - TurnRate / 2.0, 0.0) && r * s >= 0.0
  {
    match a
    case SteerLeft => Max(s - TurnRate, -MaxSteeringAngle)
    case SteerRight => Min(s + TurnRate, MaxSteeringAngle)
    case _ => TowardZero(s, TurnRate / 2.0)
  }

  // ---------------------------------------------------------------------
  // Stopped timer

  /** The stopped timer after a tick at speed `v`. The comparison is on the
      signed speed, so reversing counts as being stopped. */
  function NextTimer(timer: nat, v: real): (r: nat)
    ensures v < StopSpeed ==> r == timer + 1
    ensures v >= StopSpeed ==> r == 0
  {
    if v < StopSpeed then timer + 1 else 0
  }

  /** The timer after a run of ticks at the given speeds, oldest first. */
  function TimerAfter(timer: nat, speeds: seq<real>): nat {
    if speeds == [] then timer else NextTimer(TimerAfter(timer, speeds[..|speeds| - 1]), speeds[|speeds| - 1])
  }

  /** The number of trailing speeds that are below the stop speed. */
  function SlowSuffix(speeds: seq<real>): (n: nat)
    ensures n <= |speeds|
    ensures forall k :: |speeds| - n <= k < |speeds| ==> speeds[k] < StopSpeed
    ensures n < |speeds| ==> speeds[|speeds| - n - 1] >= StopSpeed
  {
    if speeds == [] || speeds[|speeds| - 1] >= StopSpeed then 0
    else SlowSuffix(speeds[..|speeds| - 1]) + 1
  }

  /** The timer counts the ticks since the last one at or above the stop
      speed, or keeps counting from its start value when there was none. */
  lemma {:induction false} TimerCountsSlowSuffix(timer: nat, speeds: seq<real>)
    ensures TimerAfter(timer, speeds) ==
      if SlowSuffix(speeds) == |speeds| then timer + |speeds| else SlowSuffix(speeds)
  {
    if speeds != [] {
      TimerCountsSlowSuffix(timer, speeds[..|speeds| - 1]);
    }
  }

  // ---------------------------------------------------------------------
  // Kinematics

  /** Where a car is and where it points. */
  datatype Pose = Pose(position: Vec2, angle: real)

  /** One tick of travel at speed `v` along heading `angle`; screen y grows
      downward, so heading 0 points up. */
  function Displacement(m: MathLib, angle: real, v: real): Vec2 {
    Vec2(v * m.sinDeg(angle), -(v * m.cosDeg(angle)))
  }

  /** The heading change of the simplified bicycle model: the speed over the
      turning radius `L / tan(steering)`, in degrees, with L the car's length. */
  function Turn(m: MathLib, v: real, s: real): real
    requires SteeringInRange(s) && s != 0.0
  {
    var t := m.tanDeg(s);
    assert t != 0.0;
    assert CarHeight / t != 0.0;
    m.degrees(v / (CarHeight / t))
  }

  /** The kinematic step: the car moves only above the stop speed, along its
      old heading, and turns only when it also steers by more than the dead
      band; the new heading is reduced to [0, 360). */
  function Drive(m: MathLib, p: Pose, v: real, s: real): (r: Pose)
    requires SteeringInRange(s)
    ensures Abs(v) <= StopSpeed ==> r == p
    ensures Abs(v) > StopSpeed ==> r.position == p.position.Plus(Displacement(m, p.angle, v))
    ensures Abs(s) <= StopSpeed ==> r.angle == p.angle
    ensures Abs(v) > StopSpeed && Abs(s) > StopSpeed ==>
      0.0 <= r.angle < 360.0 && IsIntegral((p.angle + Turn(m, v, s) - r.angle) / 360.0)
  {
    if Abs(v) > StopSpeed then
      var position := p.position.Plus(Displacement(m, p.angle, v));
      if Abs(s) > StopSpeed then Pose(position, Mod360(p.angle + Turn(m, v, s)))
      else Pose(position, p.angle)
    else p
  }

  /** Driving straight and then back at the opposite speed returns to the
      starting pose. */
  lemma DriveStraightIsReversible(m: MathLib, p: Pose, v: real, s: real)
    requires SteeringInRange(s) && Abs(s) <= StopSpeed
    ensures Drive(m, Drive(m, p, v, s), -v, s) == p
  {
  }

  /** Turning the same amount at whole-turn-apart headings gives the same new
      heading. */
  lemma DriveHeadingPeriodic(m: MathLib, p: Pose, q: Pose, v: real, s: real)
    requires SteeringInRange(s) && Abs(v) > StopSpeed && Abs(s) > StopSpeed
    requires IsIntegral((p.angle - q.angle) / 360.0)
    ensures Drive(m, p, v, s).angle == Drive(m, q, v, s).angle
  {
    var t := Turn(m, v, s);
    assert (p.angle + t - (q.angle + t)) / 360.0 == (p.angle - q.angle) / 360.0;
    Mod360Periodic(p.angle + t, q.angle + t);
  }

  /** With a consistent sine and cosine, one tick covers exactly |v|. */
  lemma DisplacementLength(m: MathLib, angle: real, v: real)
    requires Pythagorean(m, angle)
    ensures Displacement(m, angle, v).LengthSquared() == v * v
  {
    var sn, cs := m.sinDeg(angle), m.cosDeg(angle);
    calc {
      Displacement(m, angle, v).LengthSquared();
      (v * sn) * (v * sn) + (-(v * cs)) * (-(v * cs));
      { ScaledSquares(v, sn, cs); }
      (v * v) * (sn * sn + cs * cs);
      v * v;
    }
  }

  lemma ScaledSquares(v: real, a: real, b: real)
    ensures (v * a) * (v * a) + (-(v * b)) * (-(v * b)) == (v * v) * (a * a + b * b)
  {
  }

  // ---------------------------------------------------------------------
  // One step of the car

  /** `update`: an inactive car is left alone; otherwise the network's chosen
      action sets speed and steering, then the timer and the pose advance. */
  function Update(m: MathLib, c: Car, spot: Rect): (r: Car)
    requires c.active ==> WellShaped(c.brain) && SteeringInRange(c.steering)
    ensures !c.active ==> r == c
    ensures r.brain == c.brain && r.reward == c.reward && r.prevDistance == c.prevDistance
    ensures r.active == c.active && r.collided == c.collided && r.parked == c.parked
    ensures SteeringInRange(c.steering) ==> SteeringInRange(r.steering)
    ensures VelocityInRange(c.velocity) ==> VelocityInRange(r.velocity)
    ensures c.active ==> var a := Decide(m, c, spot);
      && r.velocity == Throttle(c.velocity, a) && r.steering == Steer(c.steering, a)
      && r.stoppedTimer == NextTimer(c.stoppedTimer, r.velocity)
      && Pose(r.position, r.angle) == Drive(m, Pose(c.position, c.angle), r.velocity, r.steering)
    ensures Abs(r.velocity) <= StopSpeed ==> r.position == c.position && r.angle == c.angle
  {
    if !c.active then c
    else
      var a := Decide(m, c, spot);
      var v := Throttle(c.velocity, a);
      var s := Steer(c.steering, a);
      var pose := Drive(m, Pose(c.position, c.angle), v, s);
      c.(velocity := v, steering := s, stoppedTimer := NextTimer(c.stoppedTimer, v),
         position := pose.position, angle := pose.angle)
  }

  // ---------------------------------------------------------------------
  // Collisions

  predicate OnScreen(p: Vec2) {
    0.0 <= p.x <= ScreenWidth && 0.0 <= p.y <= ScreenHeight
  }

  /** The corner scan: is any corner from `i` on off the screen? */
  function AnyOffScreen(cs: seq<Vec2>, i: nat): (r: bool)
    requires i <= |cs|
    ensures r <==> exists j :: i <= j < |cs| && !OnScreen(cs[j])
    decreases |cs| - i
  {
    if i == |cs| then false
    else if !OnScreen(cs[i]) then true
    else AnyOffScreen(cs, i + 1)
  }

  /** The obstacle scan over the obstacles' corner lists: does the polygon
      overlap any of them from `i` on? */
  function AnyObstacleHit(m: MathLib, cs: seq<Vec2>, polys: seq<seq<Vec2>>, i: nat): (r: bool)
    requires |cs| > 0 && i <= |polys|
    requires forall j :: 0 <= j < |polys| ==> |polys[j]| > 0
    ensures r <==> exists j :: i <= j < |polys| && Overlap(cs, polys[j])
    decreases |polys| - i
  {
    if i == |polys| then false
    else if PolygonsCollide(m, cs, polys[i]) then true
    else AnyObstacleHit(m, cs, polys, i + 1)
  }

  /** The corners of every obstacle, in order. */
  function ObstacleCorners(m: MathLib, obstacles: seq<Rect>): (r: seq<seq<Vec2>>)
    ensures |r| == |obstacles|
    ensures forall j :: 0 <= j < |r| ==> r[j] == Corners(m, obstacles[j]) && |r[j]| == 4
  {
    seq(|obstacles|, j requires 0 <= j < |obstacles| => Corners(m, obstacles[j]))
  }

  /** The car leaves the screen or overlaps an obstacle. */
  ghost predicate Crashes(m: MathLib, c: Car, obstacles: seq<Rect>) {
    var cs := CarCorners(m, c);
    || (exists j :: 0 <= j < |cs| && !OnScreen(cs[j]))
    || (exists j :: 0 <= j < |obstacles| && Overlap(cs, Corners(m, obstacles[j])))
  }

  /** `check_collisions`: sets the collided flag of an active car that crashes;
      nothing else changes and the flag is never cleared. */
  function CheckCollisions(m: MathLib, c: Car, obstacles: seq<Rect>): (r: Car)
    ensures !c.active ==> r == c
    ensures r == c.(collided := r.collided)
    ensures c.collided ==> r.collided
    ensures c.active ==> (r.collided <==> c.collided || Crashes(m, c, obstacles))
  {
    if !c.active then c
    else
      var cs := CarCorners(m, c);
      var polys := ObstacleCorners(m, obstacles);
      if AnyOffScreen(cs, 0) then c.(collided := true)
      else if AnyObstacleHit(m, cs, polys, 0) then c.(collided := true)
      else c
  }

  /** Checking twice is checking once. */
  lemma CheckCollisionsIdempotent(m: MathLib, c: Car, obstacles: seq<Rect>)
    ensures CheckCollisions(m, CheckCollisions(m, c, obstacles), obstacles) == CheckCollisions(m, c, obstacles)
  {
    var r := CheckCollisions(m, c, obstacles);
    assert CarCorners(m, r) == CarCorners(m, c);
  }

  // ---------------------------------------------------------------------
  // Reward

  /** The distance-shaping term as the two branches compute it: the change is
      multiplied in when the car came closer and subtracted when it did not,
      so either way the magnitude of the change is added. */
  function DistanceTerm(prev: real, current: real): (r: real)
    ensures r == Abs(prev - current) * DistanceRewardMultiplier
    ensures 0.0 <= r
  {
    if prev - current > 0.0 then (prev - current) * DistanceRewardMultiplier
    else -((prev - current) * DistanceRewardMultiplier)
  }

  /** Moving away earns the same as coming closer by as much. */
  lemma DistanceTermSymmetric(a: real, b: real)
    ensures DistanceTerm(a, b) == DistanceTerm(b, a)
    ensures a != b ==> DistanceTerm(a, b) > 0.0
  {
  }

  /** The absolute folded heading difference between car and spot. */
  function AngleDifference(c: Car, spot: Rect): (r: real)
    ensures 0.0 <= r <= 180.0
  {
    Abs(NormalizeAngle(c.angle - spot.angle))
  }

  /** The larger side of the spot. */
  function Extent(spot: Rect): real {
    Max(spot.width, spot.height)
  }

  /** All four parking conditions: near the spot center, aligned with the
      spot, slow, and overlapping the spot. */
  predicate Parks(m: MathLib, c: Car, spot: Rect) {
    && Distance(m, c.position, spot.center) < ParkingMaxDistToCenter
    && AngleDifference(c, spot) < ParkingMaxAngleDiff
    && Abs(c.velocity) < ParkingMinVelocity
    && PolygonsCollide(m, CarCorners(m, c), Corners(m, spot))
  }

  /** Not parked, but inside three quarters of the spot's extent, within ten
      more degrees than the parking tolerance, and slow. */
  predicate AlmostParks(m: MathLib, c: Car, spot: Rect) {
    && !Parks(m, c, spot)
    && Distance(m, c.position, spot.center) < Extent(spot) * 0.75
    && AngleDifference(c, spot) < ParkingMaxAngleDiff + 10.0
    && Abs(c.velocity) < ParkingMinVelocity
  }

  /** The almost-parked bonus: full when perfectly placed, falling linearly
      with the heading difference and with the distance. */
  function AlmostParkedTerm(m: MathLib, c: Car, spot: Rect): (r: real)
    requires AlmostParks(m, c, spot)
    ensures 0.0 < r <= AlmostParkedBonus
  {
    var d := Distance(m, c.position, spot.center);
    var a := AngleDifference(c, spot);
    var fa := 1.0 - a / (ParkingMaxAngleDiff + 10.0);
    var fd := 1.0 - d / (Extent(spot) * 0.75);
    UnitFactor(a, ParkingMaxAngleDiff + 10.0);
    UnitFactor(d, Extent(spot) * 0.75);
    UnitProduct(fa, fd);
    AlmostParkedBonus * fa * fd
  }

  /** 1 - x/b lies in (0, 1] for 0 <= x < b. */
  lemma UnitFactor(x: real, b: real)
    requires 0.0 <= x < b
    ensures 0.0 < 1.0 - x / b <= 1.0
  {
    assert x / b < 1.0;
    assert 0.0 <= x / b;
  }

  lemma UnitProduct(a: real, b: real)
    requires 0.0 < a <= 1.0 && 0.0 < b <= 1.0
    ensures 0.0 < AlmostParkedBonus * a * b <= AlmostParkedBonus
  {
    assert 0.0 < a * b <= 1.0 by {
      MulMonotone(a, 0.0, b);
      assert a * b <= a * 1.0 by { ProductNonNegative(a, 1.0 - b); }
    }
    assert AlmostParkedBonus * a * b == AlmostParkedBonus * (a * b);
  }

  /** The reward change of one active tick, term by term. Apart from the
      distance term, it lies between the worst case of a collision, a
      half-turn misalignment and a stopped car, and the alignment reward plus
      whichever of the parking and almost-parked bonuses applies. */
  function RewardDelta(m: MathLib, c: Car, spot: Rect): (r: real)
    ensures var rest := r - DistanceTerm(c.prevDistance, Distance(m, c.position, spot.center));
      && CollisionPenalty - 180.0 + StoppedPenalty + StepPenalty <= rest
      && rest <= AlignmentReward + StepPenalty
                 + (if Parks(m, c, spot) then ParkingBonus else if AlmostParks(m, c, spot) then AlmostParkedBonus else 0.0)
  {
    var d := Distance(m, c.position, spot.center);
    var a := AngleDifference(c, spot);
    (if c.collided then CollisionPenalty else 0.0)
    + DistanceTerm(c.prevDistance, d)
    + a * AnglePenaltyMultiplier
    + (1.0 - a / 180.0) * AlignmentReward
    + (if d < Extent(spot) then Abs(c.velocity) * SpeedPenaltyMultiplier else 0.0)
    + (if Parks(m, c, spot) then ParkingBonus else 0.0)
    + (if AlmostParks(m, c, spot) then AlmostParkedTerm(m, c, spot) else 0.0)
    + (if c.stoppedTimer > StoppedThreshold then StoppedPenalty else 0.0)
    + StepPenalty
  }

  /** `calculate_reward`: returns the reward change and the updated car. An
      inactive car earns nothing and is unchanged. Otherwise the reward grows by
      the change, the previous distance becomes the current one, and the car is
      retired when it has collided or parked. */
  function CalculateReward(m: MathLib, c: Car, spot: Rect): (r: (Car, real))
    ensures !c.active ==> r == (c, 0.0)
    ensures c.active ==> r.1 == RewardDelta(m, c, spot)
    ensures r.0.reward == c.reward + r.1
    ensures r.0.active <==> c.active && !c.collided && !Parks(m, c, spot)
    ensures r.0.parked <==> c.parked || (c.active && Parks(m, c, spot))
    ensures c.active ==> r.0.prevDistance == Distance(m, c.position, spot.center)
    ensures r.0.position == c.position && r.0.angle == c.angle && r.0.velocity == c.velocity
    ensures r.0.steering == c.steering && r.0.stoppedTimer == c.stoppedTimer
    ensures r.0.brain == c.brain && r.0.collided == c.collided
  {
    if !c.active then (c, 0.0)
    else
      var delta := RewardDelta(m, c, spot);
      var parks := Parks(m, c, spot);
      (c.(reward := c.reward + delta,
          active := !c.collided && !parks,
          parked := c.parked || parks,
          prevDistance := Distance(m, c.position, spot.center)), delta)
  }

  /** Only the distance term looks at the previous distance: changing it
      changes the reward by the difference of the two distance terms. */
  lemma RewardDeltaHistory(m: MathLib, c: Car, spot: Rect, prev: real)
    ensures var d := Distance(m, c.position, spot.center);
      RewardDelta(m, c.(prevDistance := prev), spot) - DistanceTerm(prev, d)
      == RewardDelta(m, c, spot) - DistanceTerm(c.prevDistance, d)
  {
    var c2 := c.(prevDistance := prev);
    SameBodySameTerms(m, c, c2, spot);
  }

  /** The collision flag costs exactly the collision penalty and touches no
      other term. */
  lemma RewardDeltaCollision(m: MathLib, c: Car, spot: Rect)
    ensures RewardDelta(m, c.(collided := true), spot) == RewardDelta(m, c.(collided := false), spot) + CollisionPenalty
  {
    SameBodySameTerms(m, c.(collided := true), c.(collided := false), spot);
  }

  /** Two cars with the same pose, speed and timer score every term alike. */
  lemma SameBodySameTerms(m: MathLib, c: Car, c2: Car, spot: Rect)
    requires c2.position == c.position && c2.angle == c.angle
    requires c2.velocity == c.velocity && c2.stoppedTimer == c.stoppedTimer
    ensures Distance(m, c2.position, spot.center) == Distance(m, c.position, spot.center)
    ensures AngleDifference(c2, spot) == AngleDifference(c, spot)
    ensures Parks(m, c2, spot) == Parks(m, c, spot)
    ensures AlmostParks(m, c2, spot) == AlmostParks(m, c, spot)
    ensures AlmostParks(m, c, spot) ==> AlmostParkedTerm(m, c2, spot) == AlmostParkedTerm(m, c, spot)
  {
    assert Body(c2) == Body(c);
    assert CarCorners(m, c2) == CarCorners(m, c);
    if AlmostParks(m, c, spot) {
      AlmostParkedTermOfPose(m, c, c2, spot);
    }
  }

  lemma AlmostParkedTermOfPose(m: MathLib, c: Car, c2: Car, spot: Rect)
    requires AlmostParks(m, c, spot) && AlmostParks(m, c2, spot)
    requires Distance(m, c2.position, spot.center) == Distance(m, c.position, spot.center)
    requires AngleDifference(c2, spot) == AngleDifference(c, spot)
    ensures AlmostParkedTerm(m, c2, spot) == AlmostParkedTerm(m, c, spot)
  {
    var d := Distance(m, c.position, spot.center);
    var a := AngleDifference(c, spot);
    var v := AlmostParkedBonus * (1.0 - a / (ParkingMaxAngleDiff + 10.0)) * (1.0 - d / (Extent(spot) * 0.75));
    assert AlmostParkedTerm(m, c, spot) == v;
    assert AlmostParkedTerm(m, c2, spot) == v;
  }

  /** Parking pays: whatever else happened in the tick, the change exceeds the
      parking bonus less the largest possible penalties. */
  lemma ParkingDominates(m: MathLib, c: Car, spot: Rect)
    requires c.active && Parks(m, c, spot)
    ensures CalculateReward(m, c, spot).1 > ParkingBonus + CollisionPenalty - ParkingMaxAngleDiff + StoppedPenalty + StepPenalty
  {
    var a := AngleDifference(c, spot);
    assert 0.0 <= 1.0 - a / 180.0;
  }

  /** Without a collision, the parking bonus or the almost-parked bonus, a
      tick earns at most the distance term plus the alignment reward. */
  lemma OrdinaryTickBound(m: MathLib, c: Car, spot: Rect)
    requires c.active && !c.collided && !Parks(m, c, spot) && !AlmostParks(m, c, spot)
    ensures CalculateReward(m, c, spot).1 <=
      DistanceTerm(c.prevDistance, Distance(m, c.position, spot.center)) + AlignmentReward + StepPenalty
  {
    var a := AngleDifference(c, spot);
    assert 0.0 <= a / 180.0;
  }

  /** Once retired, a car is frozen: updating, checking and rewarding leave it
      as it is. */
  lemma InactiveCarIsFrozen(m: MathLib, c: Car, spot: Rect, obstacles: seq<Rect>)
    requires !c.active
    ensures Update(m, c, spot) == c
    ensures CheckCollisions(m, c, obstacles) == c
    ensures CalculateReward(m, c, spot) == (c, 0.0)
  {
  }

  /** A collision is always followed by retirement in the same tick. */
  lemma CollisionRetires(m: MathLib, c: Car, spot: Rect, obstacles: seq<Rect>)
    requires c.active
    requires Crashes(m, c, obstacles)
    ensures !CalculateReward(m, CheckCollisions(m, c, obstacles), spot).0.active
    ensures CalculateReward(m, CheckCollisions(m, c, obstacles), spot).0.collided
  {
  }
}

/**
 * The movement plan of one ship (`StarShipCommand`), as values.
 *
 * A plan starts at `start` at time `startTime`, heading along `direction`,
 * and ends at `destination`. It is either a straight line, or an arc of a
 * circle about `dotRotate` of radius `radiusRotate`, swept through
 * `rotateAngle` in the sense `dirRotate`, followed by a straight line.
 *
 * Each operation of the command is given here as a function from the plan
 * before to the plan after (`Idle`, `Planned`, `Commanded`, `MovedOnLine`,
 * `Updated`) or to the position it computes (`MoveLine`, `FuturePosition`);
 * the class in module `ShipCommand` performs the same steps on its fields
 * and is proved to agree with these functions.
 *
 * The ship (`IShip`) is given as its two readings, `Speed` and `ShiftSpeed`;
 * the value its `LastUpdate` takes when the command completes an update is
 * passed in as `clock`.
 */
module ShipPlan {
  import opened FloatMath
  import opened Geometry

  /** Smallest heading error, in radians, that makes the ship turn. */
  const MinAngle: real := 0.001
  /** Milliseconds per unit of plan time. */
  const Dd: real := 200.0
  /** The largest speed whose square `Speed * Speed` fits in a 32-bit `int`. */
  const MaxSpeed: int := 46340

  /** The two readings of `IShip` the command uses. */
  datatype Ship = Ship(speed: int, shiftSpeed: int)

  /** A ship without an engine: the command ignores move orders. */
  predicate NoEngine(ship: Ship) {
    ship.speed < 0 || ship.shiftSpeed < 0
  }

  /**
   * A ship that can turn: a turn divides by `ShiftSpeed` and by the speed,
   * and squares the speed in 32-bit arithmetic.
   */
  predicate Propelled(ship: Ship) {
    0 < ship.speed <= MaxSpeed && 0 < ship.shiftSpeed
  }

  /** `MaxSpeed` is exactly the bound below which `Speed * Speed` cannot overflow. */
  lemma MaxSpeedSquareFits()
    ensures MaxSpeed * MaxSpeed <= 0x7fff_ffff < (MaxSpeed + 1) * (MaxSpeed + 1)
  {
  }

  /** The radius of the tightest turn at full speed, `Speed * Speed / ShiftSpeed` (R = V^2 / a). */
  function TurnRadius(ship: Ship): (r: real)
    requires Propelled(ship)
    ensures r > 0.0
  {
    IntSquarePositive(ship.speed);
    (ship.speed * ship.speed) as real / ship.shiftSpeed as real
  }

  lemma IntSquarePositive(n: int)
    requires n > 0
    ensures n * n > 0
  {
    assert n * n >= n;
  }

  /**
   * Centre of a turn of radius `r` (times the heading's length) starting at
   * `start` with heading `direction`, on the side given by `sign`.
   */
  function TurnCentre(start: Vector2D, direction: Vector2D, sign: int, r: real): Vector2D {
    TurnOffset(direction, sign, r).Add(start)
  }

  /** The heading turned a right angle toward the side given by `sign`, scaled by `r`: the centre's offset from the start. */
  function TurnOffset(direction: Vector2D, sign: int, r: real): Vector2D {
    Vector2D(-direction.Y * sign as real * r, direction.X * sign as real * r)
  }

  /**
   * The turn centre lies at a right angle to the heading, to its left when
   * `sign` is 1 and to its right when it is -1, at distance `r` times the
   * heading's length.
   */
  lemma TurnCentreGeometry(start: Vector2D, direction: Vector2D, sign: int, r: real)
    ensures var c := TurnCentre(start, direction, sign, r);
      && Cross(direction, c.Sub(start)) == sign as real * r * direction.Quadratic()
      && direction.Dot(c.Sub(start)) == 0.0
      && c.Sub(start).Quadratic() == (sign * sign) as real * (r * r) * direction.Quadratic()
  {
    var offset := Vector2D(-direction.Y * sign as real * r, direction.X * sign as real * r);
    assert offset.Add(start).Sub(start) == offset;
    assert offset == direction.QuarterTurn().Scale(sign as real * r);
    ScaleQuadratic(direction.QuarterTurn(), sign as real * r);
  }

  /** Every field of the command, as one value. */
  datatype Plan = Plan(
    startTime: int, lastUpdate: int,
    start: Vector2D, destination: Vector2D, direction: Vector2D,
    isFlyMode: bool, dirRotate: int, radiusRotate: real, rotateAngle: real, dotRotate: Vector2D,
    curHead: Vector2D, curPos: Vector2D, lastCalcPosition: int)

  /**
   * The command's invariant: the turn sense is -1, 0 or 1, and a plan that
   * turns belongs to a ship that can turn and has a positive radius.
   */
  ghost predicate WellFormed(m: Library, ship: Ship, p: Plan) {
    && -1 <= p.dirRotate <= 1
    && (p.dirRotate != 0 ==> Propelled(ship) && p.radiusRotate > 0.0)
  }

  /** The plan after `SetPos(pos)` at time `clock`: at rest at `pos`; heading and turn left as they were. */
  function Idle(p: Plan, pos: Vector2D, clock: int): Plan {
    p.(start := pos, curPos := pos, destination := pos, lastUpdate := clock, startTime := clock, isFlyMode := false)
  }

  /** `SetPos` keeps the invariant and leaves the ship at rest where it was put. */
  lemma IdleIsAtRest(m: Library, ship: Ship, p: Plan, pos: Vector2D, clock: int)
    requires WellFormed(m, ship, p)
    ensures var r := Idle(p, pos, clock);
      && WellFormed(m, ship, r)
      && !r.isFlyMode && r.start == pos && r.curPos == pos && r.destination == pos
      && r.startTime == clock && r.lastUpdate == clock
      && r.direction == p.direction && r.curHead == p.curHead && r.dirRotate == p.dirRotate
  {
  }

  // ---------------------------------------------------------------------
  // Planning (CalcNewDestination)

  /** Signed angle from the heading to the straight path to the destination. */
  function PathAngle(m: Library, start: Vector2D, direction: Vector2D, destination: Vector2D): (a: real)
    ensures -PI < a <= PI
    ensures a != 0.0 ==> direction != Zero && destination != start
  {
    var path := destination.Sub(start);
    assert path == Zero ==> destination == start;
    direction.GetAngle(m, path)
  }

  /** The destination is less than one unit from the start. */
  predicate ShortPath(p: Plan) {
    1.0 > p.destination.Sub(p.start).Quadratic()
  }

  /** The turn sense chosen for a heading error `a`: left, right, or none inside the dead band. */
  function Sense(a: real): (s: int)
    ensures s == 1 <==> a > MinAngle
    ensures s == -1 <==> a < -MinAngle
    ensures s == 0 <==> -MinAngle <= a <= MinAngle
  {
    if a > MinAngle then 1 else if a < -MinAngle then -1 else 0
  }

  /**
   * `IsBlindZone`: the destination lies inside (or on) one of the two circles
   * of the tightest turn, left or right of the heading, so it cannot be
   * reached by turning at full speed and then flying straight.
   */
  function BlindZone(ship: Ship, start: Vector2D, direction: Vector2D, destination: Vector2D): (b: bool)
    requires Propelled(ship)
    ensures var rBlind := TurnRadius(ship);
      b <==> (|| TurnCentre(start, direction, 1, rBlind).GetDistance2(destination) <= rBlind * rBlind
              || TurnCentre(start, direction, -1, rBlind).GetDistance2(destination) <= rBlind * rBlind)
  {
    var rBlind := TurnRadius(ship);
    var dotRotate1 := Vector2D(-direction.Y * rBlind, direction.X * rBlind);
    assert dotRotate1.Add(start) == TurnCentre(start, direction, 1, rBlind);
    assert start.Sub(dotRotate1) == TurnCentre(start, direction, -1, rBlind);
    var dotRotate2 := destination.Sub(dotRotate1.Add(start));
    if dotRotate2.Quadratic() <= rBlind * rBlind then true
    else
      var dotRotate3 := destination.Sub(start.Sub(dotRotate1));
      dotRotate3.Quadratic() <= rBlind * rBlind
  }

  /**
   * The turn radius planning chooses: inside a turning circle, the circle
   * tangent to the heading through the destination (chord over twice the
   * sine of the heading error); otherwise the tightest turn.
   */
  function PlannedRadius(m: Library, ship: Ship, start: Vector2D, direction: Vector2D, destination: Vector2D): (r: real)
    requires Propelled(ship) && Sense(PathAngle(m, start, direction, destination)) != 0
    ensures r > 0.0
    ensures !BlindZone(ship, start, direction, destination) ==> r == TurnRadius(ship)
  {
    var path := destination.Sub(start);
    var dirAngle := PathAngle(m, start, direction, destination);
    if BlindZone(ship, start, direction, destination) then
      assert path != Zero;
      SinPositive(m, Abs(dirAngle));
      var s := m.sin(Abs(dirAngle));
      QuotientPositive(path.Modulus(m), s * 2.0);
      path.Modulus(m) / (s * 2.0)
    else
      TurnRadius(ship)
  }

  /**
   * The heading change the turn must make: from the heading to the tangent
   * from the destination to the turning circle (the destination's bearing
   * from the centre turned by the angle whose sine is radius over distance,
   * or by 1 radian when the destination is not outside the circle).
   */
  function HeadingChange(m: Library, direction: Vector2D, destination: Vector2D, centre: Vector2D, radius: real,
                         sense: int): (a: real)
    requires radius >= 0.0
    ensures -PI < a <= PI
  {
    var rotDest := destination.Sub(centre);
    var hypotenuse := rotDest.Modulus(m);
    var angle := if radius < hypotenuse then m.asin(radius / hypotenuse) else 1.0;
    var rotHead := rotDest.Rotate(m, angle * sense as real);
    direction.GetAngle(m, rotHead)
  }

  /**
   * The angle the turn sweeps: the heading change `a0`, moved by a whole
   * turn when needed so that a left turn sweeps a non-negative angle and any
   * other a non-positive one.
   */
  function Unwrapped(a0: real, sense: int): (a: real)
    requires -PI < a0 <= PI
    ensures sense > 0 ==> 0.0 <= a < 2.0 * PI
    ensures sense <= 0 ==> -2.0 * PI < a <= 0.0
    ensures a == a0 || a == a0 + 2.0 * PI || a == a0 - 2.0 * PI
    ensures sense > 0 && a0 >= 0.0 ==> a == a0
    ensures sense <= 0 && a0 <= 0.0 ==> a == a0
  {
    if sense > 0 && a0 < 0.0 then a0 + PI * 2.0
    else if sense <= 0 && a0 > 0.0 then a0 - PI * 2.0
    else a0
  }

  /**
   * The plan with a turn of sense `s` set up for the radius `radius`: the
   * centre, the radius made the centre's distance from the start, then the
   * angle to sweep.
   */
  function WithTurn(m: Library, p: Plan, s: int, radius: real): (r: Plan)
    requires p.direction != Zero && (s == 1 || s == -1) && radius > 0.0
    ensures r == p.(dirRotate := s, radiusRotate := r.radiusRotate, dotRotate := r.dotRotate,
                    rotateAngle := r.rotateAngle)
    ensures r.dotRotate == TurnCentre(p.start, p.direction, s, radius)
    ensures r.radiusRotate == r.dotRotate.Sub(p.start).Modulus(m) && r.radiusRotate > 0.0
    ensures r.rotateAngle == Unwrapped(HeadingChange(m, p.direction, p.destination, r.dotRotate, r.radiusRotate, s), s)
  {
    var centre := TurnCentre(p.start, p.direction, s, radius);
    TurnOffsetFacts(m, p.start, p.direction, s, radius);
    var r := centre.Sub(p.start).Modulus(m);
    p.(dirRotate := s, radiusRotate := r, dotRotate := centre,
       rotateAngle := Unwrapped(HeadingChange(m, p.direction, p.destination, centre, r, s), s))
  }

  /**
   * The plan after `CalcNewDestination` at time `clock`: a short path ends
   * the command at rest at the destination; otherwise the ship flies, with
   * the turn sense chosen from the heading error and, for a turn, its
   * centre, radius and swept angle.
   */
  function Planned(m: Library, ship: Ship, p: Plan, clock: int): (r: Plan)
    requires WellFormed(m, ship, p)
    requires ShortPath(p) || Sense(PathAngle(m, p.start, p.direction, p.destination)) == 0 || Propelled(ship)
    ensures WellFormed(m, ship, r)
  {
    if ShortPath(p) then Idle(p, p.destination, clock)
    else
      var s := Sense(PathAngle(m, p.start, p.direction, p.destination));
      if s == 0 then p.(dirRotate := 0, isFlyMode := true)
      else WithTurn(m, p, s, PlannedRadius(m, ship, p.start, p.direction, p.destination)).(isFlyMode := true)
  }

  /** A destination less than a unit away: the ship comes to rest exactly there. */
  lemma PlannedShortPath(m: Library, ship: Ship, p: Plan, clock: int)
    requires WellFormed(m, ship, p) && ShortPath(p)
    ensures var r := Planned(m, ship, p, clock);
      && !r.isFlyMode && r.start == p.destination && r.curPos == p.destination
      && r.destination == p.destination && r.startTime == clock
      && r.dirRotate == p.dirRotate
  {
  }

  /**
   * A path of a unit or more: the ship flies from the same start, heading
   * and destination; it turns left exactly when the heading error exceeds
   * `MinAngle` and right exactly when it is below `-MinAngle`, and a plan
   * without a turn changes nothing else.
   */
  lemma PlannedSense(m: Library, ship: Ship, p: Plan, clock: int)
    requires WellFormed(m, ship, p) && !ShortPath(p)
    requires Sense(PathAngle(m, p.start, p.direction, p.destination)) == 0 || Propelled(ship)
    ensures var r := Planned(m, ship, p, clock);
      && r.isFlyMode
      && r.start == p.start && r.direction == p.direction && r.destination == p.destination
      && r.startTime == p.startTime && r.curPos == p.curPos && r.curHead == p.curHead
      && -1 <= r.dirRotate <= 1
      && (r.dirRotate == 1 <==> PathAngle(m, p.start, p.direction, p.destination) > MinAngle)
      && (r.dirRotate == -1 <==> PathAngle(m, p.start, p.direction, p.destination) < -MinAngle)
      && (r.dirRotate == 0 ==> r == p.(dirRotate := 0, isFlyMode := true))
  {
  }

  /**
   * A planned turn: its centre is square to the heading on the side of the
   * turn, at the planned radius, and the radius kept is the centre's
   * distance from the start.
   */
  lemma PlannedTurnCentre(m: Library, ship: Ship, p: Plan, clock: int)
    requires WellFormed(m, ship, p) && Propelled(ship) && !ShortPath(p)
    requires Sense(PathAngle(m, p.start, p.direction, p.destination)) != 0
    ensures var r := Planned(m, ship, p, clock);
      && r.dotRotate == TurnCentre(p.start, p.direction, r.dirRotate, PlannedRadius(m, ship, p.start, p.direction, p.destination))
      && r.dirRotate as real * Cross(p.direction, r.dotRotate.Sub(p.start)) > 0.0
      && p.direction.Dot(r.dotRotate.Sub(p.start)) == 0.0
      && r.radiusRotate == r.dotRotate.Sub(p.start).Modulus(m)
  {
    PlannedIsWithTurn(m, ship, p, clock);
    TurnCentreSide(m, ship, p, Sense(PathAngle(m, p.start, p.direction, p.destination)),
                   PlannedRadius(m, ship, p.start, p.direction, p.destination));
  }

  /** The centre of a turn of sense `s` and radius `r` is square to the heading, on the side of the turn. */
  lemma TurnCentreSide(m: Library, ship: Ship, p: Plan, s: int, r: real)
    requires (s == 1 || s == -1) && r > 0.0 && p.direction != Zero
    ensures var c := TurnCentre(p.start, p.direction, s, r);
      && s as real * Cross(p.direction, c.Sub(p.start)) > 0.0
      && p.direction.Dot(c.Sub(p.start)) == 0.0
  {
    var c := TurnCentre(p.start, p.direction, s, r);
    TurnCentreGeometry(p.start, p.direction, s, r);
    assert p.direction.Quadratic() > 0.0;
    TurnSide(Cross(p.direction, c.Sub(p.start)), s, r, p.direction.Quadratic());
  }

  /**
   * The angle a planned turn sweeps has the turn's sign, is less than a full
   * turn, and is the heading change toward the tangent from the destination
   * to the turning circle, unwrapped in the turn's sense.
   */
  lemma PlannedTurnAngle(m: Library, ship: Ship, p: Plan, clock: int)
    requires WellFormed(m, ship, p) && Propelled(ship) && !ShortPath(p)
    requires Sense(PathAngle(m, p.start, p.direction, p.destination)) != 0
    ensures var r := Planned(m, ship, p, clock);
      && (r.dirRotate == 1 ==> 0.0 <= r.rotateAngle < 2.0 * PI)
      && (r.dirRotate == -1 ==> -2.0 * PI < r.rotateAngle <= 0.0)
      && r.rotateAngle == Unwrapped(HeadingChange(m, p.direction, p.destination, r.dotRotate, r.radiusRotate, r.dirRotate),
                                    r.dirRotate)
  {
    PlannedIsWithTurn(m, ship, p, clock);
  }

  /** A planned turn is the plan with the turn set up, flying. */
  lemma PlannedIsWithTurn(m: Library, ship: Ship, p: Plan, clock: int)
    requires WellFormed(m, ship, p) && Propelled(ship) && !ShortPath(p)
    requires Sense(PathAngle(m, p.start, p.direction, p.destination)) != 0
    ensures var s := Sense(PathAngle(m, p.start, p.direction, p.destination));
      Planned(m, ship, p, clock) == WithTurn(m, p, s, PlannedRadius(m, ship, p.start, p.direction, p.destination)).(isFlyMode := true)
  {
  }

  /**
   * The blind zone gets the circle through the destination: the chord from
   * the start to the destination, over twice the sine of the heading error.
   */
  lemma PlannedRadiusInBlindZone(m: Library, ship: Ship, start: Vector2D, direction: Vector2D, destination: Vector2D)
    requires Propelled(ship) && Sense(PathAngle(m, start, direction, destination)) != 0
    requires BlindZone(ship, start, direction, destination)
    ensures PlannedRadius(m, ship, start, direction, destination) * (2.0 * m.sin(Abs(PathAngle(m, start, direction, destination))))
            == start.GetDistance(m, destination)
  {
    SinPositive(m, Abs(PathAngle(m, start, direction, destination)));
  }

  /** Outside the blind zone, the radius is the tightest turn's: radius times `ShiftSpeed` is the speed squared. */
  lemma PlannedRadiusOutside(m: Library, ship: Ship, start: Vector2D, direction: Vector2D, destination: Vector2D)
    requires Propelled(ship) && Sense(PathAngle(m, start, direction, destination)) != 0
    requires !BlindZone(ship, start, direction, destination)
    ensures PlannedRadius(m, ship, start, direction, destination) * ship.shiftSpeed as real == (ship.speed * ship.speed) as real
  {
  }

  // ---------------------------------------------------------------------
  // Evaluating a plan at a time

  /** Plan time elapsed at `t` milliseconds. */
  function Elapsed(p: Plan, t: int): (d: real)
    ensures t >= p.startTime ==> d >= 0.0
  {
    (t - p.startTime) as real / Dd
  }

  /**
   * Angle swept along the arc of radius `radius` after `dTime`: at the
   * pace of a turn at full lateral acceleration on a circle tighter than the
   * tightest full-speed turn, at full speed otherwise.
   */
  function ArcAngle(m: Library, ship: Ship, radius: real, dTime: real): (a: real)
    requires Propelled(ship) && radius > 0.0
    ensures dTime >= 0.0 ==> a >= 0.0
    ensures dTime > 0.0 ==> a > 0.0
  {
    if radius < TurnRadius(ship) then
      QuotientPositive(ship.shiftSpeed as real, radius);
      SqrtSign(m, ship.shiftSpeed as real / radius);
      var k := m.sqrt(ship.shiftSpeed as real / radius);
      ProductSign(k, dTime);
      k * dTime
    else
      QuotientPositive(ship.speed as real, radius);
      ProductSign(ship.speed as real / radius, dTime);
      assert ship.speed as real * dTime / radius == (ship.speed as real / radius) * dTime;
      ship.speed as real * dTime / radius
  }

  /** Time needed to sweep `dAlfa` along the arc of radius `radius`. */
  function ArcTime(m: Library, ship: Ship, radius: real, dAlfa: real): (t: real)
    requires Propelled(ship) && radius > 0.0
    ensures dAlfa >= 0.0 ==> t >= 0.0
  {
    if radius < TurnRadius(ship) then
      QuotientPositive(radius, ship.shiftSpeed as real);
      SqrtSign(m, radius / ship.shiftSpeed as real);
      var k := m.sqrt(radius / ship.shiftSpeed as real);
      ProductSign(k, dAlfa);
      k * dAlfa
    else
      QuotientPositive(radius, ship.speed as real);
      ProductSign(radius / ship.speed as real, dAlfa);
      assert dAlfa * radius / ship.speed as real == (radius / ship.speed as real) * dAlfa;
      dAlfa * radius / ship.speed as real
  }

  /** The point of the arc from `start` about `centre` after sweeping `dAlfa` in the sense `sense`. */
  function ArcPoint(m: Library, start: Vector2D, centre: Vector2D, sense: int, dAlfa: real): Vector2D {
    start.RotateAround(m, sense as real * dAlfa, centre)
  }

  /** The heading `dAlfa` along an arc of sense `sense` that began with heading `direction`. */
  function ArcHeading(m: Library, direction: Vector2D, sense: int, dAlfa: real): Vector2D {
    direction.Rotate(m, sense as real * dAlfa)
  }

  /** The arc stays on the turning circle, where sine and cosine are exact. */
  lemma ArcPointOnCircle(m: Library, start: Vector2D, centre: Vector2D, sense: int, dAlfa: real)
    requires ExactRotation(m, sense as real * dAlfa)
    ensures ArcPoint(m, start, centre, sense, dAlfa).GetDistance2(centre) == start.GetDistance2(centre)
  {
    StaysOnCircle(m, sense as real * dAlfa, start, centre);
  }

  /** Flying `dTime` at full speed from `startLine` covers the whole way to the destination. */
  predicate LineCovers(ship: Ship, destination: Vector2D, dTime: real, startLine: Vector2D) {
    var travel := ship.speed as real * dTime;
    !(travel * travel < destination.Sub(startLine).Quadratic())
  }

  /**
   * `GetMoveLine`: the position after `dTime` on the straight line from
   * `startLine` to the destination, the destination itself once the line is
   * covered.
   */
  function MoveLine(m: Library, ship: Ship, destination: Vector2D, dTime: real, startLine: Vector2D): (r: Vector2D)
    ensures LineCovers(ship, destination, dTime, startLine) ==> r == destination
  {
    var path := destination.Sub(startLine);
    var dist := path.Quadratic();
    var travel := ship.speed as real * dTime;
    if travel * travel < dist then
      SqrtPositive(m, path, travel);
      startLine.Add(path.Scale(travel / m.sqrt(dist)))
    else
      destination
  }

  /** Short of the destination, `MoveLine` is a multiple of the path from `startLine`, forward when time runs forward. */
  lemma MoveLineStep(m: Library, ship: Ship, destination: Vector2D, dTime: real, startLine: Vector2D)
    requires !LineCovers(ship, destination, dTime, startLine)
    ensures m.sqrt(destination.Sub(startLine).Quadratic()) > 0.0
    ensures var path := destination.Sub(startLine);
      var k := ship.speed as real * dTime / m.sqrt(path.Quadratic());
      && MoveLine(m, ship, destination, dTime, startLine).Sub(startLine) == path.Scale(k)
      && (ship.speed as real * dTime >= 0.0 ==> k >= 0.0)
  {
    var path := destination.Sub(startLine);
    var travel := ship.speed as real * dTime;
    SqrtPositive(m, path, travel);
    var root := m.sqrt(path.Quadratic());
    LineStep(path, startLine, travel / root);
    if travel >= 0.0 {
      QuotientPositive(travel, root);
    }
  }

  /**
   * Short of the destination, `MoveLine` stays on the segment's line, on the
   * destination's side when time runs forward.
   */
  lemma MoveLineOnSegment(m: Library, ship: Ship, destination: Vector2D, dTime: real, startLine: Vector2D)
    requires !LineCovers(ship, destination, dTime, startLine)
    ensures var r := MoveLine(m, ship, destination, dTime, startLine);
      && Cross(destination.Sub(startLine), r.Sub(startLine)) == 0.0
      && (ship.speed as real * dTime >= 0.0 ==> destination.Sub(startLine).Dot(r.Sub(startLine)) >= 0.0)
  {
    MoveLineStep(m, ship, destination, dTime, startLine);
    var path := destination.Sub(startLine);
    var k := ship.speed as real * dTime / m.sqrt(path.Quadratic());
    ScaledCross(path, k);
    if ship.speed as real * dTime >= 0.0 {
      ScaledDotNonNegative(path, k);
    }
  }

  /** Short of the destination, `MoveLine` is `Speed * dTime` away from `startLine`, where the square root is exact. */
  lemma MoveLineTravel(m: Library, ship: Ship, destination: Vector2D, dTime: real, startLine: Vector2D)
    requires !LineCovers(ship, destination, dTime, startLine)
    requires ExactSqrt(m, destination.Sub(startLine).Quadratic())
    ensures var travel := ship.speed as real * dTime;
      MoveLine(m, ship, destination, dTime, startLine).Sub(startLine).Quadratic() == travel * travel
  {
    MoveLineStep(m, ship, destination, dTime, startLine);
    var path := destination.Sub(startLine);
    var root := m.sqrt(path.Quadratic());
    ScaledLength(path, ship.speed as real * dTime / root, root, ship.speed as real * dTime);
  }

  /**
   * `GetFuturePosition`: where the plan puts the ship at time `t`. Before
   * the plan begins, at `start`; at rest, at the destination; otherwise
   * along the arc, and once the arc is swept along the line from the arc's
   * end to the destination.
   */
  function FuturePosition(m: Library, ship: Ship, p: Plan, t: int): (r: Vector2D)
    requires WellFormed(m, ship, p)
    ensures t < p.startTime ==> r == p.start
    ensures p.startTime <= t && !p.isFlyMode ==> r == p.destination
  {
    if t < p.startTime then p.start
    else if !p.isFlyMode then p.destination
    else
      var dTime := Elapsed(p, t);
      if 0 == p.dirRotate then MoveLine(m, ship, p.destination, dTime, p.start)
      else
        var dAlfa := ArcAngle(m, ship, p.radiusRotate, dTime);
        if dAlfa < Abs(p.rotateAngle) then ArcPoint(m, p.start, p.dotRotate, p.dirRotate, dAlfa)
        else
          var alfa := Abs(p.rotateAngle);
          var result := ArcPoint(m, p.start, p.dotRotate, p.dirRotate, alfa);
          var rotTime := ArcTime(m, ship, p.radiusRotate, alfa);
          MoveLine(m, ship, p.destination, dTime - rotTime, result)
  }

  /** A straight plan in flight predicts a point on the line through the start and the destination. */
  lemma FuturePositionOnLine(m: Library, ship: Ship, p: Plan, t: int)
    requires WellFormed(m, ship, p) && p.isFlyMode && p.dirRotate == 0 && p.startTime <= t
    ensures var r := FuturePosition(m, ship, p, t);
      Cross(p.destination.Sub(p.start), r.Sub(p.start)) == 0.0
  {
    var dTime := Elapsed(p, t);
    if LineCovers(ship, p.destination, dTime, p.start) {
      assert p.destination.Sub(p.start).Scale(1.0) == p.destination.Sub(p.start);
      ScaledCross(p.destination.Sub(p.start), 1.0);
    } else {
      MoveLineOnSegment(m, ship, p.destination, dTime, p.start);
    }
  }

  /** While the arc is being swept, the predicted point is on the turning circle (where sine and cosine are exact). */
  lemma FuturePositionOnArc(m: Library, ship: Ship, p: Plan, t: int)
    requires WellFormed(m, ship, p) && p.isFlyMode && p.dirRotate != 0 && p.startTime <= t
    requires ArcAngle(m, ship, p.radiusRotate, Elapsed(p, t)) < Abs(p.rotateAngle)
    requires ExactRotation(m, p.dirRotate as real * ArcAngle(m, ship, p.radiusRotate, Elapsed(p, t)))
    ensures FuturePosition(m, ship, p, t).GetDistance2(p.dotRotate) == p.start.GetDistance2(p.dotRotate)
  {
    ArcPointOnCircle(m, p.start, p.dotRotate, p.dirRotate, ArcAngle(m, ship, p.radiusRotate, Elapsed(p, t)));
  }

  /**
   * Once the arc is swept, the predicted point is on the line from the arc's
   * end to the destination.
   */
  lemma FuturePositionAfterArc(m: Library, ship: Ship, p: Plan, t: int)
    requires WellFormed(m, ship, p) && p.isFlyMode && p.dirRotate != 0 && p.startTime <= t
    requires !(ArcAngle(m, ship, p.radiusRotate, Elapsed(p, t)) < Abs(p.rotateAngle))
    ensures var e := ArcPoint(m, p.start, p.dotRotate, p.dirRotate, Abs(p.rotateAngle));
      Cross(p.destination.Sub(e), FuturePosition(m, ship, p, t).Sub(e)) == 0.0
  {
    var e := ArcPoint(m, p.start, p.dotRotate, p.dirRotate, Abs(p.rotateAngle));
    var rest := Elapsed(p, t) - ArcTime(m, ship, p.radiusRotate, Abs(p.rotateAngle));
    if LineCovers(ship, p.destination, rest, e) {
      assert p.destination.Sub(e).Scale(1.0) == p.destination.Sub(e);
      ScaledCross(p.destination.Sub(e), 1.0);
    } else {
      MoveLineOnSegment(m, ship, p.destination, rest, e);
    }
  }

  // ---------------------------------------------------------------------
  // Advancing a plan (UpdateCurPosition, MoveOnLine)

  /** The plan after `MoveOnLine(dTime)`: moved along the line, or at rest at the destination once it is covered. */
  function MovedOnLine(m: Library, ship: Ship, p: Plan, dTime: real, clock: int): Plan
  {
    if LineCovers(ship, p.destination, dTime, p.start) then Idle(p, p.destination, clock)
    else p.(isFlyMode := true, curPos := MoveLine(m, ship, p.destination, dTime, p.start))
  }

  /**
   * `MoveOnLine` keeps the ship in flight exactly while the line is not
   * covered, on the line toward the destination; once it is covered the ship
   * rests exactly at the destination, and only the position changes otherwise.
   */
  lemma MovedOnLineEnds(m: Library, ship: Ship, p: Plan, dTime: real, clock: int)
    ensures var r := MovedOnLine(m, ship, p, dTime, clock);
      && (r.isFlyMode <==> !LineCovers(ship, p.destination, dTime, p.start))
      && (!r.isFlyMode ==> r == Idle(p, p.destination, clock) && r.curPos == p.destination && r.start == p.destination)
      && (r.isFlyMode ==> r == p.(isFlyMode := true, curPos := r.curPos)
                          && Cross(p.destination.Sub(p.start), r.curPos.Sub(p.start)) == 0.0)
  {
    if !LineCovers(ship, p.destination, dTime, p.start) {
      MoveLineOnSegment(m, ship, p.destination, dTime, p.start);
    }
  }

  /**
   * The plan once a finished arc is rewritten as a straight line: it starts
   * at the arc's end, heading straight for the destination, at the time the
   * arc ended (rounded to the millisecond).
   */
  function ArcRewritten(m: Library, ship: Ship, p: Plan): (r: Plan)
    requires WellFormed(m, ship, p) && p.dirRotate != 0
    ensures WellFormed(m, ship, r) && r.dirRotate == 0 && r.destination == p.destination
    ensures r.curPos == r.start && r.curHead == r.direction && r.startTime >= p.startTime
    ensures var path := p.destination.Sub(r.start); r.direction.Scale(m.sqrt(path.Dot(path))) == path
  {
    var alfa := Abs(p.rotateAngle);
    var e := ArcPoint(m, p.start, p.dotRotate, p.dirRotate, alfa);
    RoundNonNegative(ArcTime(m, ship, p.radiusRotate, alfa) * Dd);
    var u := p.destination.Sub(e).Unit(m);
    p.(curPos := e, curHead := u, dirRotate := 0, start := e, direction := u,
       startTime := p.startTime + Round(ArcTime(m, ship, p.radiusRotate, alfa) * Dd))
  }

  /**
   * A turning plan `dTime` seconds after it began: on the arc while the arc
   * is being swept; afterwards the arc rewritten as a line and the time left
   * spent on that line.
   */
  function Turned(m: Library, ship: Ship, p: Plan, dTime: real, clock: int): (r: Plan)
    requires WellFormed(m, ship, p) && p.dirRotate != 0
    ensures r.destination == p.destination
    ensures r.dirRotate == 0 || r == p.(curPos := r.curPos, curHead := r.curHead)
  {
    var dAlfa := ArcAngle(m, ship, p.radiusRotate, dTime);
    if dAlfa < Abs(p.rotateAngle) then
      p.(curPos := ArcPoint(m, p.start, p.dotRotate, p.dirRotate, dAlfa),
         curHead := ArcHeading(m, p.direction, p.dirRotate, dAlfa))
    else
      MovedOnLine(m, ship, ArcRewritten(m, ship, p), dTime - ArcTime(m, ship, p.radiusRotate, Abs(p.rotateAngle)), clock)
  }

  /**
   * The plan after `UpdateCurPosition(timeNow)`; `clock` is the time stamp
   * taken if the ship arrives during the call.
   */
  function Updated(m: Library, ship: Ship, p: Plan, timeNow: int, clock: int): (r: Plan)
    requires WellFormed(m, ship, p)
    ensures WellFormed(m, ship, r)
  {
    if !p.isFlyMode then p
    else if timeNow < p.startTime then p.(lastCalcPosition := timeNow, curPos := p.start)
    else
      var q := p.(lastCalcPosition := timeNow, curPos := p.destination);
      if 0 == p.dirRotate then MovedOnLine(m, ship, q, Elapsed(p, timeNow), clock)
      else Turned(m, ship, q, Elapsed(p, timeNow), clock)
  }

  /** At rest, advancing the plan changes nothing and gives back the stored position. */
  lemma UpdatedAtRest(m: Library, ship: Ship, p: Plan, timeNow: int, clock: int)
    requires WellFormed(m, ship, p) && !p.isFlyMode
    ensures Updated(m, ship, p, timeNow, clock) == p
  {
  }

  /** Before the plan begins, the ship is at `start` and nothing but the position and its time stamp changes. */
  lemma UpdatedBeforeStart(m: Library, ship: Ship, p: Plan, timeNow: int, clock: int)
    requires WellFormed(m, ship, p) && p.isFlyMode && timeNow < p.startTime
    ensures Updated(m, ship, p, timeNow, clock) == p.(lastCalcPosition := timeNow, curPos := p.start)
  {
  }

  /**
   * Advancing a flying plan puts the ship where the prediction says: the
   * committing query and the pure one agree.
   */
  lemma UpdatedAgreesWithFuture(m: Library, ship: Ship, p: Plan, timeNow: int, clock: int)
    requires WellFormed(m, ship, p) && p.isFlyMode
    ensures Updated(m, ship, p, timeNow, clock).curPos == FuturePosition(m, ship, p, timeNow)
  {
  }

  /**
   * Once the arc is swept, the plan is rewritten for good as a straight
   * line: no turn, starting at the arc's end, heading for the destination,
   * started when the arc ended. The ship is then on that line, or at rest at
   * the destination if the line is covered too.
   */
  lemma UpdatedRewritesFinishedArc(m: Library, ship: Ship, p: Plan, timeNow: int, clock: int)
    requires WellFormed(m, ship, p) && p.isFlyMode && p.startTime <= timeNow && p.dirRotate != 0
    requires !(ArcAngle(m, ship, p.radiusRotate, Elapsed(p, timeNow)) < Abs(p.rotateAngle))
    ensures var r := Updated(m, ship, p, timeNow, clock);
      var e := ArcPoint(m, p.start, p.dotRotate, p.dirRotate, Abs(p.rotateAngle));
      var u := p.destination.Sub(e).Unit(m);
      var rest := Elapsed(p, timeNow) - ArcTime(m, ship, p.radiusRotate, Abs(p.rotateAngle));
      && r.dirRotate == 0
      && r.destination == p.destination
      && (LineCovers(ship, p.destination, rest, e) ==>
            !r.isFlyMode && r.start == p.destination && r.curPos == p.destination && r.startTime == clock)
      && (!LineCovers(ship, p.destination, rest, e) ==>
            && r.isFlyMode && r.start == e && r.direction == u && r.curHead == u
            && r.startTime == p.startTime + Round(ArcTime(m, ship, p.radiusRotate, Abs(p.rotateAngle)) * Dd)
            && r.startTime >= p.startTime
            && r.curPos == MoveLine(m, ship, p.destination, rest, e))
  {
    var rotTime := ArcTime(m, ship, p.radiusRotate, Abs(p.rotateAngle));
    RoundNonNegative(rotTime * Dd);
  }

  /** While the arc is being swept, the ship is on it and its heading is the initial heading turned by the swept angle. */
  lemma UpdatedOnArc(m: Library, ship: Ship, p: Plan, timeNow: int, clock: int)
    requires WellFormed(m, ship, p) && p.isFlyMode && p.startTime <= timeNow && p.dirRotate != 0
    requires ArcAngle(m, ship, p.radiusRotate, Elapsed(p, timeNow)) < Abs(p.rotateAngle)
    ensures var r := Updated(m, ship, p, timeNow, clock);
      var dAlfa := ArcAngle(m, ship, p.radiusRotate, Elapsed(p, timeNow));
      && r == p.(lastCalcPosition := timeNow, curPos := r.curPos, curHead := r.curHead)
      && r.curPos == ArcPoint(m, p.start, p.dotRotate, p.dirRotate, dAlfa)
      && r.curHead == ArcHeading(m, p.direction, p.dirRotate, dAlfa)
  {
    var dAlfa := ArcAngle(m, ship, p.radiusRotate, Elapsed(p, timeNow));
    var q := p.(lastCalcPosition := timeNow, curPos := p.destination);
    assert Updated(m, ship, p, timeNow, clock)
        == q.(curPos := ArcPoint(m, p.start, p.dotRotate, p.dirRotate, dAlfa),
              curHead := ArcHeading(m, p.direction, p.dirRotate, dAlfa));
  }

  /**
   * On a straight plan, the ship stays in flight exactly while the line is
   * not covered; once it is, it rests exactly at the destination.
   */
  lemma UpdatedOnLine(m: Library, ship: Ship, p: Plan, timeNow: int, clock: int)
    requires WellFormed(m, ship, p) && p.isFlyMode && p.startTime <= timeNow && p.dirRotate == 0
    ensures var r := Updated(m, ship, p, timeNow, clock);
      && (r.isFlyMode <==> !LineCovers(ship, p.destination, Elapsed(p, timeNow), p.start))
      && (!r.isFlyMode ==> r.curPos == p.destination && r.start == p.destination && r.startTime == clock)
      && (r.isFlyMode ==> r.start == p.start && r.startTime == p.startTime && r.dirRotate == 0)
      && r.destination == p.destination
  {
  }

  // ---------------------------------------------------------------------
  // Arrival

  /** A time by which a straight plan has covered its line at any speed of at least 1. */
  function LineArrivalTime(p: Plan): (t: int)
    ensures t >= p.startTime
  {
    var dist := p.destination.Sub(p.start).Quadratic();
    p.startTime + 200 * (dist.Floor + 2)
  }

  /**
   * Arrival is exact: from `LineArrivalTime` on, a flying straight plan
   * predicts exactly the destination, and advancing it leaves the ship at
   * rest exactly there.
   */
  lemma LineArrives(m: Library, ship: Ship, p: Plan, t: int, clock: int)
    requires WellFormed(m, ship, p) && p.isFlyMode && p.dirRotate == 0 && ship.speed >= 1
    requires t >= LineArrivalTime(p)
    ensures FuturePosition(m, ship, p, t) == p.destination
    ensures var r := Updated(m, ship, p, t, clock);
      !r.isFlyMode && r.curPos == p.destination && r.start == p.destination && r.destination == p.destination
  {
    var dist := p.destination.Sub(p.start).Quadratic();
    var dTime := Elapsed(p, t);
    assert dTime >= (dist.Floor + 2) as real by {
      assert (t - p.startTime) as real >= 200.0 * (dist.Floor + 2) as real;
    }
    CoversWhenLongEnough(ship.speed as real, dTime, dist);
  }

  /** The pace at which `ArcAngle` sweeps the arc of radius `radius`, in radians per unit of plan time. */
  function ArcRate(m: Library, ship: Ship, radius: real): (k: real)
    requires Propelled(ship) && radius > 0.0
    ensures k > 0.0
  {
    if radius < TurnRadius(ship) then
      QuotientPositive(ship.shiftSpeed as real, radius);
      SqrtSign(m, ship.shiftSpeed as real / radius);
      m.sqrt(ship.shiftSpeed as real / radius)
    else
      QuotientPositive(ship.speed as real, radius);
      ship.speed as real / radius
  }

  /** The angle swept grows linearly with time, at `ArcRate`. */
  lemma ArcAngleAtRate(m: Library, ship: Ship, radius: real, dTime: real)
    requires Propelled(ship) && radius > 0.0
    ensures ArcAngle(m, ship, radius, dTime) == ArcRate(m, ship, radius) * dTime
  {
    if radius >= TurnRadius(ship) {
      assert ship.speed as real * dTime / radius == (ship.speed as real / radius) * dTime;
    }
  }

  /**
   * `ArcTime` is the time the pace of `ArcAngle` needs to sweep `alfa`: the
   * two are inverse, so the line leg starts exactly when the arc ends. On a
   * small circle this holds where the library's square roots of `a/R` and
   * `R/a` are reciprocal.
   */
  lemma ArcTimeSweepsArc(m: Library, ship: Ship, radius: real, alfa: real)
    requires Propelled(ship) && radius > 0.0
    requires radius < TurnRadius(ship) ==>
      m.sqrt(ship.shiftSpeed as real / radius) * m.sqrt(radius / ship.shiftSpeed as real) == 1.0
    ensures ArcTime(m, ship, radius, alfa) == alfa / ArcRate(m, ship, radius)
    ensures ArcAngle(m, ship, radius, ArcTime(m, ship, radius, alfa)) == alfa
  {
    ArcTimeIsQuotient(m, ship, radius, alfa);
    ArcAngleAtRate(m, ship, radius, ArcTime(m, ship, radius, alfa));
    PaceUndoesQuotient(ArcRate(m, ship, radius), alfa);
  }

  /** `ArcTime` divides the angle by the pace of `ArcAngle`, in both branches. */
  lemma ArcTimeIsQuotient(m: Library, ship: Ship, radius: real, alfa: real)
    requires Propelled(ship) && radius > 0.0
    requires radius < TurnRadius(ship) ==>
      m.sqrt(ship.shiftSpeed as real / radius) * m.sqrt(radius / ship.shiftSpeed as real) == 1.0
    ensures ArcTime(m, ship, radius, alfa) == alfa / ArcRate(m, ship, radius)
  {
    if radius < TurnRadius(ship) {
      SmallCircleArcTime(m, ship, radius, alfa);
    } else {
      LargeCircleArcTime(m, ship, radius, alfa);
    }
  }

  /** On a circle tighter than the tightest full-speed turn, `ArcTime` divides by the pace `sqrt(a/R)`. */
  lemma SmallCircleArcTime(m: Library, ship: Ship, radius: real, alfa: real)
    requires Propelled(ship) && 0.0 < radius < TurnRadius(ship)
    requires m.sqrt(ship.shiftSpeed as real / radius) * m.sqrt(radius / ship.shiftSpeed as real) == 1.0
    ensures ArcTime(m, ship, radius, alfa) == alfa / ArcRate(m, ship, radius)
  {
    ReciprocalPace(m.sqrt(ship.shiftSpeed as real / radius), m.sqrt(radius / ship.shiftSpeed as real), alfa);
  }

  /** On any other circle, `ArcTime` divides by the pace `Speed / R`. */
  lemma LargeCircleArcTime(m: Library, ship: Ship, radius: real, alfa: real)
    requires Propelled(ship) && radius > 0.0 && radius >= TurnRadius(ship)
    ensures ArcTime(m, ship, radius, alfa) == alfa / ArcRate(m, ship, radius)
  {
    LargeCirclePace(ship.speed as real, radius, alfa);
  }

  /** At full speed on a circle of radius `radius`, `alfa * radius / v` is `alfa` divided by the pace `v / radius`. */
  lemma LargeCirclePace(v: real, radius: real, alfa: real)
    requires v > 0.0 && radius > 0.0
    ensures alfa * radius / v == alfa / (v / radius)
  {
    assert (v / radius) * (radius / v) == 1.0;
    ReciprocalPace(v / radius, radius / v, alfa);
  }

  /** Multiplying by the reciprocal of a pace is dividing by the pace. */
  lemma ReciprocalPace(k: real, inverse: real, alfa: real)
    requires k * inverse == 1.0
    ensures inverse * alfa == alfa / k && alfa * inverse == alfa / k
  {
    assert k != 0.0;
    assert inverse == 1.0 / k;
  }

  /** The pace times the angle divided by it is the angle. */
  lemma PaceUndoesQuotient(k: real, alfa: real)
    requires k > 0.0
    ensures k * (alfa / k) == alfa
  {
  }

  /** Given at least `alfa / ArcRate`, the arc sweeps the angle `alfa`. */
  lemma SweepsWhenLongEnough(m: Library, ship: Ship, radius: real, dTime: real, alfa: real)
    requires Propelled(ship) && radius > 0.0
    requires dTime >= alfa / ArcRate(m, ship, radius)
    ensures !(ArcAngle(m, ship, radius, dTime) < alfa)
  {
    var k := ArcRate(m, ship, radius);
    ArcAngleAtRate(m, ship, radius, dTime);
    assert k * dTime >= k * (alfa / k);
  }

  /**
   * A time by which a turning plan has swept its arc and covered the line
   * from the arc's end: long enough to sweep the arc, and long enough after
   * the arc to cover the line at any speed of at least 1.
   */
  function TurnArrivalTime(m: Library, ship: Ship, p: Plan): (t: int)
    requires WellFormed(m, ship, p) && p.dirRotate != 0
    ensures t > p.startTime
  {
    var alfa := Abs(p.rotateAngle);
    var e := ArcPoint(m, p.start, p.dotRotate, p.dirRotate, alfa);
    var d := TurnBound(alfa / ArcRate(m, ship, p.radiusRotate), ArcTime(m, ship, p.radiusRotate, alfa),
                       p.destination.Sub(e).Quadratic());
    p.startTime + 200 * (d.Floor + 1)
  }

  /** Plan time enough to sweep the arc (`sweep`) and, after the arc (`rotTime`), to cover a squared distance `dist`. */
  function TurnBound(sweep: real, rotTime: real, dist: real): (d: real)
    ensures d >= sweep && d - rotTime >= 1.0 && d - rotTime >= dist
  {
    var onLine := rotTime + (if dist > 1.0 then dist else 1.0);
    if sweep > onLine then sweep else onLine
  }

  /**
   * From `TurnArrivalTime` on, the arc of a turning plan is swept and the
   * time left covers the line from the arc's end to the destination.
   */
  lemma TurnArrivalTimeLongEnough(m: Library, ship: Ship, p: Plan, t: int)
    requires WellFormed(m, ship, p) && p.dirRotate != 0
    requires t >= TurnArrivalTime(m, ship, p)
    ensures !(ArcAngle(m, ship, p.radiusRotate, Elapsed(p, t)) < Abs(p.rotateAngle))
    ensures LineCovers(ship, p.destination, Elapsed(p, t) - ArcTime(m, ship, p.radiusRotate, Abs(p.rotateAngle)),
                       ArcPoint(m, p.start, p.dotRotate, p.dirRotate, Abs(p.rotateAngle)))
  {
    var alfa := Abs(p.rotateAngle);
    var e := ArcPoint(m, p.start, p.dotRotate, p.dirRotate, alfa);
    var dist := p.destination.Sub(e).Quadratic();
    var rotTime := ArcTime(m, ship, p.radiusRotate, alfa);
    var d := TurnBound(alfa / ArcRate(m, ship, p.radiusRotate), rotTime, dist);
    var dTime := Elapsed(p, t);
    ElapsedAtLeast(p, t, d);
    SweepsWhenLongEnough(m, ship, p.radiusRotate, dTime, alfa);
    assert dTime - rotTime >= 1.0 && dTime - rotTime >= dist;
    CoversLine(ship, p.destination, dTime - rotTime, e);
  }

  /** With speed at least 1, a plan time at least 1 and at least the squared length of the line covers it. */
  lemma CoversLine(ship: Ship, destination: Vector2D, dTime: real, startLine: Vector2D)
    requires ship.speed >= 1 && dTime >= 1.0 && dTime >= destination.Sub(startLine).Quadratic()
    ensures LineCovers(ship, destination, dTime, startLine)
  {
    CoversWhenLongEnough(ship.speed as real, dTime, destination.Sub(startLine).Quadratic());
  }

  /** `200 * (d.Floor + 1)` milliseconds after the start, more than `d` units of plan time have elapsed. */
  lemma ElapsedAtLeast(p: Plan, t: int, d: real)
    requires t >= p.startTime + 200 * (d.Floor + 1)
    ensures Elapsed(p, t) >= d
  {
    assert (t - p.startTime) as real >= 200.0 * (d.Floor + 1) as real;
  }

  /**
   * Arrival on a turning plan is exact too: from `TurnArrivalTime` on, a
   * flying turning plan predicts exactly the destination, and advancing it
   * leaves the ship at rest exactly there.
   */
  lemma TurnArrives(m: Library, ship: Ship, p: Plan, t: int, clock: int)
    requires WellFormed(m, ship, p) && p.isFlyMode && p.dirRotate != 0
    requires t >= TurnArrivalTime(m, ship, p)
    ensures FuturePosition(m, ship, p, t) == p.destination
    ensures var r := Updated(m, ship, p, t, clock);
      !r.isFlyMode && r.curPos == p.destination && r.start == p.destination && r.destination == p.destination
  {
    TurnArrivalTimeLongEnough(m, ship, p, t);
    UpdatedRewritesFinishedArc(m, ship, p, t, clock);
  }

  /** A time by which any flying plan has arrived: `LineArrivalTime` or `TurnArrivalTime`. */
  function ArrivalTime(m: Library, ship: Ship, p: Plan): (t: int)
    requires WellFormed(m, ship, p)
    ensures t >= p.startTime
  {
    if p.dirRotate == 0 then LineArrivalTime(p) else TurnArrivalTime(m, ship, p)
  }

  /**
   * Every order is reached exactly: from `ArrivalTime` on, any flying plan of
   * a ship with speed at least 1 predicts exactly the destination, and
   * advancing it leaves the ship at rest exactly there.
   */
  lemma Arrives(m: Library, ship: Ship, p: Plan, t: int, clock: int)
    requires WellFormed(m, ship, p) && p.isFlyMode && ship.speed >= 1
    requires t >= ArrivalTime(m, ship, p)
    ensures FuturePosition(m, ship, p, t) == p.destination
    ensures var r := Updated(m, ship, p, t, clock);
      !r.isFlyMode && r.curPos == p.destination && r.start == p.destination && r.destination == p.destination
  {
    if p.dirRotate == 0 {
      LineArrives(m, ship, p, t, clock);
    } else {
      TurnArrives(m, ship, p, t, clock);
    }
  }

  /** With speed at least 1 and time at least the squared distance plus one, the travel's square exceeds the distance. */
  lemma CoversWhenLongEnough(speed: real, dTime: real, dist: real)
    requires speed >= 1.0 && dTime >= 1.0 && dTime >= dist
    ensures !((speed * dTime) * (speed * dTime) < dist)
  {
    assert speed * dTime >= dTime;
    assert (speed * dTime) * (speed * dTime) >= dTime * dTime >= dTime;
  }

  // ---------------------------------------------------------------------
  // Commanding (MoveCommand)

  /**
   * The plan after `MoveCommand(newDestination)` with the clock reading
   * `clock`: a ship without an engine keeps its plan; otherwise the current
   * position and heading are brought up to `clock` and a new plan to the
   * destination is made from them, started at `clock`.
   */
  function Commanded(m: Library, ship: Ship, p: Plan, newDestination: Vector2D, clock: int): (r: Plan)
    requires WellFormed(m, ship, p) && (NoEngine(ship) || Propelled(ship))
    ensures WellFormed(m, ship, r)
  {
    if NoEngine(ship) then p
    else
      var u := Updated(m, ship, p.(lastUpdate := clock), clock, clock);
      var q := u.(start := u.curPos, direction := u.curHead, destination := newDestination, startTime := u.lastUpdate);
      Planned(m, ship, q, clock).(lastUpdate := clock)
  }

  /** The position the ship holds at `clock`, where a new command starts from. */
  function PositionAt(m: Library, ship: Ship, p: Plan, clock: int): Vector2D
    requires WellFormed(m, ship, p)
  {
    if p.isFlyMode then FuturePosition(m, ship, p, clock) else p.curPos
  }

  /** A ship without an engine ignores the command entirely. */
  lemma CommandedNoEngine(m: Library, ship: Ship, p: Plan, newDestination: Vector2D, clock: int)
    requires WellFormed(m, ship, p) && NoEngine(ship)
    ensures Commanded(m, ship, p, newDestination, clock) == p
  {
  }

  /**
   * A command to a ship with an engine: the new plan heads for the new
   * destination, started at `clock`. Less than a unit away from where the
   * ship is, it rests exactly at the destination; otherwise it flies from
   * where the ship is, with the turn sense chosen from the heading error.
   */
  lemma CommandedPlan(m: Library, ship: Ship, p: Plan, newDestination: Vector2D, clock: int)
    requires WellFormed(m, ship, p) && Propelled(ship)
    ensures var r := Commanded(m, ship, p, newDestination, clock);
      var from := PositionAt(m, ship, p, clock);
      && r.destination == newDestination && r.startTime == clock && r.lastUpdate == clock
      && (newDestination.Sub(from).Quadratic() < 1.0 ==>
            !r.isFlyMode && r.start == newDestination && r.curPos == newDestination)
      && (!(newDestination.Sub(from).Quadratic() < 1.0) ==>
            && r.isFlyMode && r.start == from && r.curPos == from
            && r.direction == Updated(m, ship, p.(lastUpdate := clock), clock, clock).curHead
            && r.dirRotate == Sense(r.direction.GetAngle(m, newDestination.Sub(from))))
  {
    var p1 := p.(lastUpdate := clock);
    var u := Updated(m, ship, p1, clock, clock);
    if p.isFlyMode {
      UpdatedAgreesWithFuture(m, ship, p1, clock, clock);
      assert FuturePosition(m, ship, p1, clock) == FuturePosition(m, ship, p, clock);
    }
    assert u.curPos == PositionAt(m, ship, p, clock);
    assert u.lastUpdate == clock;
  }

  // ---------------------------------------------------------------------
  // The steps of the command's methods, one branch at a time

  /** A plan with the fields `WithTurn` sets, set as it sets them, is the plan `WithTurn` gives. */
  lemma WithTurnIs(m: Library, p: Plan, s: int, radius: real, r: Plan)
    requires p.direction != Zero && (s == 1 || s == -1) && radius > 0.0
    requires r == p.(dirRotate := s, radiusRotate := r.radiusRotate, dotRotate := r.dotRotate, rotateAngle := r.rotateAngle)
    requires r.dotRotate == TurnCentre(p.start, p.direction, s, radius)
    requires r.radiusRotate == r.dotRotate.Sub(p.start).Modulus(m)
    requires r.rotateAngle == Unwrapped(HeadingChange(m, p.direction, p.destination, r.dotRotate, r.radiusRotate, s), s)
    ensures r == WithTurn(m, p, s, radius)
  {
  }

  /** Planning a path shorter than a unit is `SetPos` at the destination. */
  lemma PlannedWhenShort(m: Library, ship: Ship, p: Plan, clock: int)
    requires WellFormed(m, ship, p) && ShortPath(p)
    ensures Planned(m, ship, p, clock) == Idle(p, p.destination, clock)
  {
  }

  /** Planning without a turn changes only the turn sense and the flight mode. */
  lemma PlannedStraight(m: Library, ship: Ship, p: Plan, clock: int)
    requires WellFormed(m, ship, p) && !ShortPath(p) && Sense(PathAngle(m, p.start, p.direction, p.destination)) == 0
    ensures Planned(m, ship, p, clock) == p.(dirRotate := 0, isFlyMode := true)
  {
  }

  /** On a straight plan, advancing it is moving along the line. */
  lemma UpdatedStraight(m: Library, ship: Ship, p: Plan, timeNow: int, clock: int)
    requires WellFormed(m, ship, p) && p.isFlyMode && p.startTime <= timeNow && p.dirRotate == 0
    ensures Updated(m, ship, p, timeNow, clock)
         == MovedOnLine(m, ship, p.(lastCalcPosition := timeNow, curPos := p.destination), Elapsed(p, timeNow), clock)
  {
  }

  /** A turning plan in flight advances by `Turned` from the destination as the provisional position. */
  lemma UpdatedTurning(m: Library, ship: Ship, p: Plan, timeNow: int, clock: int)
    requires WellFormed(m, ship, p) && p.isFlyMode && p.startTime <= timeNow && p.dirRotate != 0
    ensures Updated(m, ship, p, timeNow, clock)
         == Turned(m, ship, p.(lastCalcPosition := timeNow, curPos := p.destination), Elapsed(p, timeNow), clock)
  {
  }

  /** A turn whose arc is being swept puts the ship on the arc, with the heading turned by the angle swept. */
  lemma TurnedOnArc(m: Library, ship: Ship, p: Plan, dTime: real, clock: int, dAlfa: real)
    requires WellFormed(m, ship, p) && p.dirRotate != 0
    requires dAlfa == ArcAngle(m, ship, p.radiusRotate, dTime) && dAlfa < Abs(p.rotateAngle)
    ensures Turned(m, ship, p, dTime, clock)
         == p.(curPos := ArcPoint(m, p.start, p.dotRotate, p.dirRotate, dAlfa),
               curHead := ArcHeading(m, p.direction, p.dirRotate, dAlfa))
  {
  }

  /** A turn whose arc is swept is the arc rewritten as a line, then the time left spent on that line. */
  lemma TurnedAfterArc(m: Library, ship: Ship, p: Plan, dTime: real, clock: int)
    requires WellFormed(m, ship, p) && p.dirRotate != 0
    requires !(ArcAngle(m, ship, p.radiusRotate, dTime) < Abs(p.rotateAngle))
    ensures Turned(m, ship, p, dTime, clock)
         == MovedOnLine(m, ship, ArcRewritten(m, ship, p), dTime - ArcTime(m, ship, p.radiusRotate, Abs(p.rotateAngle)), clock)
  {
    var dAlfa := ArcAngle(m, ship, p.radiusRotate, dTime);
    assert !(dAlfa < Abs(p.rotateAngle));
  }

  /** A command to a ship with an engine is advancing the plan to `clock`, then planning afresh from there. */
  lemma CommandedIs(m: Library, ship: Ship, p: Plan, newDestination: Vector2D, clock: int)
    requires WellFormed(m, ship, p) && Propelled(ship)
    ensures var u := Updated(m, ship, p.(lastUpdate := clock), clock, clock);
      Commanded(m, ship, p, newDestination, clock)
      == Planned(m, ship, u.(start := u.curPos, direction := u.curHead, destination := newDestination, startTime := u.lastUpdate),
                 clock).(lastUpdate := clock)
  {
  }

  // ---------------------------------------------------------------------
  // Assumptions on the library, and helpers

  /** The library's square root is exact at `x`. */
  ghost predicate ExactSqrt(m: Library, x: real) {
    m.sqrt(x) * m.sqrt(x) == x
  }

  /** The library's sine and cosine satisfy sin^2 + cos^2 = 1 at `alfa`. */
  ghost predicate ExactRotation(m: Library, alfa: real) {
    m.sin(alfa) * m.sin(alfa) + m.cos(alfa) * m.cos(alfa) == 1.0
  }

  /** A point rotated about a centre stays at the same distance from it, where sine and cosine are exact. */
  lemma StaysOnCircle(m: Library, alfa: real, a: Vector2D, centre: Vector2D)
    ensures ExactRotation(m, alfa) ==>
      a.RotateAround(m, alfa, centre).GetDistance2(centre) == a.GetDistance2(centre)
  {
    if ExactRotation(m, alfa) {
      RotateAroundKeepsDistance(m, alfa, a, centre);
    }
  }

  lemma QuotientPositive(a: real, b: real)
    requires a >= 0.0 && b > 0.0
    ensures a / b >= 0.0
    ensures a > 0.0 ==> a / b > 0.0
  {
  }

  lemma ProductSign(a: real, b: real)
    requires a >= 0.0
    ensures b >= 0.0 ==> a * b >= 0.0
    ensures a > 0.0 && b > 0.0 ==> a * b > 0.0
  {
  }

  /** Rounding a non-negative number gives a non-negative integer. */
  lemma RoundNonNegative(x: real)
    requires x >= 0.0
    ensures Round(x) >= 0
  {
  }

  /** A cross product equal to `s * r * q`, with `s` = +-1, `r > 0` and `q > 0`, has the sign of `s`. */
  lemma TurnSide(cross: real, s: int, r: real, q: real)
    requires s == 1 || s == -1
    requires r > 0.0 && q > 0.0 && cross == s as real * r * q
    ensures s as real * cross > 0.0
  {
    ProductSign(r, q);
    if s == -1 {
      assert cross == -(r * q);
    }
  }

  /**
   * The turn offset of a non-zero heading, a sense of +-1 and a positive
   * radius is a non-zero vector, and adding the start gives the turn centre.
   */
  lemma TurnOffsetFacts(m: Library, start: Vector2D, direction: Vector2D, sign: int, r: real)
    requires direction != Zero && (sign == 1 || sign == -1) && r > 0.0
    ensures TurnCentre(start, direction, sign, r).Sub(start) == TurnOffset(direction, sign, r)
    ensures TurnOffset(direction, sign, r).Modulus(m) > 0.0
  {
    var offset := TurnOffset(direction, sign, r);
    assert offset.Add(start).Sub(start) == offset;
    assert offset != Zero;
  }

  /** A step of `k` times the path from `startLine` is that much away from it. */
  lemma LineStep(path: Vector2D, startLine: Vector2D, k: real)
    ensures startLine.Add(path.Scale(k)).Sub(startLine) == path.Scale(k)
  {
  }

  lemma SqrtPositive(m: Library, path: Vector2D, travel: real)
    requires travel * travel < path.Quadratic()
    ensures m.sqrt(path.Quadratic()) > 0.0
  {
    SquareSign(travel);
    SqrtSign(m, path.Quadratic());
  }

  lemma ScaledDotNonNegative(a: Vector2D, k: real)
    requires k >= 0.0
    ensures a.Dot(a.Scale(k)) >= 0.0
  {
    ScaledDot(a, k);
    ProductSign(k, a.Quadratic());
  }

  lemma ScaledCross(a: Vector2D, k: real)
    ensures Cross(a, a.Scale(k)) == 0.0
  {
    assert a.X * (k * a.Y) == a.Y * (k * a.X);
  }

  lemma ScaledDot(a: Vector2D, k: real)
    ensures a.Dot(a.Scale(k)) == k * a.Quadratic()
  {
  }

  lemma ScaledLength(a: Vector2D, k: real, sq: real, travel: real)
    requires sq != 0.0 && k == travel / sq && sq * sq == a.Quadratic()
    ensures a.Scale(k).Quadratic() == travel * travel
  {
    assert k * sq == travel;
    ScaleQuadratic(a, k);
    calc {
      a.Scale(k).Quadratic();
      k * k * a.Quadratic();
      k * k * (sq * sq);
      (k * sq) * (k * sq);
      travel * travel;
    }
  }
}

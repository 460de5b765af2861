/**
 * `StarShipCommand`: the command object of one ship, whose methods update
 * its fields in place.
 *
 * Every method is proved to leave the fields (`Snapshot`) exactly as the
 * matching function of module `ShipPlan` says, so the properties proved
 * there about `Idle`, `Planned`, `Commanded`, `MovedOnLine` and `Updated`
 * are properties of these methods. The ship (`IShip`) is given as its two
 * readings; the value its `LastUpdate` takes when the command completes an
 * update is passed in as `clock`.
 */
module ShipCommand {
  import opened FloatMath
  import opened Geometry
  import opened ShipPlan

  class StarShipCommand {
    /** The library functions the command computes with. */
    const maths: Library
    /** The ship the command moves. */
    const ship: Ship

    var startTime: int
    var lastUpdate: int
    var start: Vector2D
    var destination: Vector2D
    var direction: Vector2D
    var isFlyMode: bool
    var dirRotate: int
    var radiusRotate: real
    var rotateAngle: real
    var dotRotate: Vector2D
    var curHead: Vector2D
    var curPos: Vector2D
    var lastCalcPosition: int

    /** All fields, as one plan value. */
    function Snapshot(): Plan
      reads this
    {
      Plan(startTime, lastUpdate, start, destination, direction, isFlyMode, dirRotate,
           radiusRotate, rotateAngle, dotRotate, curHead, curPos, lastCalcPosition)
    }

    /** The command's invariant: `ShipPlan.WellFormed` of its fields. */
    ghost predicate Valid()
      reads this`dirRotate, this`radiusRotate
      ensures Valid() <==> WellFormed(maths, ship, Snapshot())
    {
      && -1 <= dirRotate <= 1
      && (dirRotate != 0 ==> Propelled(ship) && radiusRotate > 0.0)
    }

    /** A new command is at rest at the origin, heading along the x axis, with its current position at (1, 0). */
    constructor (maths: Library, ship: Ship)
      ensures Valid() && this.maths == maths && this.ship == ship
      ensures Snapshot() == Plan(0, 0, Zero, Zero, Vector2D(1.0, 0.0), false, 0, 0.0, 0.0, Zero,
                                 Vector2D(1.0, 0.0), Vector2D(1.0, 0.0), 0)
    {
      this.maths := maths;
      this.ship := ship;
      startTime := 0;
      lastUpdate := 0;
      start := Zero;
      destination := Zero;
      direction := Vector2D(1.0, 0.0);
      isFlyMode := false;
      dirRotate := 0;
      radiusRotate := 0.0;
      rotateAngle := 0.0;
      dotRotate := Zero;
      curHead := Vector2D(1.0, 0.0);
      curPos := Vector2D(1.0, 0.0);
      lastCalcPosition := 0;
    }

    // -------------------------------------------------------------------
    // Commands

    /** Puts the ship at rest at `newPos`; the heading is kept from the previous command. */
    method SetPos(newPos: Vector2D, clock: int)
      requires Valid()
      modifies this
      ensures Valid()
      ensures Snapshot() == Idle(old(Snapshot()), newPos, clock)
    {
      start := newPos;
      curPos := newPos;
      destination := newPos;
      lastUpdate := clock;
      startTime := lastUpdate;
      isFlyMode := false;
    }

    /**
     * Orders the ship to `newDestination`: a ship without an engine ignores
     * the order; otherwise the position and heading are brought up to
     * `clock` and the plan is made afresh from them.
     */
    method MoveCommand(newDestination: Vector2D, clock: int)
      requires Valid()
      requires NoEngine(ship) || Propelled(ship)
      modifies this
      ensures Valid()
      ensures Snapshot() == Commanded(maths, ship, old(Snapshot()), newDestination, clock)
    {
      if ship.speed < 0 || ship.shiftSpeed < 0 {
        CommandedNoEngine(maths, ship, Snapshot(), newDestination, clock);
        return;
      }
      CommandedIs(maths, ship, Snapshot(), newDestination, clock);
      lastUpdate := clock;
      var _ := UpdateCurPosition(clock, clock);
      Replan(newDestination, clock, Snapshot().(start := curPos, direction := curHead, destination := newDestination,
                                                startTime := lastUpdate));
    }

    /**
     * The second half of `MoveCommand`: a new plan `q` from the current
     * position and heading to `newDestination`.
     */
    method Replan(newDestination: Vector2D, clock: int, ghost q: Plan)
      requires Valid() && Propelled(ship)
      requires q == Snapshot().(start := curPos, direction := curHead, destination := newDestination, startTime := lastUpdate)
      modifies this
      ensures Valid()
      ensures Snapshot() == Planned(maths, ship, q, clock).(lastUpdate := clock)
    {
      start := curPos;
      direction := curHead;
      destination := newDestination;
      startTime := lastUpdate;
      CalcNewDestination(clock, q);
      lastUpdate := clock;
    }

    // -------------------------------------------------------------------
    // Planning

    /**
     * Makes the plan from `start`, `direction` and `destination`: a short
     * path puts the ship at rest at the destination; otherwise the turn sense
     * is chosen from the heading error and a turn gets its centre, radius
     * and swept angle.
     */
    method CalcNewDestination(clock: int, ghost p: Plan)
      requires Valid() && Propelled(ship) && Snapshot() == p
      modifies this
      ensures Valid()
      ensures Snapshot() == Planned(maths, ship, p, clock)
    {
      var path := destination.Sub(start);
      if 1.0 > path.Quadratic() {
        PlannedWhenShort(maths, ship, p, clock);
        SetPos(destination, clock);
        return;
      }
      var dirAngle := direction.GetAngle(maths, path);
      dirRotate := 0;
      if dirAngle > MinAngle {
        dirRotate := 1;
      }
      if dirAngle < -MinAngle {
        dirRotate := -1;
      }
      BeginFlight(p, clock);
    }

    /** The end of `CalcNewDestination` once the turn sense is chosen: the turn, if any, is set up and the ship flies. */
    method BeginFlight(ghost p: Plan, clock: int)
      requires WellFormed(maths, ship, p) && !ShortPath(p)
      requires Snapshot() == p.(dirRotate := Sense(PathAngle(maths, p.start, p.direction, p.destination)))
      requires Propelled(ship)
      modifies this
      ensures Valid()
      ensures Snapshot() == Planned(maths, ship, p, clock)
    {
      if 0 != dirRotate {
        PlannedIsWithTurn(maths, ship, p, clock);
        var radius := PlannedRadius(maths, ship, start, direction, destination);
        PlaceTurn(radius, p);
      } else {
        PlannedStraight(maths, ship, p, clock);
      }
      isFlyMode := true;
    }

    /**
     * The turn for the radius planning chose (`PlannedRadius`, which
     * consults `IsBlindZone`): the centre square to the heading on the side
     * of the turn, the radius made the centre's distance from the start, then
     * the angle to sweep.
     */
    method PlaceTurn(radius: real, ghost p: Plan)
      requires direction != Zero && (dirRotate == 1 || dirRotate == -1) && radius > 0.0
      requires Snapshot() == p.(dirRotate := dirRotate)
      modifies this`radiusRotate, this`dotRotate, this`rotateAngle
      ensures Snapshot() == WithTurn(maths, p, dirRotate, radius)
    {
      var offset := TurnOffset(direction, dirRotate, radius);
      TurnOffsetFacts(maths, start, direction, dirRotate, radius);
      radiusRotate := offset.Modulus(maths);
      dotRotate := offset.Add(start);
      rotateAngle := GetRotateAngle();
      WithTurnIs(maths, p, dirRotate, radius, Snapshot());
    }

    /**
     * The angle the turn sweeps: the heading change toward the tangent to the
     * destination, brought by whole turns into [0, 2pi) for a left turn and
     * into (-2pi, 0] otherwise.
     */
    method GetRotateAngle() returns (result: real)
      requires radiusRotate >= 0.0
      ensures result == Unwrapped(HeadingChange(maths, direction, destination, dotRotate, radiusRotate, dirRotate), dirRotate)
    {
      var a0 := HeadingChange(maths, direction, destination, dotRotate, radiusRotate, dirRotate);
      result := a0;
      if dirRotate > 0 {
        while result < 0.0
          invariant result == a0 || (a0 < 0.0 && result == a0 + PI * 2.0)
          decreases -result
        {
          result := result + PI * 2.0;
        }
      } else {
        while result > 0.0
          invariant result == a0 || (a0 > 0.0 && result == a0 - PI * 2.0)
          decreases result
        {
          result := result - PI * 2.0;
        }
      }
    }

    // -------------------------------------------------------------------
    // Position

    /**
     * `GetFuturePosition`: where the plan puts the ship at time `t`, without
     * changing anything: `start` before the plan begins, the destination at
     * rest, and a point on the line to the destination on a straight flight.
     */
    function GetFuturePosition(t: int): (r: Vector2D)
      reads this
      requires Valid()
      ensures t < startTime ==> r == start
      ensures startTime <= t && !isFlyMode ==> r == destination
      ensures startTime <= t && isFlyMode && dirRotate == 0 ==> Cross(destination.Sub(start), r.Sub(start)) == 0.0
    {
      var r := FuturePosition(maths, ship, Snapshot(), t);
      assert startTime <= t && isFlyMode && dirRotate == 0 ==> Cross(destination.Sub(start), r.Sub(start)) == 0.0 by {
        if startTime <= t && isFlyMode && dirRotate == 0 {
          FuturePositionOnLine(maths, ship, Snapshot(), t);
        }
      }
      r
    }

    /**
     * Evaluates the plan at `timeNow` and stores the result as the current
     * position, which is what `GetFuturePosition` predicts for a ship in
     * flight. A finished arc is rewritten as a straight line from the arc's
     * end; `clock` is the time stamp taken if the ship arrives.
     */
    method UpdateCurPosition(timeNow: int, clock: int) returns (r: Vector2D)
      requires Valid()
      modifies this
      ensures Valid()
      ensures Snapshot() == Updated(maths, ship, old(Snapshot()), timeNow, clock)
      ensures r == curPos
      ensures old(isFlyMode) ==> r == FuturePosition(maths, ship, old(Snapshot()), timeNow)
    {
      if !isFlyMode {
        UpdatedAtRest(maths, ship, Snapshot(), timeNow, clock);
        return curPos;
      }
      UpdatedAgreesWithFuture(maths, ship, Snapshot(), timeNow, clock);
      Fly(timeNow, clock);
      r := curPos;
    }

    /** `UpdateCurPosition` for a ship in flight. */
    method Fly(timeNow: int, clock: int)
      requires Valid() && isFlyMode
      modifies this
      ensures Valid()
      ensures Snapshot() == Updated(maths, ship, old(Snapshot()), timeNow, clock)
    {
      ghost var p := Snapshot();
      lastCalcPosition := timeNow;
      if timeNow < startTime {
        UpdatedBeforeStart(maths, ship, p, timeNow, clock);
        curPos := start;
        return;
      }
      curPos := destination;
      ghost var q := p.(lastCalcPosition := timeNow, curPos := p.destination);
      var dTime := (timeNow - startTime) as real / Dd;
      if 0 == dirRotate {
        UpdatedStraight(maths, ship, p, timeNow, clock);
        MoveOnLine(dTime, clock, q);
      } else {
        UpdatedTurning(maths, ship, p, timeNow, clock);
        MoveOnArc(dTime, clock, q);
      }
    }

    /**
     * `dTime` seconds into the turn of plan `p` (the fields on entry): the
     * point and heading on the arc while it is being swept; afterwards the
     * arc is rewritten as a line and the ship moves along it for the time
     * left.
     */
    method MoveOnArc(dTime: real, clock: int, ghost p: Plan)
      requires Valid() && dirRotate != 0 && Snapshot() == p
      modifies this
      ensures Valid()
      ensures Snapshot() == Turned(maths, ship, p, dTime, clock)
    {
      var dAlfa := ArcAngle(maths, ship, radiusRotate, dTime);
      if dAlfa < Abs(rotateAngle) {
        TurnedOnArc(maths, ship, p, dTime, clock, dAlfa);
        curPos := ArcPoint(maths, start, dotRotate, dirRotate, dAlfa);
        curHead := ArcHeading(maths, direction, dirRotate, dAlfa);
      } else {
        TurnedAfterArc(maths, ship, p, dTime, clock);
        var rotTime := FinishArc(p);
        MoveOnLine(dTime - rotTime, clock, ArcRewritten(maths, ship, p));
      }
    }

    /**
     * The finished arc of plan `p` (the fields on entry) rewritten as a
     * straight line from the arc's end, started when the arc ended; the
     * time the arc took is returned.
     */
    method FinishArc(ghost p: Plan) returns (rotTime: real)
      requires Valid() && dirRotate != 0 && Snapshot() == p
      modifies this
      ensures Valid()
      ensures Snapshot() == ArcRewritten(maths, ship, p)
      ensures rotTime == ArcTime(maths, ship, p.radiusRotate, Abs(p.rotateAngle))
    {
      var dAlfa := Abs(rotateAngle);
      var arcEnd := ArcPoint(maths, start, dotRotate, dirRotate, dAlfa);
      rotTime := ArcTime(maths, ship, radiusRotate, dAlfa);
      var head := destination.Sub(arcEnd).Unit(maths);
      curPos := arcEnd;
      curHead := head;
      dirRotate := 0;
      start := arcEnd;
      direction := head;
      startTime := startTime + Round(rotTime * Dd);
    }

    /**
     * Moves the ship of plan `p` (the fields on entry) `dTime` along the
     * line from `start`; once the line is covered the ship comes to rest at
     * the destination.
     */
    method MoveOnLine(dTime: real, clock: int, ghost p: Plan)
      requires Valid() && Snapshot() == p
      modifies this
      ensures Valid()
      ensures Snapshot() == MovedOnLine(maths, ship, p, dTime, clock)
    {
      var path := destination.Sub(start);
      var dist := path.Quadratic();
      if (ship.speed as real * dTime) * (ship.speed as real * dTime) < dist {
        isFlyMode := true;
        curPos := MoveLine(maths, ship, destination, dTime, start);
      } else {
        SetPos(destination, clock);
      }
    }
  }
}

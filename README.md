# StarShip movement command, planar vectors and duration text

A model of the movement core of StarShip, a space game in which every ship flies a
planned course from the order it was last given.

A ship's `StarShipCommand` holds the current plan:
- It is a straight line from `start` to `destination`.
- Or it first sweeps an arc of a circle about `dotRotate`, then flies the straight line.
- Everything else (where the ship is now, where it will be, when it arrives) is computed from the plan.

The command's operations:
- `MoveCommand` orders the ship to a new destination. It brings the position up to the present and plans afresh from there.
- `CalcNewDestination` does the planning:
  - it chooses the turn sense from the heading error;
  - it chooses a tightest-turn circle, or a tighter circle through the destination when the destination lies in the "blind zone" (`IsBlindZone`);
  - it computes the angle to sweep (`GetRotateAngle`).
- `UpdateCurPosition` evaluates the plan at a time and stores the result. Once the arc is finished, it rewrites the plan as a straight line.
- `GetFuturePosition` and `GetMoveLine` make the same prediction without changing anything.
- `SetPos` and `MoveOnLine` put the ship at rest, or move it along the line.

`Vector2D` is the planar vector value type the command computes with.

`JSTime` supplies the time units in milliseconds and formats a duration as a short Russian string ("2д 3ч", "5ч 0мин", "1мин 30сек", "42сек").

Modules:
- `FloatMath` (`float_math.dfy`):
  - `Math.PI`, `Math.Abs` and `Math.Round` (round half to even);
  - `Math.Sqrt/Sin/Cos/Asin` as uninterpreted functions, gathered in a `Library` value together with the few facts assumed about them.
- `Geometry` (`vector2d.dfy`): the `Vector2D` datatype and its operators, with their algebra.
- `ShipPlan` (`ship_plan.dfy`):
  - the command's fields as one `Plan` value;
  - every operation as a function from plan to plan (`Idle`, `Planned`, `Commanded`, `MovedOnLine`, `Turned`, `Updated`) or from plan to position (`MoveLine`, `FuturePosition`);
  - the lemmas about them.
- `ShipCommand` (`ship_command.dfy`):
  - the class `StarShipCommand`, whose methods assign its fields step by step as the C# methods do;
  - each method is proved to leave the fields (`Snapshot()`) exactly as the matching `ShipPlan` function says.
- `JSTime` (`js_time.dfy`):
  - the time-unit constants;
  - 64-bit `long` arithmetic and a .NET `TimeSpan`;
  - `int.ToString()` and both `ToTimeString` overloads;
  - each of the four branches restated in milliseconds.

Doubles are modelled as exact reals. The ship (`IShip`) is given as its two readings, `Speed` and `ShiftSpeed`. The value `LastUpdate` takes when the command calls `CompleteUpdating` is passed in as `clock`.

A destination less than a unit away ends planning through `SetPos` before `dirRotate` is reset (ShipCommand.cs:122, 126), so `dirRotate` keeps its previous value. `PlannedShortPath` states that.

## Model

| member | source | states |
|---|---|---|
| FloatMath.Abs | Assets/Script/ShipCommand.cs:235 | `Math.Abs` is non-negative and is `x` or `-x` |
| FloatMath.Round | Assets/Script/ShipCommand.cs:262 | `Math.Round` is within one half of `x`, and a tie goes to the even integer |
| FloatMath.SqrtSign | Assets/Script/Vector2D.cs:27 | accessor for an assumed fact of `Library`, not a proof: the square root is 0 at 0 and positive at positive arguments |
| FloatMath.AsinRange | Assets/Script/Vector2D.cs:142-144 | accessor for an assumed fact of `Library`, not a proof: the arcsine lies in [-pi/2, pi/2] and has the sign of its argument |
| FloatMath.SinPositive | Assets/Script/ShipCommand.cs:135 | accessor for an assumed fact of `Library`, not a proof: the sine is positive on (0, pi], so the blind-zone radius is well defined |
| Geometry.Vector2D.Quadratic | Assets/Script/Vector2D.cs:22 | the squared length is non-negative, and zero exactly for the zero vector |
| Geometry.Vector2D.Modulus | Assets/Script/Vector2D.cs:25-28 | the length is non-negative, and zero exactly for the zero vector |
| Geometry.Vector2D.Dot | Assets/Script/Vector2D.cs:30-34 | the scalar product `X*v.X + Y*v.Y`; no contract of its own, its self-product is `Quadratic` (`QuadraticIsSelfDot`) |
| Geometry.Vector2D.Unit | Assets/Script/Vector2D.cs:37-41 | the result is zero exactly for the zero vector, and scaled by the length it gives the vector back |
| Geometry.UnitHasLengthOne | Assets/Script/Vector2D.cs:37-41 | a non-zero vector normalises to squared length 1 where the square root is exact |
| Geometry.Vector2D.Eq | Assets/Script/Vector2D.cs:91-94 | `==` holds exactly when the two vectors are equal |
| Geometry.Vector2D.NotEq | Assets/Script/Vector2D.cs:96-99 | `!=` is the negation of `==` |
| Geometry.Vector2D.Equals | Assets/Script/Vector2D.cs:74-83 | `Equals` holds exactly for a boxed vector equal by `==` |
| Geometry.EqualityOperators | Assets/Script/Vector2D.cs:74-99 | `!=` is the complement of `==`; `Equals` agrees with `==` on vectors and is false for anything else |
| Geometry.Vector2D.Add | Assets/Script/Vector2D.cs:101-104 | componentwise sum; no contract of its own, its algebra is in `AddCommutes` and `SubAddCancel` |
| Geometry.Vector2D.Sub | Assets/Script/Vector2D.cs:106-109 | componentwise difference; no contract of its own, undone by `Add` (`SubAddCancel`) |
| Geometry.Vector2D.Scale | Assets/Script/Vector2D.cs:111-114 | componentwise product with a scalar; no contract of its own, its effect on length is `ScaleQuadratic` |
| Geometry.Vector2D.Neg | Assets/Script/Vector2D.cs:116-119 | componentwise negation; no contract of its own, it is scaling by -1 (`NegIsScaleMinusOne`) |
| Geometry.SubAddCancel | Assets/Script/Vector2D.cs:101-109 | `(a - b) + b == a` |
| Geometry.NegIsScaleMinusOne | Assets/Script/Vector2D.cs:106-119 | unary minus is scaling by -1, and `a - b` is `a + (-b)` |
| Geometry.AddCommutes | Assets/Script/Vector2D.cs:101-104 | `+` commutes and has the zero vector as unit |
| Geometry.ScaleQuadratic | Assets/Script/Vector2D.cs:111-114 | scaling by `k` multiplies the squared length by `k * k` |
| Geometry.QuadraticIsSelfDot | Assets/Script/Vector2D.cs:22-34 | `Quadratic` is the scalar product of a vector with itself |
| Geometry.Vector2D.GetAngle | Assets/Script/Vector2D.cs:128-147 | the angle is 0 when either vector is zero, lies in (-pi, pi], is negative exactly when the cross product is, and positive exactly when the cross product is, or when it is zero and the vectors point apart |
| Geometry.AngleFromSinCos | Assets/Script/Vector2D.cs:142-146 | the arcsine, reflected for a negative cosine, lies in (-pi, pi] with the sign the sine gives |
| Geometry.Vector2D.GetDistance | Assets/Script/Vector2D.cs:149-153 | the distance is non-negative and zero exactly between equal points |
| Geometry.Vector2D.GetDistance2 | Assets/Script/Vector2D.cs:155-159 | the squared distance is non-negative and zero exactly between equal points |
| Geometry.Distance2Symmetric | Assets/Script/Vector2D.cs:155-159 | the squared distance is symmetric |
| Geometry.DistanceSymmetric | Assets/Script/Vector2D.cs:149-153 | the distance is symmetric |
| Geometry.Vector2D.IsParallelTo | Assets/Script/Vector2D.cs:161-168 | the test as written, on `X*v.Y + Y*v.X`; no contract of its own, see `ParallelPerpendicularSymmetric` and the counterexample below |
| Geometry.Vector2D.IsPerpendicularTo | Assets/Script/Vector2D.cs:170-176 | the test as written, on `X*v.Y + Y*v.X`; no contract of its own, see `ParallelPerpendicularSymmetric` and the counterexample below |
| Geometry.ParallelPerpendicularSymmetric | Assets/Script/Vector2D.cs:161-176 | both tests, as written, are symmetric in their two vectors |
| Geometry.ParallelPerpendicularAsWrittenCounterexample | Assets/Script/Vector2D.cs:161-176 | as written, (1,0) is not perpendicular to (0,1), is perpendicular to itself, and is not parallel to itself |
| Geometry.CorrectedTestsMeanGeometry | Assets/Script/Vector2D.cs:161-176 | on the scalar product, parallel holds exactly when the cross product vanishes and perpendicular exactly when the squared cross product is the product of the squared lengths; both are symmetric |
| Geometry.Lagrange | Assets/Script/Vector2D.cs:161-168 | the product of the squared lengths is the squared scalar product plus the squared cross product |
| Geometry.Vector2D.QuarterTurn | Assets/Script/ShipCommand.cs:142-144 | the heading turned a right angle keeps its squared length, is orthogonal to it and lies to its left |
| Geometry.Vector2D.Rotate | Assets/Script/Vector2D.cs:178-187 | rotation by `alfa` through the library's sine and cosine; no contract of its own, its properties are `RotateZero`, `RotateByNothing` and `RotatePreservesLength` |
| Geometry.Vector2D.RotateAround | Assets/Script/Vector2D.cs:189-195 | rotation about a pivot; no contract of its own, its properties are `PivotIsFixed` and `RotateAroundKeepsDistance` |
| Geometry.RotateZero | Assets/Script/Vector2D.cs:178-187 | rotating the zero vector gives the zero vector |
| Geometry.RotateByNothing | Assets/Script/Vector2D.cs:178-195 | both rotations by 0 leave every vector unchanged |
| Geometry.PivotIsFixed | Assets/Script/Vector2D.cs:189-195 | the pivot is a fixed point of rotation about itself, for every angle |
| Geometry.RotatePreservesLength | Assets/Script/Vector2D.cs:178-187 | rotation keeps the squared length where sin^2 + cos^2 = 1 |
| Geometry.RotateAroundKeepsDistance | Assets/Script/Vector2D.cs:189-195 | rotation about a pivot keeps the squared distance to the pivot where sin^2 + cos^2 = 1 |
| ShipPlan.MaxSpeedSquareFits | Assets/Script/ShipCommand.cs:139 | 46340 is the largest speed whose `int` square does not overflow |
| ShipPlan.TurnRadius | Assets/Script/ShipCommand.cs:139 | the tightest-turn radius `Speed * Speed / ShiftSpeed` is positive |
| ShipPlan.TurnCentre | Assets/Script/ShipCommand.cs:142-148 | the start plus the heading turned a right angle and scaled by the signed radius; no contract of its own, its geometry is `TurnCentreGeometry` |
| ShipPlan.TurnCentreGeometry | Assets/Script/ShipCommand.cs:142-148 | the turn centre is square to the heading, on the side of the sign, at `r` times the heading's length |
| ShipPlan.TurnOffsetFacts | Assets/Script/ShipCommand.cs:142-148 | the centre's offset from the start is non-zero, so the radius kept is positive |
| ShipPlan.Idle | Assets/Script/ShipCommand.cs:78-91 | the plan after `SetPos`; no contract of its own, what it leaves is stated by `IdleIsAtRest` |
| ShipPlan.IdleIsAtRest | Assets/Script/ShipCommand.cs:78-91 | after `SetPos(pos)`: at rest with `start`, `curPos` and `destination` at `pos`, `startTime` and `lastUpdate` at the clock, heading and turn unchanged, invariant kept |
| ShipPlan.ShortPath | Assets/Script/ShipCommand.cs:120-122 | the path's squared length is below 1; a predicate, used by `PlannedShortPath` and `PlannedWhenShort` |
| ShipPlan.PathAngle | Assets/Script/ShipCommand.cs:124 | the heading error lies in (-pi, pi] and is 0 unless the heading and the path are non-zero |
| ShipPlan.Sense | Assets/Script/ShipCommand.cs:126-129 | the sense is 1 exactly above 0.001, -1 exactly below -0.001, and 0 in the dead band |
| ShipPlan.BlindZone | Assets/Script/ShipCommand.cs:157-171 | `IsBlindZone` holds exactly when the destination is within the tightest-turn radius of the left or the right turn centre |
| ShipPlan.PlannedRadius | Assets/Script/ShipCommand.cs:133-140 | the planned radius is positive, and is the tightest-turn radius outside the blind zone |
| ShipPlan.PlannedRadiusInBlindZone | Assets/Script/ShipCommand.cs:133-136 | in the blind zone, the radius times twice the sine of the heading error is the distance to the destination |
| ShipPlan.PlannedRadiusOutside | Assets/Script/ShipCommand.cs:137-140 | outside the blind zone, the radius times `ShiftSpeed` is `Speed * Speed` |
| ShipPlan.HeadingChange | Assets/Script/ShipCommand.cs:176-180 | the heading change toward the tangent lies in (-pi, pi] |
| ShipPlan.Unwrapped | Assets/Script/ShipCommand.cs:182-189 | the unwrapped angle is in [0, 2pi) for a left turn and in (-2pi, 0] otherwise, differs from the input by 0 or one full turn, and is the input when that already has the right sign |
| ShipPlan.WithTurn | Assets/Script/ShipCommand.cs:131-151 | a turn changes only the sense, centre, radius and angle; the centre is the turn centre, the radius is its distance from the start and positive, and the angle is the unwrapped heading change |
| ShipPlan.Planned | Assets/Script/ShipCommand.cs:118-154 | planning keeps the invariant (`dirRotate` in {-1, 0, 1}, a turn has a positive radius) |
| ShipPlan.PlannedShortPath | Assets/Script/ShipCommand.cs:122 | a destination less than a unit away: the plan ends at rest exactly there, started at the clock, with `dirRotate` unchanged |
| ShipPlan.PlannedWhenShort | Assets/Script/ShipCommand.cs:122 | planning a path shorter than a unit is `SetPos(destination)` |
| ShipPlan.PlannedSense | Assets/Script/ShipCommand.cs:124-153 | a path of a unit or more: the ship flies from the same start, heading and destination; the sense is 1 exactly above 0.001 and -1 exactly below -0.001; without a turn nothing else changes |
| ShipPlan.PlannedStraight | Assets/Script/ShipCommand.cs:126-153 | planning without a turn changes only `dirRotate` (to 0) and `isFlyMode` (to true) |
| ShipPlan.PlannedTurnCentre | Assets/Script/ShipCommand.cs:142-148 | a planned turn's centre is square to the heading on the side of the turn, and the radius kept is its distance from the start |
| ShipPlan.TurnCentreSide | Assets/Script/ShipCommand.cs:142-148 | the centre of a turn of sense +-1 lies strictly on that side of the heading and is orthogonal to it |
| ShipPlan.PlannedTurnAngle | Assets/Script/ShipCommand.cs:174-192 | the swept angle is in [0, 2pi) for a left turn and in (-2pi, 0] for a right turn, and is the unwrapped heading change toward the tangent |
| ShipPlan.PlannedIsWithTurn | Assets/Script/ShipCommand.cs:131-153 | a planned turn is the plan with the turn set up for the planned radius, flying |
| ShipPlan.Elapsed | Assets/Script/ShipCommand.cs:217-218 | plan time from `startTime` on is non-negative |
| ShipPlan.ArcAngle | Assets/Script/ShipCommand.cs:227-232 | the angle swept is non-negative for non-negative time and positive for positive time |
| ShipPlan.ArcTime | Assets/Script/ShipCommand.cs:246-251 | the time to sweep a non-negative angle is non-negative; `ArcTimeSweepsArc` shows it is the time the pace of `ArcAngle` needs |
| ShipPlan.ArcPoint | Assets/Script/ShipCommand.cs:238 | the start rotated about the centre by the signed swept angle; no contract of its own, it stays on the circle (`ArcPointOnCircle`) |
| ShipPlan.ArcHeading | Assets/Script/ShipCommand.cs:239 | the initial heading rotated by the signed swept angle; no contract of its own, see `UpdatedOnArc` |
| ShipPlan.ArcPointOnCircle | Assets/Script/ShipCommand.cs:238-245 | the point on the arc stays on the turning circle where sine and cosine are exact |
| ShipPlan.MoveLine | Assets/Script/ShipCommand.cs:329-338 | `GetMoveLine` yields exactly the destination once `(Speed*dTime)^2` reaches the squared distance |
| ShipPlan.MoveLineStep | Assets/Script/ShipCommand.cs:334 | short of the destination, the result is `startLine` plus a multiple of the path, non-negative when the travel is |
| ShipPlan.MoveLineOnSegment | Assets/Script/ShipCommand.cs:334 | short of the destination, the result is on the line from `startLine` to the destination, on the destination's side for forward travel |
| ShipPlan.MoveLineTravel | Assets/Script/ShipCommand.cs:334 | short of the destination, the result is `Speed * dTime` from `startLine` where the square root is exact |
| ShipPlan.MovedOnLine | Assets/Script/ShipCommand.cs:274-289 | the plan after `MoveOnLine(dTime)`; no contract of its own, what it leaves is stated by `MovedOnLineEnds` |
| ShipPlan.MovedOnLineEnds | Assets/Script/ShipCommand.cs:274-289 | `MoveOnLine` keeps the ship flying exactly while `(Speed*dTime)^2` is below the squared distance, on the line from `start` to the destination; otherwise the ship is at rest exactly at the destination, as after `SetPos` |
| ShipPlan.FuturePosition | Assets/Script/ShipCommand.cs:292-326 | the prediction is `start` before `startTime` and the destination at rest |
| ShipPlan.FuturePositionOnLine | Assets/Script/ShipCommand.cs:299 | a straight flight predicts a point on the line through the start and the destination |
| ShipPlan.FuturePositionOnArc | Assets/Script/ShipCommand.cs:310 | during the arc, the prediction is on the turning circle where sine and cosine are exact |
| ShipPlan.FuturePositionAfterArc | Assets/Script/ShipCommand.cs:313-325 | after the arc, the prediction is on the line from the arc's end to the destination |
| ShipPlan.ArcRewritten | Assets/Script/ShipCommand.cs:244-262 | the rewritten plan keeps the invariant and the destination, has no turn, starts at the current position with the current heading, starts no earlier in time, and its heading scaled by the distance to the destination is exactly the path there |
| ShipPlan.Turned | Assets/Script/ShipCommand.cs:227-265 | the turn step keeps the destination, and either ends the turn or changes nothing but the position and heading |
| ShipPlan.Updated | Assets/Script/ShipCommand.cs:198-271 | advancing the plan keeps the invariant |
| ShipPlan.UpdatedAtRest | Assets/Script/ShipCommand.cs:200 | at rest, advancing changes nothing |
| ShipPlan.UpdatedBeforeStart | Assets/Script/ShipCommand.cs:208-212 | before `startTime`, only `lastCalcPosition` and `curPos` (set to `start`) change |
| ShipPlan.UpdatedAgreesWithFuture | Assets/Script/ShipCommand.cs:198-326 | in flight, the stored position is the one `GetFuturePosition` predicts |
| ShipPlan.UpdatedRewritesFinishedArc | Assets/Script/ShipCommand.cs:241-264 | a finished arc becomes a straight plan: no turn, same destination; either at rest at the destination, or flying from the arc's end with heading toward the destination and `startTime` advanced by the rounded arc time |
| ShipPlan.UpdatedOnArc | Assets/Script/ShipCommand.cs:235-240 | during the arc, only `lastCalcPosition`, `curPos` (the arc point) and `curHead` (the heading turned by the swept angle) change |
| ShipPlan.UpdatedOnLine | Assets/Script/ShipCommand.cs:274-289 | on a straight plan, the ship stays in flight exactly while the line is not covered, and otherwise rests exactly at the destination |
| ShipPlan.UpdatedStraight | Assets/Script/ShipCommand.cs:215-223 | on a straight plan, advancing is `MoveOnLine` from the destination as the provisional position |
| ShipPlan.UpdatedTurning | Assets/Script/ShipCommand.cs:215-266 | on a turning plan, advancing is the arc step from the destination as the provisional position |
| ShipPlan.TurnedOnArc | Assets/Script/ShipCommand.cs:235-240 | while the arc is swept, the turn step sets the arc point and the turned heading |
| ShipPlan.TurnedAfterArc | Assets/Script/ShipCommand.cs:241-265 | once the arc is swept, the turn step is the rewritten line followed by `MoveOnLine` for the time left |
| ShipPlan.LineArrivalTime | Assets/Script/ShipCommand.cs:279 | the arrival bound is not before `startTime` |
| ShipPlan.LineArrives | Assets/Script/ShipCommand.cs:279-288 | from the arrival bound on, at any speed of at least 1, the prediction is exactly the destination and advancing leaves the ship at rest exactly there |
| ShipPlan.ArcRate | Assets/Script/ShipCommand.cs:229-232 | the pace of the sweep, `Math.Sqrt(ShiftSpeed / radiusRotate)` or `Speed / radiusRotate`, is positive |
| ShipPlan.ArcAngleAtRate | Assets/Script/ShipCommand.cs:229-232 | the swept angle is the pace times the plan time in both branches |
| ShipPlan.ArcTimeSweepsArc | Assets/Script/ShipCommand.cs:227-251 | `ArcTime` of an angle is the angle divided by the pace, and sweeping for that long covers exactly that angle, so the line leg starts when the arc ends (on a small circle, where the square roots of `a/R` and `R/a` are reciprocal) |
| ShipPlan.SweepsWhenLongEnough | Assets/Script/ShipCommand.cs:235 | given at least the angle divided by the pace, the arc is finished |
| ShipPlan.TurnArrivalTime | Assets/Script/ShipCommand.cs:235-264 | the arrival bound of a turning plan is after `startTime` |
| ShipPlan.TurnArrivalTimeLongEnough | Assets/Script/ShipCommand.cs:235-279 | from the bound on, the arc is finished and the time left covers the line from the arc's end |
| ShipPlan.TurnArrives | Assets/Script/ShipCommand.cs:235-288 | from the bound on, a flying turning plan predicts exactly the destination, and advancing leaves the ship at rest exactly there |
| ShipPlan.ArrivalTime | Assets/Script/ShipCommand.cs:215-264 | the arrival bound of any plan is not before `startTime` |
| ShipPlan.Arrives | Assets/Script/ShipCommand.cs:198-288 | from the bound on, at any speed of at least 1, every flying plan (straight or turning) predicts exactly the destination, and advancing leaves the ship at rest exactly there |
| ShipPlan.CoversWhenLongEnough | Assets/Script/ShipCommand.cs:279 | with speed and time at least 1 and time at least the squared distance, the arrival test fires |
| ShipPlan.Commanded | Assets/Script/ShipCommand.cs:94-113 | a move order keeps the invariant |
| ShipPlan.CommandedNoEngine | Assets/Script/ShipCommand.cs:97 | a ship with negative `Speed` or `ShiftSpeed` ignores the order and nothing changes |
| ShipPlan.CommandedPlan | Assets/Script/ShipCommand.cs:101-111 | a move order plans to the new destination from the present position, started at the clock; less than a unit away it rests there, otherwise it flies with the sense chosen from the heading error |
| ShipPlan.CommandedIs | Assets/Script/ShipCommand.cs:101-111 | a move order is advancing to the clock, then planning from the current position and heading |
| ShipPlan.WithTurnIs | Assets/Script/ShipCommand.cs:142-150 | fields set as the turn sets them make up the plan `WithTurn` gives |
| ShipPlan.StaysOnCircle | Assets/Script/Vector2D.cs:189-195 | a point rotated about a centre keeps its distance from it where sine and cosine are exact |
| ShipCommand.StarShipCommand.Valid | Assets/Script/ShipCommand.cs:44-48 | the class invariant is the plan's invariant on its fields |
| ShipCommand.StarShipCommand.constructor | Assets/Script/ShipCommand.cs:32-73 | a new command is at rest at the origin, heading along x, with `curPos` at (1, 0) |
| ShipCommand.StarShipCommand.SetPos | Assets/Script/ShipCommand.cs:78-91 | the fields become `Idle` of the old fields |
| ShipCommand.StarShipCommand.MoveCommand | Assets/Script/ShipCommand.cs:94-113 | the fields become `Commanded` of the old fields |
| ShipCommand.StarShipCommand.Replan | Assets/Script/ShipCommand.cs:104-111 | the fields become `Planned` from the current position and heading, with `lastUpdate` at the clock |
| ShipCommand.StarShipCommand.CalcNewDestination | Assets/Script/ShipCommand.cs:118-154 | the fields become `Planned` of the old fields |
| ShipCommand.StarShipCommand.BeginFlight | Assets/Script/ShipCommand.cs:131-153 | once the sense is set, the fields become `Planned` of the fields before the sense was chosen |
| ShipCommand.StarShipCommand.PlaceTurn | Assets/Script/ShipCommand.cs:142-150 | the fields become `WithTurn` for the chosen radius |
| ShipCommand.StarShipCommand.GetRotateAngle | Assets/Script/ShipCommand.cs:174-192 | both loops end, and the result is the heading change unwrapped in the turn's sense |
| ShipCommand.StarShipCommand.GetFuturePosition | Assets/Script/ShipCommand.cs:292-326 | the prediction is `start` before `startTime`, the destination at rest, and on the line to the destination on a straight flight |
| ShipCommand.StarShipCommand.UpdateCurPosition | Assets/Script/ShipCommand.cs:198-271 | the fields become `Updated` of the old fields, the result is the new `curPos`, and in flight it is what `GetFuturePosition` predicted |
| ShipCommand.StarShipCommand.Fly | Assets/Script/ShipCommand.cs:206-268 | in flight, the fields become `Updated` of the old fields |
| ShipCommand.StarShipCommand.MoveOnArc | Assets/Script/ShipCommand.cs:224-266 | on a turning plan, the fields become `Turned` of the fields on entry |
| ShipCommand.StarShipCommand.FinishArc | Assets/Script/ShipCommand.cs:243-262 | the fields become `ArcRewritten` of the fields on entry, and the arc's duration is returned |
| ShipCommand.StarShipCommand.MoveOnLine | Assets/Script/ShipCommand.cs:274-289 | the fields become `MovedOnLine` of the fields on entry |
| JSTime.UnitsNest | Assets/Script/JSTime.cs:8-13 | second = 1000, and each unit is 60, 60, 24 and 7 of the next smaller one; a week is 604800000 ms |
| JSTime.Wrap64 | Assets/Script/JSTime.cs:31 | an unchecked `long` product is the exact value when it fits, and congruent to it modulo 2^64 |
| JSTime.Quot | Assets/Script/JSTime.cs:37-40 | C# integer division agrees with floor division for non-negative operands and is never positive for non-positive ones |
| JSTime.Rem | Assets/Script/JSTime.cs:37-40 | C# remainder agrees with `%` for non-negative operands and lies in (-b, 0] for negative ones, and always completes the quotient: `a == Quot(a, b) * b + r` |
| JSTime.IntAbs | Assets/Script/JSTime.cs:37-38 | the size of an integer is `x` or `-x`, and never negative |
| JSTime.Truncate | Assets/Script/JSTime.cs:37-38 | `(int)` of a double is its floor when non-negative and minus the floor of its size when negative, so it rounds toward zero and is strictly less than one from it in size |
| JSTime.TimeSpan.TotalDays | Assets/Script/JSTime.cs:37 | the span in days: times the ticks of a day it is the tick count |
| JSTime.TimeSpan.TotalHours | Assets/Script/JSTime.cs:38 | the span in hours: times the ticks of an hour it is the tick count |
| JSTime.TimeSpan.Hours | Assets/Script/JSTime.cs:37 | the hours component lies in (-24, 24) |
| JSTime.TimeSpan.Minutes | Assets/Script/JSTime.cs:38-39 | the minutes component lies in (-60, 60) |
| JSTime.TimeSpan.Seconds | Assets/Script/JSTime.cs:39-40 | the seconds component lies in (-60, 60) |
| JSTime.TruncatedTotals | Assets/Script/JSTime.cs:37-38 | `(int)TotalDays` and `(int)TotalHours` are the whole days and hours, truncated toward zero |
| JSTime.TruncatedQuotient | Assets/Script/JSTime.cs:37-38 | truncating an exact quotient is C# integer division |
| JSTime.NatToString | Assets/Script/JSTime.cs:37-40 | the digits are decimal, without a leading zero, one digit exactly below 10 |
| JSTime.IntToString | Assets/Script/JSTime.cs:37-40 | the text is non-empty and starts with a minus exactly for negative numbers |
| JSTime.IntToStringRoundTrip | Assets/Script/JSTime.cs:37-40 | reading back the text of `n` gives `n` |
| JSTime.IntToStringInjective | Assets/Script/JSTime.cs:37-40 | different numbers have different texts |
| JSTime.ToTimeString | Assets/Script/JSTime.cs:29-33 | the text of the span of `time * 10000` ticks; no contract of its own, its four cases are the `ToTimeString*` lemmas below |
| JSTime.ToTimeStringSpan | Assets/Script/JSTime.cs:35-41 | the four cases in order; no contract of its own, each case is stated in milliseconds by a `ToTimeString*` lemma below |
| JSTime.SpanOfMillis | Assets/Script/JSTime.cs:29-33 | up to the overflow bound, the span holds `time * 10000` ticks, and its whole days, hours, minutes and seconds are those of `time` |
| JSTime.ComponentsOfMillis | Assets/Script/JSTime.cs:29-41 | for a non-negative duration, the truncated totals and the components are its whole days, whole hours, hours mod 24, minutes mod 60 and seconds mod 60 |
| JSTime.ComponentsOfNegativeMillis | Assets/Script/JSTime.cs:29-41 | for a negative duration, the minutes component is not positive and the seconds component is minus the seconds mod 60 of its size |
| JSTime.TotalsReachOne | Assets/Script/JSTime.cs:37-38 | `TotalDays >= 1` exactly when the span holds a day's ticks, and likewise for hours |
| JSTime.ToTimeStringDays | Assets/Script/JSTime.cs:29-37 | from a day on: "<whole days>д <hours mod 24>ч" |
| JSTime.ToTimeStringHours | Assets/Script/JSTime.cs:29-38 | from an hour to a day: "<whole hours>ч <minutes mod 60>мин" |
| JSTime.ToTimeStringMinutes | Assets/Script/JSTime.cs:29-39 | from a minute to an hour: "<minutes>мин <seconds mod 60>сек" |
| JSTime.ToTimeStringSeconds | Assets/Script/JSTime.cs:29-40 | under a minute: "<whole seconds>сек", the milliseconds dropped |
| JSTime.ToTimeStringNegative | Assets/Script/JSTime.cs:29-40 | a negative duration shows only its seconds component, "-<seconds mod 60>сек" or "0сек" |

## Left out

- Floating point: doubles are exact reals. IEEE rounding, overflow to infinity and NaN are not modelled. This includes `TimeSpan.TotalDays` and `TotalHours` being rounded for spans beyond 2^53 ticks.
- `Math.Sqrt`, `Math.Sin`, `Math.Cos` and `Math.Asin` are uninterpreted. A `Library` carries them together with the facts assumed about them:
  - `Sqrt(0) = 0`, and `Sqrt` is positive on positive arguments;
  - `Asin` lies in [-pi/2, pi/2], is 0 at 0 and has the sign of its argument;
  - `Sin` is positive on (0, pi];
  - `Sin(0) = 0` and `Cos(0) = 1`.
  The type's witness shows that these facts are consistent. Arc tangency, continuity where the arc meets the line, and landing heading-aligned depend on the real values, and are not proved. Neither is the distance to the destination never growing along one plan. During a turn the code does not keep it: with heading (1,0) at (0,0), destination (-100,0), `Speed` 10 and `ShiftSpeed` 1, the centre is (0,100), and the arc point at a small angle `a > 0` is at squared distance `30000 + 20000 sin a - 20000 cos a > 10000` from the destination. Length and circle claims are proved under explicit exactness hypotheses (`ExactSqrt`, `ExactRotation`).
- `Asin` of an argument above 1 in size is NaN in .NET. The model does not distinguish it.
- `IShip`: `Speed` and `ShiftSpeed` are constant readings. `CompleteUpdating` and `LastUpdate` are one `clock` value per call. Every `CompleteUpdating` within one `MoveCommand` is taken to read the same clock value. `GetCurrentPosition` and `IsVisible` are not part of this model.
- ShipPlan.Propelled: the turning paths divide by `ShiftSpeed` and by `Speed`, and square `Speed` in 32-bit `int`. They therefore require `0 < Speed <= 46340` and `ShiftSpeed > 0`. Division by zero and the `int` overflow of `Speed * Speed` (which `MaxSpeedSquareFits` bounds) are not modelled.
- ShipPlan.Commanded: has the same requires as `MoveCommand`, for the reason on the next line.
- ShipCommand.StarShipCommand.MoveCommand: requires a ship without an engine, or a propelled one. The guard at line 97 lets a zero `Speed` or `ShiftSpeed` through. Such a ship divides by zero only when it plans or flies a turn (lines 139 and 227-232). Its straight and sub-unit orders are well defined: with `Speed == 0`, `MoveOnLine` (lines 279-283) keeps it flying at `start`. The requires excludes those orders too. The only caller, `MouseController` (`Speed` 10, `ShiftSpeed` 1), always meets it.
- ShipCommand.StarShipCommand.CalcNewDestination: requires a propelled ship. It is private, and its only caller (`MoveCommand`) reaches it after the no-engine guard.
- The bodies of `UpdateCurPosition` and `CalcNewDestination` are split into helper methods (`Fly`, `MoveOnArc`, `FinishArc`, `Replan`, `BeginFlight`, `PlaceTurn`). The helpers take the fields on entry as a ghost plan. The assignments and their order are those of the C# code.
- `IsBlindZone` and `GetMoveLine` read the command's fields. They are modelled as `ShipPlan.BlindZone` and `ShipPlan.MoveLine` over the plan's values.
- Concurrency: the commented-out `lock` and `GetStatus` code is not modelled. The class is single-threaded as written. `minTimeStep` is declared but unused (the check that uses it is commented out).
- `Vector2D.GetRandom` uses shared `System.Random` state. The `Vector3` conversions use Unity `float` scaling. `ToString`, `IntX`/`IntY` and `GetHashCode` are display and hashing. None of these is modelled.
- JSTime: `GetMilliseconds`, `GetTime`, `Now` and `GetHalloweenEve` read the wall clock or `DateTime`. `ToSQL`, `GetDate` and `GetDateTime` are culture-specific `DateTime` formatting. None of these is modelled; `minDate` and `provider` serve only these.
- JSTime.ToTimeStringDays: stated up to `MaxMillis`, where `time * 10000` fits in a `long`. Beyond it the tick count wraps (`Wrap64`), and the function models that, but no branch lemma describes it.
- JSTime.ToTimeStringNegative: stated down to `-MaxMillis` only. Below it the tick count wraps in the same way, and no branch lemma describes it.
- `MouseController.cs` is Unity input and rendering glue and is not part of this model.

## Findings

| source | as written | input that shows it | evidently intended | confidence | as-written member | corrected member |
|---|---|---|---|---|---|---|
| Assets/Script/Vector2D.cs:161-176 | `IsParallelTo` and `IsPerpendicularTo` use `X*v.Y + Y*v.X`, which is neither the scalar product nor the cross product | (1,0) and (0,1): not perpendicular; (1,0) and itself: perpendicular, and not parallel | the scalar product `X*v.X + Y*v.Y` | high; not executed | Geometry.ParallelPerpendicularAsWrittenCounterexample | Geometry.CorrectedTestsMeanGeometry |

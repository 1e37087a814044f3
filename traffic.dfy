/**
  The per-frame traffic rules of the street scene: parked cars sinking and
  rising, bollards, vehicles advancing along the road with wrap-around, and
  bikes swerving around parked cars. Each rule is a function on one entity;
  the `Street` class applies them in place to its arrays.
 */
module Traffic {
  import opened Modes
  import opened Easing

  /** A parked car: its position and whether its mesh is drawn. */
  datatype ParkedCar = ParkedCar(x: real, y: real, z: real, visible: bool)

  datatype Kind = Car | Bike

  /** A moving vehicle: its kind, signed speed along the road (units per
      frame), lane centre, lateral and longitudinal position and roll. */
  datatype Vehicle = Vehicle(kind: Kind, speed: real, laneX: real, x: real, z: real, rotZ: real)

  /** The longitudinal corridor vehicles wrap around in. */
  const CorridorMin := -250.0
  const CorridorMax := 50.0

  /** A bike is blocked by a same-side parked car closer than this along the road. */
  const BlockDistance := 12.0

  /** A parked car is drawn while its height is above this. */
  const HiddenBelow := -4.0

  // ---------------------------------------------------------------- parked cars

  function ParkedTargetY(m: Mode): real
  {
    if ParkedVisible(m) then 0.0 else -5.0
  }

  /** One frame for a parked car: it eases toward street level or below it,
      and is drawn only while above the hiding threshold. */
  function ParkedStep(p: ParkedCar, m: Mode): (q: ParkedCar)
    ensures q.x == p.x && q.z == p.z
    ensures q.y - ParkedTargetY(m) == 0.9 * (p.y - ParkedTargetY(m))
    ensures q.visible <==> q.y > HiddenBelow
  {
    var y := Lerp(p.y, ParkedTargetY(m), 0.1);
    p.(y := y, visible := y > HiddenBelow)
  }

  /** A parked car between its two rest heights whose flag matches its height. */
  predicate ParkedSettled(p: ParkedCar)
  {
    -5.0 <= p.y <= 0.0 && (p.visible <==> p.y > HiddenBelow)
  }

  lemma ParkedStepSettled(p: ParkedCar, m: Mode)
    requires ParkedSettled(p)
    ensures ParkedSettled(ParkedStep(p, m))
    ensures Between(ParkedStep(p, m).y, p.y, ParkedTargetY(m))
  {
  }

  /** While the mode shows parked cars a drawn car stays drawn; while it hides
      them a hidden car stays hidden. */
  lemma ParkedVisibilityMonotone(p: ParkedCar, m: Mode)
    requires ParkedSettled(p)
    ensures ParkedVisible(m) && p.visible ==> ParkedStep(p, m).visible
    ensures !ParkedVisible(m) && !p.visible ==> !ParkedStep(p, m).visible
  {
  }

  /** `n` frames in a fixed mode. */
  function ParkedAfter(p: ParkedCar, m: Mode, n: nat): ParkedCar
    decreases n
  {
    if n == 0 then p else ParkedAfter(ParkedStep(p, m), m, n - 1)
  }

  /** After `n` frames the height is `n` easing steps from the start, and the
      car keeps its place on the road. */
  lemma {:induction false} ParkedAfterHeight(p: ParkedCar, m: Mode, n: nat)
    ensures ParkedAfter(p, m, n).y == LerpN(p.y, ParkedTargetY(m), 0.1, n)
    ensures ParkedAfter(p, m, n).x == p.x && ParkedAfter(p, m, n).z == p.z
    ensures n > 0 ==> (ParkedAfter(p, m, n).visible <==> ParkedAfter(p, m, n).y > HiddenBelow)
    decreases n
  {
    if n > 0 {
      ParkedAfterHeight(ParkedStep(p, m), m, n - 1);
      if n - 1 == 0 {
        assert ParkedAfter(p, m, n) == ParkedStep(p, m);
      }
    }
  }

  /** After `n` frames in one mode the distance to the target height is
      0.9^n of the initial distance. */
  lemma ParkedAfterDistance(p: ParkedCar, m: Mode, n: nat)
    ensures ParkedAfter(p, m, n).y - ParkedTargetY(m) == Pow(0.9, n) * (p.y - ParkedTargetY(m))
    ensures n > 0 ==> (ParkedAfter(p, m, n).visible <==> ParkedAfter(p, m, n).y > HiddenBelow)
  {
    ParkedAfterHeight(p, m, n);
    LerpNDistance(p.y, ParkedTargetY(m), 0.1, n);
    assert 1.0 - 0.1 == 0.9;
  }

  /** A parked car at street level disappears on the 16th frame after the mode
      stops showing parked cars, and is still drawn on the 15th. */
  lemma HiddenOnSixteenthFrame(p: ParkedCar, m: Mode)
    requires p.y == 0.0 && !ParkedVisible(m)
    ensures ParkedAfter(p, m, 15).visible
    ensures !ParkedAfter(p, m, 16).visible
  {
    ParkedAfterDistance(p, m, 15);
    ParkedAfterDistance(p, m, 16);
    PowNineTenths();
  }

  /** A fully sunk parked car is drawn again on the 3rd frame after the mode
      starts showing parked cars, and not yet on the 2nd. */
  lemma ShownOnThirdFrame(p: ParkedCar, m: Mode)
    requires p.y == -5.0 && ParkedVisible(m)
    ensures !ParkedAfter(p, m, 2).visible
    ensures ParkedAfter(p, m, 3).visible
  {
    ParkedAfterDistance(p, m, 2);
    ParkedAfterDistance(p, m, 3);
    PowNineTenths();
  }

  lemma PowNineTenths()
    ensures Pow(0.9, 2) == 0.81
    ensures Pow(0.9, 3) == 0.729
    ensures Pow(0.9, 15) > 0.2
    ensures Pow(0.9, 16) < 0.19
  {
    assert Pow(0.9, 4) == 0.6561;
    assert Pow(0.9, 8) == 0.43046721 by {
      assert Pow(0.9, 5) == 0.59049;
      assert Pow(0.9, 6) == 0.531441;
      assert Pow(0.9, 7) == 0.4782969;
    }
    assert Pow(0.9, 12) == 0.282429536481 by {
      assert Pow(0.9, 9) == 0.387420489;
      assert Pow(0.9, 10) == 0.3486784401;
      assert Pow(0.9, 11) == 0.31381059609;
    }
    assert Pow(0.9, 13) == 0.2541865828329;
    assert Pow(0.9, 14) == 0.22876792454961;
    assert Pow(0.9, 15) == 0.205891132094649;
    assert Pow(0.9, 16) == 0.1853020188851841;
  }

  // ---------------------------------------------------------------- bollards

  function BollardTargetY(m: Mode): real
  {
    if SolutionActive(m) then 0.6 else -2.0
  }

  /** One frame for a bollard: it eases toward its raised or lowered height. */
  function BollardStep(y: real, m: Mode): (r: real)
    ensures r - BollardTargetY(m) == 0.9 * (y - BollardTargetY(m))
    ensures Between(r, y, BollardTargetY(m))
  {
    Lerp(y, BollardTargetY(m), 0.1)
  }

  predicate BollardInRange(y: real)
  {
    -2.0 <= y <= 0.6
  }

  lemma BollardStepInRange(y: real, m: Mode)
    requires BollardInRange(y)
    ensures BollardInRange(BollardStep(y, m))
  {
  }

  // ---------------------------------------------------------------- vehicles

  predicate InCorridor(z: real)
  {
    CorridorMin <= z <= CorridorMax
  }

  /** Longitudinal motion: advance by the speed, and wrap to the far end of the
      corridor once past the near end in the direction of travel. */
  function Advance(z: real, speed: real): (r: real)
    ensures r == z + speed || (speed < 0.0 && r == CorridorMax) || (speed > 0.0 && r == CorridorMin)
    ensures !(speed < 0.0 && z + speed < CorridorMin) && !(speed > 0.0 && z + speed > CorridorMax) ==>
      r == z + speed
    ensures InCorridor(z) ==> InCorridor(r)
    ensures speed >= 0.0 && z <= CorridorMax ==> r <= CorridorMax
    ensures speed <= 0.0 && z >= CorridorMin ==> r >= CorridorMin
  {
    var z1 := z + speed;
    if speed < 0.0 && z1 < CorridorMin then CorridorMax
    else if speed > 0.0 && z1 > CorridorMax then CorridorMin
    else z1
  }

  function AdvanceN(z: real, speed: real, n: nat): real
    decreases n
  {
    if n == 0 then z else AdvanceN(Advance(z, speed), speed, n - 1)
  }

  /** Once inside the corridor a vehicle stays inside it for good. */
  lemma {:induction false} CorridorForever(z: real, speed: real, n: nat)
    requires InCorridor(z)
    ensures InCorridor(AdvanceN(z, speed, n))
    decreases n
  {
    if n > 0 {
      CorridorForever(Advance(z, speed), speed, n - 1);
    }
  }

  /** A vehicle that starts behind the corridor, moving toward it at no less
      than 0.2 units per frame (the slowest speed of the initial traffic),
      enters the corridor after finitely many frames. */
  lemma {:induction false} EntersCorridor(z: real, speed: real) returns (n: nat)
    requires (speed >= 0.2 && z <= CorridorMax) || (speed <= -0.2 && z >= CorridorMin)
    ensures InCorridor(AdvanceN(z, speed, n))
    decreases if InCorridor(z) then 0
              else if z < CorridorMin then ((CorridorMin - z) * 5.0).Floor + 1
              else ((z - CorridorMax) * 5.0).Floor + 1
  {
    if InCorridor(z) {
      n := 0;
    } else {
      var m := EntersCorridor(Advance(z, speed), speed);
      n := m + 1;
    }
  }

  function Abs(r: real): real
  {
    if r < 0.0 then -r else r
  }

  /** JavaScript `Math.sign` on reals. */
  function Sign(r: real): int
  {
    if r > 0.0 then 1 else if r < 0.0 then -1 else 0
  }

  /** Parked car `p` blocks a bike at longitudinal position `z` in lane `laneX`:
      it is near along the road and on the same side of it. */
  predicate Obstructs(p: ParkedCar, z: real, laneX: real)
  {
    Abs(z - p.z) < BlockDistance && Sign(p.x) == Sign(laneX)
  }

  predicate BlockedBy(ps: seq<ParkedCar>, z: real, laneX: real)
  {
    exists i :: 0 <= i < |ps| && Obstructs(ps[i], z, laneX)
  }

  /** The scan over the parked cars, stopping at the first one in the way. */
  method IsBlocked(parked: array<ParkedCar>, z: real, laneX: real) returns (blocked: bool)
    ensures blocked == BlockedBy(parked[..], z, laneX)
  {
    blocked := false;
    var i := 0;
    while i < parked.Length
      invariant 0 <= i <= parked.Length
      invariant forall k :: 0 <= k < i ==> !Obstructs(parked[k], z, laneX)
    {
      var p := parked[i];
      if Abs(z - p.z) < BlockDistance {
        if Sign(p.x) == Sign(laneX) {
          assert parked[..][i] == p;
          blocked := true;
          break;
        }
      }
      i := i + 1;
    }
  }

  /** Only the positions of parked cars matter to blocking, not their heights
      or visibility. */
  lemma BlockedByIgnoresHeights(ps: seq<ParkedCar>, qs: seq<ParkedCar>, z: real, laneX: real)
    requires |ps| == |qs|
    requires forall i :: 0 <= i < |ps| ==> ps[i].x == qs[i].x && ps[i].z == qs[i].z
    ensures BlockedBy(ps, z, laneX) == BlockedBy(qs, z, laneX)
  {
    if BlockedBy(ps, z, laneX) {
      var i :| 0 <= i < |ps| && Obstructs(ps[i], z, laneX);
      assert Obstructs(qs[i], z, laneX);
    }
    if BlockedBy(qs, z, laneX) {
      var i :| 0 <= i < |qs| && Obstructs(qs[i], z, laneX);
      assert Obstructs(ps[i], z, laneX);
    }
  }

  /** The point a blocked bike swerves to: toward the road centre, same side. */
  function SwerveX(laneX: real): real
  {
    if laneX > 0.0 then 6.0 else -6.0
  }

  /** The lateral position a bike steers toward this frame. */
  function TargetX(laneX: real, z: real, m: Mode, ps: seq<ParkedCar>): real
  {
    if SwerveEnabled(m) && BlockedBy(ps, z, laneX) then SwerveX(laneX) else laneX
  }

  /** Roll from the remaining lateral error, mirrored for bikes riding the
      other way. */
  function Tilt(targetX: real, x: real, speed: real): real
  {
    var dir := if speed < 0.0 then 1.0 else -1.0;
    -((targetX - x) * 0.5) * dir
  }

  /** One frame for a vehicle. Cars only advance; bikes also steer and roll. */
  function VehicleStep(v: Vehicle, m: Mode, ps: seq<ParkedCar>): (w: Vehicle)
    ensures w.kind == v.kind && w.speed == v.speed && w.laneX == v.laneX
    ensures w.z == Advance(v.z, v.speed)
    ensures v.kind == Car ==> w.x == v.x && w.rotZ == v.rotZ
    ensures v.kind == Bike ==> Between(w.x, v.x, TargetX(v.laneX, w.z, m, ps))
    ensures v.kind == Bike ==>
      w.x - TargetX(v.laneX, w.z, m, ps) == 0.9 * (v.x - TargetX(v.laneX, w.z, m, ps))
  {
    var z := Advance(v.z, v.speed);
    if v.kind == Car then
      v.(z := z)
    else
      var t := TargetX(v.laneX, z, m, ps);
      var x := Lerp(v.x, t, 0.1);
      v.(z := z, x := x, rotZ := Tilt(t, x, v.speed))
  }

  /** A bike steers toward `SwerveX` exactly when the mode looks for blockers
      and a same-side parked car is within 12 units of its new position;
      otherwise toward its lane centre. */
  lemma SwerveRule(v: Vehicle, m: Mode, ps: seq<ParkedCar>)
    requires v.kind == Bike
    ensures var z := VehicleStep(v, m, ps).z;
      (SwerveEnabled(m) && (exists i :: 0 <= i < |ps| && Abs(z - ps[i].z) < 12.0 && Sign(ps[i].x) == Sign(v.laneX)))
      ==> TargetX(v.laneX, z, m, ps) == (if v.laneX > 0.0 then 6.0 else -6.0)
    ensures var z := VehicleStep(v, m, ps).z;
      !(SwerveEnabled(m) && (exists i :: 0 <= i < |ps| && Abs(z - ps[i].z) < 12.0 && Sign(ps[i].x) == Sign(v.laneX)))
      ==> TargetX(v.laneX, z, m, ps) == v.laneX
  {
  }

  /** The roll after a frame is 0.45 of the lateral error before it, leaning
      toward the target for a bike riding toward negative z. */
  lemma BikeTilt(v: Vehicle, m: Mode, ps: seq<ParkedCar>)
    requires v.kind == Bike
    ensures var w := VehicleStep(v, m, ps);
      var t := TargetX(v.laneX, w.z, m, ps);
      w.rotZ == (if v.speed < 0.0 then -0.45 else 0.45) * (t - v.x)
  {
  }

  /** The strip between a bike's lane centre and its swerve point. */
  predicate InSwerveStrip(v: Vehicle)
  {
    Between(v.x, v.laneX, SwerveX(v.laneX))
  }

  /** A bike never leaves the strip between its lane centre and its swerve point. */
  lemma BikeStaysInStrip(v: Vehicle, m: Mode, ps: seq<ParkedCar>)
    requires v.kind == Bike && InSwerveStrip(v)
    ensures InSwerveStrip(VehicleStep(v, m, ps))
  {
  }

  /** The per-vehicle invariant of the scene: a vehicle is never past the end
      of the corridor it is heading for, and a bike is within its strip. */
  predicate OnCourse(v: Vehicle)
  {
    (v.speed >= 0.0 ==> v.z <= CorridorMax) &&
    (v.speed <= 0.0 ==> v.z >= CorridorMin) &&
    (v.kind == Bike ==> InSwerveStrip(v))
  }

  lemma VehicleStepOnCourse(v: Vehicle, m: Mode, ps: seq<ParkedCar>)
    requires OnCourse(v)
    ensures OnCourse(VehicleStep(v, m, ps))
  {
    if v.kind == Bike {
      BikeStaysInStrip(v, m, ps);
    }
  }

  // ---------------------------------------------------------------- initial traffic

  /** A value of JavaScript's `Math.random()`. */
  predicate IsRandom(r: real)
  {
    0.0 <= r < 1.0
  }

  predicate ValidRandoms(rand: seq<real>)
  {
    |rand| == 20 && forall i :: 0 <= i < 20 ==> IsRandom(rand[i])
  }

  /** Five parked cars on the right kerb, then five on the left, 35 units apart. */
  function InitialParked(): seq<ParkedCar>
  {
    seq(5, i => ParkedCar(11.0, 0.0, -20.0 - 35.0 * i as real, true)) +
    seq(5, i => ParkedCar(-11.0, 0.0, -20.0 - 35.0 * i as real, true))
  }

  /** Thirty bollards per bike lane, from z = 50 down to z = -240, all lowered. */
  function InitialBollards(): seq<real>
  {
    seq(60, _ => -2.0)
  }

  /** Five cars in each lane, then five bikes in each bike lane; `rand` holds
      the twenty `Math.random()` draws that set their speeds. */
  function InitialVehicles(rand: seq<real>): seq<Vehicle>
    requires |rand| == 20
  {
    seq(5, i requires 0 <= i < 5 =>
      Vehicle(Car, -0.4 - rand[i] * 0.1, 4.0, 4.0, -10.0 - 45.0 * i as real, 0.0)) +
    seq(5, i requires 0 <= i < 5 =>
      Vehicle(Car, 0.4 + rand[5 + i] * 0.1, -4.0, -4.0, -100.0 - 45.0 * i as real, 0.0)) +
    seq(5, i requires 0 <= i < 5 =>
      Vehicle(Bike, -0.2 - rand[10 + i] * 0.05, 11.0, 11.0, 10.0 - 30.0 * i as real, 0.0)) +
    seq(5, i requires 0 <= i < 5 =>
      Vehicle(Bike, 0.2 + rand[15 + i] * 0.05, -11.0, -11.0, -100.0 - 30.0 * i as real, 0.0))
  }

  /** The speed ranges of the four groups of the initial traffic. */
  lemma InitialSpeeds(rand: seq<real>, i: nat)
    requires ValidRandoms(rand) && i < 20
    ensures |InitialVehicles(rand)| == 20
    ensures var v := InitialVehicles(rand)[i];
      if i < 5 then v.kind == Car && -0.5 < v.speed <= -0.4 && v.laneX == 4.0
      else if i < 10 then v.kind == Car && 0.4 <= v.speed < 0.5 && v.laneX == -4.0
      else if i < 15 then v.kind == Bike && -0.25 < v.speed <= -0.2 && v.laneX == 11.0
      else v.kind == Bike && 0.2 <= v.speed < 0.25 && v.laneX == -11.0
  {
  }

  /** Every initial vehicle is on course and moves at least 0.2 units per frame;
      all but the fifth oncoming car start inside the corridor, and that one
      starts 30 units behind it. */
  lemma InitialTrafficOnCourse(rand: seq<real>, i: nat)
    requires ValidRandoms(rand) && i < 20
    ensures |InitialVehicles(rand)| == 20
    ensures OnCourse(InitialVehicles(rand)[i])
    ensures InitialVehicles(rand)[i].speed >= 0.2 || InitialVehicles(rand)[i].speed <= -0.2
    ensures i != 9 <==> InCorridor(InitialVehicles(rand)[i].z)
  {
    InitialSpeeds(rand, i);
  }

  /** Every initial parked car is at street level and drawn. */
  lemma InitialParkedSettled(i: nat)
    requires i < 10
    ensures |InitialParked()| == 10
    ensures ParkedSettled(InitialParked()[i]) && InitialParked()[i].visible
  {
  }
}

/**
  The scene's mutable state and the two callbacks that drive it: the scroll
  handler, which sets the mode and the camera target, and the animation frame,
  which updates the camera, the parked cars, the bollards and the traffic in
  place.
 */
module Street {
  import opened Modes
  import opened Easing
  import opened ScrollMapper
  import opened Traffic

  class Street {
    var mode: Mode
    var camTargetPos: Vec3
    var camTargetLook: Vec3
    var camPos: Vec3
    const parked: array<ParkedCar>
    const bollards: array<real>
    const vehicles: array<Vehicle>

    /** Every parked car, bollard and vehicle satisfies its per-frame invariant. */
    ghost predicate Valid()
      reads parked, bollards, vehicles
    {
      (forall i :: 0 <= i < parked.Length ==> ParkedSettled(parked[i])) &&
      (forall i :: 0 <= i < bollards.Length ==> BollardInRange(bollards[i])) &&
      (forall i :: 0 <= i < vehicles.Length ==> OnCourse(vehicles[i]))
    }

    /** The scene as the script leaves it before the first frame: the traffic
        table, lowered bollards, the home mode and the initial camera target.
        `rand` holds the `Math.random()` draws that set the vehicle speeds. */
    constructor (rand: seq<real>)
      requires ValidRandoms(rand)
      ensures Valid()
      ensures mode == Home
      ensures camTargetPos == Vec3(0.0, 8.0, 20.0) && camTargetLook == Vec3(0.0, 0.0, -50.0)
      ensures camPos == Vec3(0.0, 0.0, 0.0)
      ensures parked[..] == InitialParked()
      ensures bollards[..] == InitialBollards()
      ensures vehicles[..] == InitialVehicles(rand)
      ensures fresh(parked) && fresh(bollards) && fresh(vehicles)
    {
      mode := Home;
      camTargetPos := Vec3(0.0, 8.0, 20.0);
      camTargetLook := Vec3(0.0, 0.0, -50.0);
      camPos := Vec3(0.0, 0.0, 0.0);
      var ps := InitialParked();
      var bs := InitialBollards();
      var vs := InitialVehicles(rand);
      parked := new ParkedCar[|ps|](i requires 0 <= i < |ps| => ps[i]);
      bollards := new real[|bs|](i requires 0 <= i < |bs| => bs[i]);
      vehicles := new Vehicle[|vs|](i requires 0 <= i < |vs| => vs[i]);
      new;
      assert parked[..] == ps;
      assert bollards[..] == bs;
      assert vehicles[..] == vs;
      forall i | 0 <= i < parked.Length
        ensures ParkedSettled(parked[i])
      {
        InitialParkedSettled(i);
      }
      forall i | 0 <= i < vehicles.Length
        ensures OnCourse(vehicles[i])
      {
        InitialTrafficOnCourse(rand, i);
      }
    }

    /** Installs a camera position and look-at target. */
    method SetCam(pos: Vec3, look: Vec3)
      modifies this`camTargetPos, this`camTargetLook
      ensures camTargetPos == pos && camTargetLook == look
    {
      camTargetPos := pos;
      camTargetLook := look;
    }

    /** The scroll handler: finds the active section from the sections'
        rectangles and the viewport height, then switches on its id. */
    method HandleScroll(sections: seq<Section>, height: real)
      modifies this`mode, this`camTargetPos, this`camTargetLook
      ensures ScrollState(mode, CamTarget(camTargetPos, camTargetLook)) ==
        AfterScroll(sections, height, CamTarget(old(camTargetPos), old(camTargetLook)))
      ensures mode != Research
    {
      var activeId := ActiveId(sections, height);
      var route := RouteFor(activeId);
      mode := route.mode;
      if route.cam.Some? {
        SetCam(route.cam.value.pos, route.cam.value.look);
      }
    }

    /** One animation frame, without the look-at smoothing, the lane colour
        and the render call. */
    method Animate()
      requires Valid()
      modifies this`camPos, parked, bollards, vehicles
      ensures Valid()
      ensures camPos == Vec3Lerp(old(camPos), camTargetPos, 0.05)
      ensures forall i :: 0 <= i < parked.Length ==> parked[i] == ParkedStep(old(parked[i]), mode)
      ensures forall i :: 0 <= i < bollards.Length ==> bollards[i] == BollardStep(old(bollards[i]), mode)
      ensures forall i :: 0 <= i < vehicles.Length ==>
        vehicles[i] == VehicleStep(old(vehicles[i]), mode, parked[..])
    {
      camPos := Vec3Lerp(camPos, camTargetPos, 0.05);
      UpdateParked();
      UpdateBollards();
      UpdateTraffic();
    }

    /** Eases every parked car toward its mode's height and sets its visibility. */
    method UpdateParked()
      requires forall i :: 0 <= i < parked.Length ==> ParkedSettled(parked[i])
      modifies parked
      ensures forall i :: 0 <= i < parked.Length ==> ParkedSettled(parked[i])
      ensures forall i :: 0 <= i < parked.Length ==> parked[i] == ParkedStep(old(parked[i]), mode)
    {
      var parkedVisible := ParkedVisible(mode);
      for i := 0 to parked.Length
        invariant forall k :: 0 <= k < i ==> parked[k] == ParkedStep(old(parked[k]), mode)
        invariant forall k :: i <= k < parked.Length ==> parked[k] == old(parked[k])
      {
        var p := parked[i];
        var targetY := if parkedVisible then 0.0 else -5.0;
        var y := Lerp(p.y, targetY, 0.1);
        parked[i] := p.(y := y, visible := y > HiddenBelow);
      }
      forall i | 0 <= i < parked.Length
        ensures ParkedSettled(parked[i])
      {
        ParkedStepSettled(old(parked[i]), mode);
      }
    }

    /** Eases every bollard toward its raised or lowered height. */
    method UpdateBollards()
      requires forall i :: 0 <= i < bollards.Length ==> BollardInRange(bollards[i])
      modifies bollards
      ensures forall i :: 0 <= i < bollards.Length ==> BollardInRange(bollards[i])
      ensures forall i :: 0 <= i < bollards.Length ==> bollards[i] == BollardStep(old(bollards[i]), mode)
    {
      var solutionActive := SolutionActive(mode);
      var targetBollardY := if solutionActive then 0.6 else -2.0;
      for i := 0 to bollards.Length
        invariant forall k :: 0 <= k < i ==> bollards[k] == BollardStep(old(bollards[k]), mode)
        invariant forall k :: i <= k < bollards.Length ==> bollards[k] == old(bollards[k])
      {
        bollards[i] := Lerp(bollards[i], targetBollardY, 0.1);
      }
      forall i | 0 <= i < bollards.Length
        ensures BollardInRange(bollards[i])
      {
        BollardStepInRange(old(bollards[i]), mode);
      }
    }

    /** Advances every vehicle; bikes also steer around parked cars and roll. */
    method UpdateTraffic()
      requires forall i :: 0 <= i < vehicles.Length ==> OnCourse(vehicles[i])
      modifies vehicles
      ensures forall i :: 0 <= i < vehicles.Length ==> OnCourse(vehicles[i])
      ensures forall i :: 0 <= i < vehicles.Length ==>
        vehicles[i] == VehicleStep(old(vehicles[i]), mode, parked[..])
    {
      for i := 0 to vehicles.Length
        invariant forall k :: 0 <= k < i ==> vehicles[k] == VehicleStep(old(vehicles[k]), mode, parked[..])
        invariant forall k :: i <= k < vehicles.Length ==> vehicles[k] == old(vehicles[k])
      {
        var v := StepVehicle(vehicles[i]);
        vehicles[i] := v;
      }
      forall i | 0 <= i < vehicles.Length
        ensures OnCourse(vehicles[i])
      {
        VehicleStepOnCourse(old(vehicles[i]), mode, parked[..]);
      }
    }

    /** The body of the traffic loop for one vehicle: advance with wrap-around;
        for a bike, look for parked cars in the way, steer and roll. */
    method StepVehicle(v0: Vehicle) returns (v: Vehicle)
      ensures v == VehicleStep(v0, mode, parked[..])
    {
      v := v0;
      var z := v.z + v.speed;
      if v.speed < 0.0 && z < CorridorMin {
        z := CorridorMax;
      }
      if v.speed > 0.0 && z > CorridorMax {
        z := CorridorMin;
      }
      v := v.(z := z);
      if v.kind == Bike {
        var targetX := v.laneX;
        if mode == Problem || mode == Home {
          var blocked := IsBlocked(parked, z, v.laneX);
          if blocked {
            targetX := if v.laneX > 0.0 then 6.0 else -6.0;
          }
        }
        var x := Lerp(v.x, targetX, 0.1);
        var tilt := (targetX - x) * 0.5;
        var dir := if v.speed < 0.0 then 1.0 else -1.0;
        v := v.(x := x, rotZ := -tilt * dir);
      }
    }
  }
}

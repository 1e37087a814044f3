# Street scene: scroll-driven mode and per-frame traffic rules

A Dafny model of the behaviour of `script.js`, an animated street scene used as
a scroll-driven explainer. The page's scroll position selects a narrative
*mode* (home, problem, success, solution, benefits, action) and a camera
target. Every animation frame then eases the camera toward its target. It sinks
or raises ten parked cars and raises or lowers the bike-lane bollards. It
advances twenty vehicles along a wrapping corridor and lets the bikes swerve
around parked cars on their side of the road.

Modules:

- `Easing` (`easing.dfy`): `Lerp` over the reals (three.js
  `MathUtils.lerp`). No-overshoot and geometric convergence lemmas, with
  `LerpN` for repeated frames. Component-wise `Vec3Lerp` for the camera.
- `Modes` (`modes.dfy`): the `Mode` vocabulary and the three mode tests the
  frame uses: parked cars shown, solution active, bikes avoid parked cars.
- `ScrollMapper` (`scroll_mapper.dfy`): the scroll handler's section scan
  (`ActiveId`, a loop proved against `LastInBand`). The switch from the
  active id to a mode and camera target (`RouteFor`). Its combined effect
  (`AfterScroll`).
- `Traffic` (`traffic.dfy`): one function per entity for one frame
  (`ParkedStep`, `BollardStep`, `VehicleStep`). The blocked scan
  (`IsBlocked`, a loop with an early exit). The invariants each step keeps,
  multi-frame lemmas, and the initial traffic table.
- `Street` (`street.dfy`): class `Street` holds the state the script keeps in
  globals: the mode, the camera target and position, and the arrays of
  parked cars, bollard heights and vehicles. `HandleScroll` and `SetCam`
  change the mode and the camera target. `Animate` updates the arrays in
  place, one loop per `forEach` of the source, and keeps `Valid()`.
  `StepVehicle` is the body of the traffic loop for one vehicle.

Three behaviours of the code that the model reproduces as written:

- The scan starts with the active id set to `sec-home` (script.js:388). So
  when no section is in the band, the mode becomes home and the home camera
  target is installed. Solution is the fallback only for a section that is
  in the band but has an id the switch does not know (script.js:436-437).
  That case leaves the camera target unchanged.
- `Mode.Research` names a mode the switch never selects: `sec-research`
  selects the problem mode with its own camera target (script.js:411-415).
  Keeping it in the datatype makes "never research" a proved statement
  (`RouteFor`, `AfterScroll`, `Street.Street.HandleScroll`).
- The initial table puts the fifth oncoming car at z = -280
  (script.js:271), outside the corridor [-250, 50]. So the model proves
  three things instead of a two-sided bound for every vehicle. First, a
  one-sided invariant that every frame keeps (`OnCourse`). Second, that a
  vehicle inside [-250, 50] stays inside for good (`CorridorForever`).
  Third, that a vehicle behind the corridor enters it (`EntersCorridor`).

## Model

| member | source | states |
|---|---|---|
| Easing.LerpRemaining | script.js:319 | an easing step with factor t leaves exactly (1 - t) of the distance to the target |
| Easing.LerpBetween | script.js:329 | with a factor in [0, 1] the eased value lies between the old value and the target (no overshoot) |
| Easing.LerpStaysBetween | script.js:369 | easing toward one end of a segment from a point on it stays on the segment |
| Easing.LerpNDistance | script.js:319 | after n frames toward a fixed target the remaining distance is (1 - t)^n of the initial distance |
| Easing.LerpNBetween | script.js:329 | any number of easing frames toward a fixed target stays between the start and the target |
| Easing.Vec3LerpBetween | script.js:308 | each component of the eased camera position lies between its old value and the target's |
| Modes.ParkedAndSolutionExclusive | script.js:316-324 | no mode both shows parked cars and activates the bike-lane solution; every mode but research does one of the two |
| ScrollMapper.LastInBand | script.js:392-397 | returns the index of a section in the 40%-60% band with no later section in it, or None exactly when no section is in it |
| ScrollMapper.ActiveId | script.js:386-397 | the forward scan that overwrites the active id on each section in the band ends with the id of the last such section, or sec-home |
| ScrollMapper.ActiveIdIsLastInBand | script.js:387-397 | the active id is sec-home when no section is in the band, and otherwise the id of the last section in it |
| ScrollMapper.LaterSectionWins | script.js:392-397 | when two sections are in the band the later one in document order takes priority |
| ScrollMapper.RouteFor | script.js:400-438 | the switch never selects research, and leaves the camera target alone exactly for ids outside the seven known ones |
| ScrollMapper.RouteTable | script.js:400-435 | each of the seven known ids selects its listed mode and camera position/look-at; sec-research selects problem with (0,40,-40)/(0,0,-80) |
| ScrollMapper.AfterScroll | script.js:386-438 | after a scroll the mode is never research; no section in the band gives home with the home camera; a matched unknown id gives solution and keeps the camera target |
| Street.Street.SetCam | script.js:441-444 | the camera target position and look-at become the given vectors |
| Street.Street.HandleScroll | script.js:386-438 | the new mode and camera target are those of AfterScroll applied to the sections, the viewport height and the old camera target; the mode is never research |
| Street.Street.constructor | script.js:239-301 | the initial state is the traffic table, sixty lowered bollards, mode home and camera target (0,8,20)/(0,0,-50), and it satisfies Valid |
| Street.Street.Animate | script.js:303-377 | one frame eases the camera position by 0.05 and updates every parked car, bollard and vehicle by its step function, keeping Valid |
| Street.Street.UpdateParked | script.js:315-321 | every parked car becomes ParkedStep of its old value in the current mode; the settled invariant is kept |
| Street.Street.UpdateBollards | script.js:323-330 | every bollard height becomes BollardStep of its old value; all heights stay within [-2, 0.6] |
| Street.Street.UpdateTraffic | script.js:335-377 | every vehicle becomes VehicleStep of its old value against the current parked cars; every vehicle stays on course |
| Street.Street.StepVehicle | script.js:336-376 | the body of the traffic loop for one vehicle (advance and wrap; for a bike the blocked scan, the swerve choice, the 0.1 lateral easing and the roll) yields exactly VehicleStep against the current parked cars |
| Traffic.ParkedStep | script.js:316-321 | a parked car keeps its x and z, its distance to the target height (0 in home/problem, -5 otherwise) shrinks to exactly 0.9, and it is visible iff its new height is above -4 |
| Traffic.ParkedStepSettled | script.js:318-320 | a parked car between heights -5 and 0 with a consistent visibility flag stays so, and its new height lies between the old one and the target |
| Traffic.ParkedVisibilityMonotone | script.js:316-320 | while parked cars are shown a visible car stays visible; while they are hidden a hidden car stays hidden |
| Traffic.ParkedAfterHeight | script.js:317-321 | after n frames a parked car's height is n easing steps from its start, its x and z are unchanged, and its flag matches its height |
| Traffic.ParkedAfterDistance | script.js:319 | after n frames in one mode the distance to the target height is 0.9^n of the initial one |
| Traffic.HiddenOnSixteenthFrame | script.js:316-320 | a car at street level is still drawn 15 frames after the mode stops showing parked cars and is hidden on the 16th |
| Traffic.ShownOnThirdFrame | script.js:316-320 | a fully sunk car is still hidden 2 frames after the mode starts showing parked cars and is drawn on the 3rd |
| Traffic.BollardStep | script.js:324-330 | the distance to the bollard target (0.6 in solution/success/benefits/action, -2 otherwise) shrinks to 0.9, and the new height lies between the old one and the target |
| Traffic.BollardStepInRange | script.js:325-329 | a bollard height within [-2, 0.6] stays within it |
| Traffic.Advance | script.js:337-341 | z moves by the speed, and resets to the opposite corridor end only when that move would pass the end it is heading for; a z in [-250, 50] stays in it; a vehicle never passes the end it is heading for |
| Traffic.CorridorForever | script.js:337-341 | a vehicle inside [-250, 50] is still inside after any number of frames |
| Traffic.EntersCorridor | script.js:337-341 | a vehicle behind the corridor, heading into it at speed magnitude at least 0.2, is inside it after some number of frames |
| Traffic.IsBlocked | script.js:348-359 | the scan with early exit reports blocked iff some parked car is on the bike's side of the road and less than 12 units away along it |
| Traffic.BlockedByIgnoresHeights | script.js:350-354 | blocking depends only on the parked cars' x and z, so easing their heights first does not change it |
| Traffic.VehicleStep | script.js:336-376 | kind, speed and lane are kept, z advances with wrap-around, cars keep x and roll, and a bike's distance to its target shrinks to exactly 0.9, so its new x lies between its old x and the target |
| Traffic.SwerveRule | script.js:344-366 | a bike's target is 6 or -6 (by lane side) iff the mode is home/problem and a same-side parked car is within 12 units of its new z, else its lane centre |
| Traffic.BikeTilt | script.js:369-375 | a bike's roll after a frame is 0.45 times its lateral error before the frame, negated for bikes moving toward negative z |
| Traffic.BikeStaysInStrip | script.js:345-369 | a bike between its lane centre and its swerve point stays there |
| Traffic.VehicleStepOnCourse | script.js:336-376 | a frame keeps each vehicle short of the corridor end it is heading for, and each bike within its strip |
| Traffic.InitialSpeeds | script.js:258-292 | initial speeds: right cars in (-0.5, -0.4], oncoming cars in [0.4, 0.5), right bikes in (-0.25, -0.2], left bikes in [0.2, 0.25), with lanes 4, -4, 11, -11 |
| Traffic.InitialTrafficOnCourse | script.js:258-292 | every initial vehicle is on course and moves at least 0.2 per frame; all but the fifth oncoming car start in [-250, 50] |
| Traffic.InitialParkedSettled | script.js:240-256 | every initial parked car is at street level and visible |

## Left out

- Scene construction: lighting, road, sidewalks, the random skyline and the bike-lane meshes. It is one-shot geometry with no state the frame logic reads. The one exception is the bollards, whose count and starting height (thirty per lane at -2) are modelled.
- The car and bike model factories: they only assemble meshes.
- The camera's look-at smoothing through its quaternion and `lookAt`: it depends on three.js matrix internals. Only `camera.position.lerp` is modelled, component-wise.
- The bike-lane colour easing: three.js colour-space handling is library behaviour.
- `requestAnimationFrame`, the render call, the scroll and resize listeners, the resize handler, `getBoundingClientRect` and the DOM queries. These are host I/O. Section rectangles and the viewport height are inputs to `HandleScroll`, and the order of calls is left to the caller.
- The parked cars' random yaw and the vehicles' fixed yaw: they are cosmetic, and no rule reads them.
- `Math.random()`: its draws are the `rand` parameter, each in [0, 1).
- Floating-point rounding, NaN and signed zero: all arithmetic is on reals.
- EntersCorridor: proved only for speed magnitudes of at least 0.2, which covers every speed in the initial table. It is not proved for arbitrarily slow vehicles.

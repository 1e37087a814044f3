/**
  The scroll-to-mode mapper: picks the active section from the sections'
  viewport rectangles and maps its id to a narrative mode and a camera target.
 */
module ScrollMapper {
  import opened Modes
  import opened Easing

  datatype Option<T> = None | Some(value: T)

  /** A page section as the scroll handler sees it: its element id and the
      top and bottom of its bounding rectangle, relative to the viewport. */
  datatype Section = Section(id: string, top: real, bottom: real)

  /** The desired camera position and look-at point. */
  datatype CamTarget = CamTarget(pos: Vec3, look: Vec3)

  /** What the switch on the active id decides: the new mode, and the camera
      target to install (`None` when the camera target is left alone). */
  datatype Route = Route(mode: Mode, cam: Option<CamTarget>)

  /** The mode and camera target after a scroll event. */
  datatype ScrollState = ScrollState(mode: Mode, cam: CamTarget)

  const HomeId := "sec-home"

  const KnownIds: set<string> :=
    {"sec-home", "sec-problem", "sec-research", "sec-success", "sec-solution", "sec-benefits", "sec-action"}

  /** The section's rectangle meets the band between 40% and 60% of the viewport height. */
  predicate InBand(s: Section, height: real)
  {
    s.top < height * 0.6 && s.bottom > height * 0.4
  }

  /** No section after position `i` meets the band. */
  predicate NoneInBandAfter(sections: seq<Section>, height: real, i: nat)
  {
    forall j :: i < j < |sections| ==> !InBand(sections[j], height)
  }

  /** The index of the last section, in document order, that meets the band. */
  function LastInBand(sections: seq<Section>, height: real): (r: Option<nat>)
    ensures r.Some? ==> r.value < |sections| && InBand(sections[r.value], height)
    ensures r.Some? ==> NoneInBandAfter(sections, height, r.value)
    ensures r.None? <==> forall j :: 0 <= j < |sections| ==> !InBand(sections[j], height)
  {
    if |sections| == 0 then None
    else if InBand(sections[|sections| - 1], height) then Some(|sections| - 1)
    else LastInBand(sections[..|sections| - 1], height)
  }

  /** The id the scroll handler settles on: the last section in the band, or
      `sec-home` when no section is in it. */
  function ActiveIdOf(sections: seq<Section>, height: real): string
  {
    match LastInBand(sections, height)
    case Some(i) => sections[i].id
    case None => HomeId
  }

  /** The scan of the scroll handler: walks the sections in document order and
      keeps the id of every section that meets the band, so the last one wins. */
  method ActiveId(sections: seq<Section>, height: real) returns (activeId: string)
    ensures activeId == ActiveIdOf(sections, height)
  {
    activeId := HomeId;
    for i := 0 to |sections|
      invariant activeId == ActiveIdOf(sections[..i], height)
    {
      assert sections[..i + 1][..i] == sections[..i];
      if InBand(sections[i], height) {
        activeId := sections[i].id;
      }
    }
    assert sections[..|sections|] == sections;
  }

  function Cam(x: real, y: real, z: real, lx: real, ly: real, lz: real): CamTarget
  {
    CamTarget(Vec3(x, y, z), Vec3(lx, ly, lz))
  }

  /** The switch on the active id. An unrecognised id selects the solution mode
      and leaves the camera target where it was. */
  function RouteFor(id: string): (r: Route)
    ensures r.mode != Research
    ensures r.cam.None? <==> id !in KnownIds
  {
    match id
    case "sec-home" => Route(Home, Some(Cam(0.0, 15.0, 30.0, 0.0, 5.0, -50.0)))
    case "sec-problem" => Route(Problem, Some(Cam(15.0, 6.0, -10.0, 0.0, 2.0, -40.0)))
    case "sec-research" => Route(Problem, Some(Cam(0.0, 40.0, -40.0, 0.0, 0.0, -80.0)))
    case "sec-success" => Route(Success, Some(Cam(11.0, 3.0, 5.0, 11.0, 1.0, -50.0)))
    case "sec-solution" => Route(Solution, Some(Cam(-20.0, 20.0, -20.0, 0.0, 0.0, -50.0)))
    case "sec-benefits" => Route(Benefits, Some(Cam(0.0, 10.0, -80.0, 0.0, 0.0, 0.0)))
    case "sec-action" => Route(Action, Some(Cam(0.0, 2.0, 40.0, 0.0, 15.0, -50.0)))
    case _ => Route(Solution, None)
  }

  /** Installs a route: the mode always, the camera target only when the route carries one. */
  function Apply(r: Route, before: CamTarget): ScrollState
  {
    ScrollState(r.mode, if r.cam.Some? then r.cam.value else before)
  }

  /** The effect of one scroll event on the mode and the camera target. */
  function AfterScroll(sections: seq<Section>, height: real, before: CamTarget): (s: ScrollState)
    ensures s.mode != Research
    ensures LastInBand(sections, height).None? ==>
      s == ScrollState(Home, Cam(0.0, 15.0, 30.0, 0.0, 5.0, -50.0))
    ensures LastInBand(sections, height).Some? && sections[LastInBand(sections, height).value].id !in KnownIds ==>
      s == ScrollState(Solution, before)
    ensures ActiveIdOf(sections, height) in KnownIds ==> s.cam == RouteFor(ActiveIdOf(sections, height)).cam.value
  {
    Apply(RouteFor(ActiveIdOf(sections, height)), before)
  }

  /** The seven recognised ids and the mode and camera target each selects. */
  lemma RouteTable()
    ensures RouteFor("sec-home") == Route(Home, Some(Cam(0.0, 15.0, 30.0, 0.0, 5.0, -50.0)))
    ensures RouteFor("sec-problem") == Route(Problem, Some(Cam(15.0, 6.0, -10.0, 0.0, 2.0, -40.0)))
    ensures RouteFor("sec-research") == Route(Problem, Some(Cam(0.0, 40.0, -40.0, 0.0, 0.0, -80.0)))
    ensures RouteFor("sec-success") == Route(Success, Some(Cam(11.0, 3.0, 5.0, 11.0, 1.0, -50.0)))
    ensures RouteFor("sec-solution") == Route(Solution, Some(Cam(-20.0, 20.0, -20.0, 0.0, 0.0, -50.0)))
    ensures RouteFor("sec-benefits") == Route(Benefits, Some(Cam(0.0, 10.0, -80.0, 0.0, 0.0, 0.0)))
    ensures RouteFor("sec-action") == Route(Action, Some(Cam(0.0, 2.0, 40.0, 0.0, 15.0, -50.0)))
  {
  }

  /** The active id is the id of the last section in the band, or `sec-home`
      when none is in it. */
  lemma ActiveIdIsLastInBand(sections: seq<Section>, height: real)
    ensures (forall j :: 0 <= j < |sections| ==> !InBand(sections[j], height)) ==>
      ActiveIdOf(sections, height) == HomeId
    ensures forall i :: 0 <= i < |sections| && InBand(sections[i], height) && NoneInBandAfter(sections, height, i) ==>
      ActiveIdOf(sections, height) == sections[i].id
  {
    forall i | 0 <= i < |sections| && InBand(sections[i], height) && NoneInBandAfter(sections, height, i)
      ensures ActiveIdOf(sections, height) == sections[i].id
    {
      var r := LastInBand(sections, height);
      assert r.Some?;
      assert r.value == i;
    }
  }

  /** A later section in the band takes priority over an earlier one. */
  lemma LaterSectionWins(sections: seq<Section>, height: real, i: nat, k: nat)
    requires i < k < |sections|
    requires InBand(sections[i], height) && InBand(sections[k], height)
    ensures LastInBand(sections, height).Some? && LastInBand(sections, height).value >= k
  {
  }
}

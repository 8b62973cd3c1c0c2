/**
 * The conversion of a decoded Litchi mission into a flight plan
 * (src/flightplan/from_bin.rs).
 *
 * Only the structure of the conversion is modelled: the float arithmetic and the
 * float-to-integer casts it applies to altitudes, headings and the cruising speed are
 * the opaque functions of a FloatOps parameter, and the clock is a parameter.
 */
module FromBin {

  import opened Wrappers
  import opened Wire
  import Litchi
  import BinTypes
  import Waypoints
  import Missions
  import opened PlanModel

  /** The float operations of the conversion, left uninterpreted:
      `w.altitude as u16`, `360.0 - (w.heading as f64).abs()`,
      `mission.cruising_speed as u8` and `poi.altitude as i16`. */
  datatype FloatOps = FloatOps(
    altitudeAsU16: F32 -> u16, yawOfHeading: F32 -> F64,
    speedAsU8: F32 -> u8, poiAltitudeAsI16: F32 -> i16)

  /** `POI_COLORS` (src/flightplan/color.rs): eleven ARGB colours. */
  const POI_COLORS: seq<i32> := [
    -7589836, -7581644, -6537400, -4699067, -4631765, -3316660, -2600147, -1022921, -51356, -49820,
    -47804]

  /** The colour a point of interest gets before the colour roll repaints it. */
  const DEFAULT_POI_COLOR: i32 := 0x32a852

  /** `From<&PointOfInterest> for PointOfInterest`. */
  function PoiFrom(ops: FloatOps, p: BinTypes.PointOfInterest): (r: PointOfInterest)
    ensures r.latitude == p.latitude && r.longitude == p.longitude
    ensures r.altitude == ops.poiAltitudeAsI16(p.altitude) && r.color == DEFAULT_POI_COLOR
  {
    PointOfInterest(p.latitude, p.longitude, ops.poiAltitudeAsI16(p.altitude), 0x32a852)
  }

  /** The translated action list of a waypoint: None when the waypoint has no action. */
  function ActionsFrom(actions: seq<Litchi.Action>): (r: Option<seq<Action>>)
    ensures r.None? <==> actions == []
    ensures r.Some? ==> |r.value| == |actions|
    ensures r.Some? ==> forall k | 0 <= k < |actions| :: r.value[k] == ActionFrom(actions[k])
  {
    if actions == [] then None else Some(ActionList(actions))
  }

  function ActionList(actions: seq<Litchi.Action>): (r: seq<Action>)
    ensures |r| == |actions|
    ensures forall k | 0 <= k < |actions| :: r[k] == ActionFrom(actions[k])
  {
    if actions == [] then [] else [ActionFrom(actions[0])] + ActionList(actions[1..])
  }

  /** One waypoint of `From<&LitchiMission> for Vec<Waypoint>`. */
  function WaypointFrom(ops: FloatOps, cruisingSpeed: F32, w: Waypoints.Waypoint): (r: Waypoint)
    ensures r.latitude == w.latitude && r.longitude == w.longitude
    ensures r.altitude == ops.altitudeAsU16(w.altitude) && r.yaw == ops.yawOfHeading(w.heading)
    ensures r.speed == ops.speedAsU8(cruisingSpeed)
    ensures r.poi.Some? <==> w.poi.Some?
    ensures r.poi.Some? ==> (r.poi.value - w.poi.value) % 0x100 == 0
    ensures r.followPoi <==> w.poi.Some?
    ensures r.dontStop && r.follow == 1 && r.lastYaw == ZERO_F64
    ensures r.actions == ActionsFrom(w.actions)
  {
    Waypoint(
      w.latitude, w.longitude, ops.altitudeAsU16(w.altitude), ops.yawOfHeading(w.heading),
      ops.speedAsU8(cruisingSpeed),
      if w.poi.Some? then Some(WrapU8(w.poi.value)) else None,
      true, w.poi.Some?, 1, ZERO_F64, ActionsFrom(w.actions))
  }

  /** `From<&LitchiMission> for Vec<Waypoint>`: every waypoint, in order. */
  function WaypointsFrom(ops: FloatOps, m: Missions.Mission): (r: seq<Waypoint>)
    ensures |r| == |m.waypoints|
    ensures forall i | 0 <= i < |r| :: r[i] == WaypointFrom(ops, m.cruisingSpeed, m.waypoints[i])
  {
    MapWaypoints(ops, m.cruisingSpeed, m.waypoints)
  }

  function MapWaypoints(ops: FloatOps, cruisingSpeed: F32, ws: seq<Waypoints.Waypoint>): (r: seq<Waypoint>)
    ensures |r| == |ws|
    ensures forall i | 0 <= i < |r| :: r[i] == WaypointFrom(ops, cruisingSpeed, ws[i])
  {
    if ws == [] then [] else [WaypointFrom(ops, cruisingSpeed, ws[0])] + MapWaypoints(ops, cruisingSpeed, ws[1..])
  }

  // ---------------------------------------------------------------------------
  // The colour roll
  // ---------------------------------------------------------------------------

  /** The points of interest, translated, the i-th painted with colour i mod 11. */
  function ColoredPois(ops: FloatOps, pois: seq<BinTypes.PointOfInterest>): (r: seq<PointOfInterest>)
    ensures |r| == |pois|
    ensures forall i | 0 <= i < |pois| ::
              r[i].latitude == pois[i].latitude && r[i].longitude == pois[i].longitude
              && r[i].altitude == ops.poiAltitudeAsI16(pois[i].altitude)
              && r[i].color == POI_COLORS[i % |POI_COLORS|]
  {
    seq(|pois|, i requires 0 <= i < |pois| => PoiFrom(ops, pois[i]).(color := POI_COLORS[i % |POI_COLORS|]))
  }

  /** The `scan` over `POI_COLORS.iter().cycle()`: the cycling iterator is an index that
      wraps around after the last colour. */
  method RollColors(ops: FloatOps, pois: seq<BinTypes.PointOfInterest>) returns (r: seq<PointOfInterest>)
    ensures r == ColoredPois(ops, pois)
  {
    var picker := 0;
    r := [];
    for i := 0 to |pois|
      invariant picker == i % |POI_COLORS|
      invariant |r| == i
      invariant forall k | 0 <= k < i :: r[k] == ColoredPois(ops, pois)[k]
    {
      var poi := PoiFrom(ops, pois[i]);
      poi := poi.(color := POI_COLORS[picker]);
      picker := if picker + 1 == |POI_COLORS| then 0 else picker + 1;
      r := r + [poi];
    }
  }

  /** The eleven colours are distinct: they are listed in increasing order. */
  lemma ColorsIncrease()
    ensures forall a, b | 0 <= a < b < |POI_COLORS| :: POI_COLORS[a] < POI_COLORS[b]
  {
  }

  /** Two points of interest share a colour exactly when their positions agree modulo
      eleven: the colours repeat with period eleven and with no shorter period. */
  lemma ColorsCycle(ops: FloatOps, pois: seq<BinTypes.PointOfInterest>, i: nat, j: nat)
    requires i < |pois| && j < |pois|
    ensures ColoredPois(ops, pois)[i].color == ColoredPois(ops, pois)[j].color
            <==> i % |POI_COLORS| == j % |POI_COLORS|
  {
    ColorsIncrease();
    var a, b := i % |POI_COLORS|, j % |POI_COLORS|;
    assert a < b ==> POI_COLORS[a] < POI_COLORS[b];
    assert b < a ==> POI_COLORS[b] < POI_COLORS[a];
  }

  // ---------------------------------------------------------------------------
  // The final stop
  // ---------------------------------------------------------------------------

  /** The actions of a waypoint with VideoStopCapture added at the end. */
  function WithStop(actions: Option<seq<Action>>): (r: seq<Action>)
    ensures |r| > 0 && r[|r| - 1] == VideoStopCapture
    ensures actions.Some? ==> r[..|r| - 1] == actions.value
    ensures actions.None? ==> r == [VideoStopCapture]
  {
    match actions
    case Some(xs) => xs + [VideoStopCapture]
    case None => [VideoStopCapture]
  }

  /** The waypoints once the last one stops the recording: every other waypoint and
      every other field of the last one are unchanged. */
  predicate StopsAtEnd(before: seq<Waypoint>, after: seq<Waypoint>) {
    && |after| == |before|
    && (forall i | 0 <= i < |before| - 1 :: after[i] == before[i])
    && (|before| > 0 ==> after[|before| - 1] == before[|before| - 1].(actions := Some(WithStop(before[|before| - 1].actions))))
  }

  /** `waypoints.last_mut()`: the push onto the last waypoint's actions, or a new
      singleton list, done in place. */
  method StopLast(ws: seq<Waypoint>) returns (ws': seq<Waypoint>)
    ensures StopsAtEnd(ws, ws')
  {
    ws' := ws;
    if |ws'| > 0 {
      var last := ws'[|ws'| - 1];
      if last.actions.Some? {
        last := last.(actions := Some(last.actions.value + [VideoStopCapture]));
      } else {
        last := last.(actions := Some([VideoStopCapture]));
      }
      ws' := ws'[|ws'| - 1 := last];
    }
  }

  // ---------------------------------------------------------------------------
  // The conversion
  // ---------------------------------------------------------------------------

  /** The plan's waypoints: one per mission waypoint, in order, the last one stopping
      the recording. */
  predicate PlanWaypoints(ops: FloatOps, m: Missions.Mission, ws: seq<Waypoint>) {
    StopsAtEnd(WaypointsFrom(ops, m), ws)
  }

  /** `TryFrom<&LitchiMission> for FlightPlan`: the waypoints, the coloured points of
      interest and the final stop; then the start point, which must exist; then a new
      untitled plan centred on it, to which both lists are appended. */
  method TryFromMission(ops: FloatOps, date: u64, m: Missions.Mission) returns (r: Result<FlightPlan, Error>)
    ensures r.Err? <==> m.waypoints == []
    ensures r.Err? ==> r.error == MalformedLitchiMission("missing start point")
    ensures r.Ok? ==> fresh(r.value) && r.value.Defaults()
    ensures r.Ok? ==> r.value.title == "" && r.value.uuid == "" && r.value.date == date
    ensures r.Ok? ==> r.value.latitude == m.waypoints[0].latitude && r.value.longitude == m.waypoints[0].longitude
    ensures r.Ok? ==> r.value.plan.takeoff == [RECORDING_4K_30FPS]
    ensures r.Ok? ==> r.value.plan.poi == ColoredPois(ops, m.poi)
    ensures r.Ok? ==> PlanWaypoints(ops, m, r.value.plan.waypoints)
  {
    var waypoints := WaypointsFrom(ops, m);
    var poi := RollColors(ops, m.poi);
    waypoints := StopLast(waypoints);
    if |waypoints| == 0 {
      return Err(MalformedLitchiMission("missing start point"));
    }
    var start := waypoints[0];
    var flightplan := new FlightPlan.New("", start.latitude, start.longitude, date);
    flightplan.plan := flightplan.plan.(poi := flightplan.plan.poi + poi);
    flightplan.plan := flightplan.plan.(waypoints := flightplan.plan.waypoints + waypoints);
    assert flightplan.plan.poi == poi && flightplan.plan.waypoints == waypoints;
    r := Ok(flightplan);
  }

  // ---------------------------------------------------------------------------
  // What the conversion promises
  // ---------------------------------------------------------------------------

  /** The plan has one waypoint per mission waypoint, in order: each but the last is
      the translation of the mission's, and the last one is too, except that its
      actions end with VideoStopCapture. */
  lemma {:induction false} PlanKeepsWaypoints(ops: FloatOps, m: Missions.Mission, ws: seq<Waypoint>)
    requires PlanWaypoints(ops, m, ws)
    ensures |ws| == |m.waypoints|
    ensures forall i | 0 <= i < |ws| - 1 :: ws[i] == WaypointFrom(ops, m.cruisingSpeed, m.waypoints[i])
    ensures |ws| > 0 ==> ws[|ws| - 1].actions.Some? && ws[|ws| - 1].actions.value[|ws[|ws| - 1].actions.value| - 1] == VideoStopCapture
    ensures forall i | 0 <= i < |ws| ::
              ws[i].latitude == m.waypoints[i].latitude && ws[i].longitude == m.waypoints[i].longitude
              && ws[i].dontStop && ws[i].follow == 1 && ws[i].lastYaw == ZERO_F64
              && (ws[i].poi.Some? <==> m.waypoints[i].poi.Some?) && ws[i].followPoi == m.waypoints[i].poi.Some?
  {
    var before := WaypointsFrom(ops, m);
    forall i | 0 <= i < |ws|
      ensures ws[i].latitude == m.waypoints[i].latitude && ws[i].longitude == m.waypoints[i].longitude
      ensures ws[i].dontStop && ws[i].follow == 1 && ws[i].lastYaw == ZERO_F64
      ensures (ws[i].poi.Some? <==> m.waypoints[i].poi.Some?) && ws[i].followPoi == m.waypoints[i].poi.Some?
    {
      StopKeepsFields(before, ws, i);
    }
  }

  /** The final stop changes no field of any waypoint but the actions. */
  lemma StopKeepsFields(before: seq<Waypoint>, after: seq<Waypoint>, i: nat)
    requires StopsAtEnd(before, after) && i < |after|
    ensures after[i].(actions := before[i].actions) == before[i]
  {
  }

  /** The last waypoint's own actions come first, translated one by one, then the
      VideoStopCapture. */
  lemma LastActions(ops: FloatOps, m: Missions.Mission, ws: seq<Waypoint>)
    requires PlanWaypoints(ops, m, ws) && |ws| > 0
    ensures var n := |ws| - 1;
            ws[n].actions.Some?
            && |ws[n].actions.value| == |m.waypoints[n].actions| + 1
            && (forall k | 0 <= k < |m.waypoints[n].actions| :: ws[n].actions.value[k] == ActionFrom(m.waypoints[n].actions[k]))
            && ws[n].actions.value[|m.waypoints[n].actions|] == VideoStopCapture
  {
    var n := |ws| - 1;
    var before := WaypointsFrom(ops, m)[n].actions;
    assert ws[n].actions == Some(WithStop(before));
  }
}

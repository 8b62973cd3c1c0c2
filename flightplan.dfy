/**
 * The entry points of src/flightplan/mod.rs that turn a converted plan into a titled
 * one: `from_csv` and `from_bin` convert, then set the title and the uuid of a
 * successful result in place.
 */
module FlightPlans {

  import opened Wrappers
  import opened Wire
  import Missions
  import opened PlanModel
  import opened FromBin

  /** `if let Ok(flightplan) = res.as_mut()`: a successful plan is retitled in place, a
      failure is returned unchanged. */
  method TitleResult(res: Result<FlightPlan, Error>, title: string) returns (r: Result<FlightPlan, Error>)
    modifies if res.Ok? then {res.value} else {}
    ensures r == res
    ensures r.Ok? ==> r.value.title == title && r.value.uuid == title && r.value.plan == old(r.value.plan)
  {
    if res.Ok? {
      res.value.Retitle(title);
    }
    r := res;
  }

  /** `from_csv`: the conversion of the CSV records, which src/flightplan/from_csv.rs
      performs, is not part of this model; its outcome is the parameter `converted`. */
  method FromCsv(title: string, converted: Result<FlightPlan, Error>) returns (r: Result<FlightPlan, Error>)
    modifies if converted.Ok? then {converted.value} else {}
    ensures r == converted
    ensures r.Ok? ==> r.value.title == title && r.value.uuid == title && r.value.plan == old(r.value.plan)
  {
    r := TitleResult(converted, title);
  }

  /** `from_bin`: the mission converted by TryFromMission, then titled. */
  method FromBinMission(title: string, ops: FloatOps, date: u64, m: Missions.Mission) returns (r: Result<FlightPlan, Error>)
    ensures r.Err? <==> m.waypoints == []
    ensures r.Err? ==> r.error == MalformedLitchiMission("missing start point")
    ensures r.Ok? ==> fresh(r.value) && r.value.Defaults()
    ensures r.Ok? ==> r.value.title == title && r.value.uuid == title && r.value.date == date
    ensures r.Ok? ==> r.value.latitude == m.waypoints[0].latitude && r.value.longitude == m.waypoints[0].longitude
    ensures r.Ok? ==> r.value.plan == Plan([RECORDING_4K_30FPS], ColoredPois(ops, m.poi), r.value.plan.waypoints)
    ensures r.Ok? ==> PlanWaypoints(ops, m, r.value.plan.waypoints)
  {
    var res := TryFromMission(ops, date, m);
    r := TitleResult(res, title);
  }
}

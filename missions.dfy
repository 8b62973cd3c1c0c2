/**
 * The mission decoder (src/litchi/bin/mission.rs).
 *
 * A mission file is read as one tuple of `usize::MAX` elements, through a single
 * SeqVisitor of size 0xFFFFFFFF. Its elements follow a strictly linear grammar: the
 * magic number, the header struct (which carries the waypoint and POI sequences),
 * one detail record per waypoint, one detail record per POI, the settings record and
 * one (f32, f32) photo interval per waypoint. The waypoint lists are then zipped by
 * index into the assembled mission.
 */
module Missions {

  import opened Wrappers
  import opened Wire
  import opened BinError
  import opened BinDeserializer
  import opened BinTypes
  import opened Litchi
  import opened Waypoints

  // ---------------------------------------------------------------------------
  // Records
  // ---------------------------------------------------------------------------

  /** `LitchiMissionPartial`, the header struct: eight fields in declaration order. */
  datatype MissionPartial = MissionPartial(
    plop: u32, finishAction: FinishAction, pathMode: PathMode,
    cruisingSpeed: F32, maxSpeed: F32, b: seq<u32>,
    waypoints: seq<WaypointPartial>, poi: seq<PointOfInterest>)

  /** `LitchiMission`, the decoded mission. */
  datatype Mission = Mission(
    finishAction: FinishAction, pathMode: PathMode, cruisingSpeed: F32, maxSpeed: F32,
    waypoints: seq<Waypoint>, poi: seq<PointOfInterest>)

  /** `WaypointDetails`; of its fields only `waypoint_poi` is used. */
  datatype WaypointDetails = WaypointDetails(isAboveGround: u16, altitude: F32, waypointPoi: u32)

  /** `[u32; 4]` is a tuple of four u32, 16 bytes without prefix. */
  const PADDING: Shape := TupleOf([Prim(U32), Prim(U32), Prim(U32), Prim(U32)])

  /** `is_above_ground: u16` is a forwarded request: refused by the source dialect. */
  const WAYPOINT_DETAILS: Shape := StructOf("WaypointDetails", [Prim(Forward(U16)), Prim(Float), Prim(U32)])

  const POI_DETAILS: Shape := StructOf("PoIDetails", [Prim(Forward(U16)), Prim(Float)])

  const OTHER_SETTINGS: Shape :=
    StructOf("OtherSettings", [Prim(U32), Prim(U32), Prim(U32), Prim(Float), Prim(Float)])

  /** `(f32, f32)`: the photo interval in seconds, then in meters. */
  const INTERVAL: Shape := TupleOf([Prim(Float), Prim(Float)])

  /** The sentinel of `waypoint_poi` meaning "no point of interest". */
  const NO_POI: u32 := 0xFFFF_FFFF

  /** What the bad-magic error says it expected. */
  const LCHM: string := "'lchm' (0x6C63686D)"

  // ---------------------------------------------------------------------------
  // Typed views of decoded values
  // ---------------------------------------------------------------------------

  function DetailsOf(v: Value): WaypointDetails
    requires Conforms(v, WAYPOINT_DETAILS)
  {
    assert Conforms(v.items[0], Prim(Forward(U16))) && Conforms(v.items[1], Prim(Float))
      && Conforms(v.items[2], Prim(U32));
    WaypointDetails(v.items[0].n, v.items[1].f, v.items[2].n)
  }

  function IntervalOf(v: Value): (F32, F32)
    requires Conforms(v, INTERVAL)
  {
    assert Conforms(v.items[0], Prim(Float)) && Conforms(v.items[1], Prim(Float));
    (v.items[0].f, v.items[1].f)
  }

  function PaddingOf(v: Value): seq<u32>
    requires Conforms(v, PADDING)
  {
    assert Conforms(v.items[0], Prim(U32)) && Conforms(v.items[1], Prim(U32))
      && Conforms(v.items[2], Prim(U32)) && Conforms(v.items[3], Prim(U32));
    [v.items[0].n, v.items[1].n, v.items[2].n, v.items[3].n]
  }

  function DetailsList(vs: seq<Value>): (r: seq<WaypointDetails>)
    requires forall k | 0 <= k < |vs| :: Conforms(vs[k], WAYPOINT_DETAILS)
    ensures |r| == |vs| && forall k | 0 <= k < |vs| :: r[k] == DetailsOf(vs[k])
  {
    seq(|vs|, k requires 0 <= k < |vs| => DetailsOf(vs[k]))
  }

  function IntervalList(vs: seq<Value>): (r: seq<(F32, F32)>)
    requires forall k | 0 <= k < |vs| :: Conforms(vs[k], INTERVAL)
    ensures |r| == |vs| && forall k | 0 <= k < |vs| :: r[k] == IntervalOf(vs[k])
  {
    seq(|vs|, k requires 0 <= k < |vs| => IntervalOf(vs[k]))
  }

  function PoiList(vs: seq<Value>): (r: seq<PointOfInterest>)
    requires forall k | 0 <= k < |vs| :: Conforms(vs[k], POINT_OF_INTEREST)
    ensures |r| == |vs| && forall k | 0 <= k < |vs| :: r[k] == PointOfInterestOf(vs[k])
  {
    seq(|vs|, k requires 0 <= k < |vs| => PointOfInterestOf(vs[k]))
  }

  // ---------------------------------------------------------------------------
  // Assembly
  // ---------------------------------------------------------------------------

  /** `PhotoInterval::from_tuple`: the time interval unless it is -1.0, else the
      distance interval unless it is -1.0, else none. The comparison `!= -1.0` holds
      exactly for the bit patterns other than that of -1.0, NaN included. */
  function FromTuple(time: F32, dist: F32): (r: Option<PhotoInterval>)
    ensures r.Some? && r.value.Time? <==> time != MINUS_ONE_F32
    ensures r.Some? && r.value.Distance? <==> time == MINUS_ONE_F32 && dist != MINUS_ONE_F32
    ensures r.Some? ==> r.value == if r.value.Time? then Time(time) else Distance(dist)
  {
    if time != MINUS_ONE_F32 then Some(Time(time))
    else if dist != MINUS_ONE_F32 then Some(Distance(dist))
    else None
  }

  /** The tuple a photo interval is written as: -1.0 marks the unused part. */
  function ToTuple(p: Option<PhotoInterval>): (F32, F32) {
    match p
    case None => (MINUS_ONE_F32, MINUS_ONE_F32)
    case Some(Time(s)) => (s, MINUS_ONE_F32)
    case Some(Distance(m)) => (MINUS_ONE_F32, m)
  }

  /** An interval whose payload is not the -1.0 marker. */
  predicate IntervalWritable(p: Option<PhotoInterval>) {
    match p
    case None => true
    case Some(Time(s)) => s != MINUS_ONE_F32
    case Some(Distance(m)) => m != MINUS_ONE_F32
  }

  /** `waypoint_poi != 0xFFFFFFFF ... then(|| waypoint_poi)`. */
  function PoiLink(code: u32): (r: Option<u32>)
    ensures r.None? <==> code == NO_POI
    ensures r.Some? ==> r.value == code
  {
    if code != NO_POI then Some(code) else None
  }

  /** The `waypoint_poi` a link is written as. */
  function PoiCode(link: Option<u32>): u32 {
    match link
    case None => NO_POI
    case Some(p) => p
  }

  /** Reading back a written interval gives it again. */
  lemma FromTupleRoundTrip(p: Option<PhotoInterval>)
    requires IntervalWritable(p)
    ensures FromTuple(ToTuple(p).0, ToTuple(p).1) == p
  {
  }

  /** Writing back a read link gives the code again; reading back a written link
      gives it again unless it names the sentinel itself. */
  lemma PoiLinkRoundTrip(code: u32, link: Option<u32>)
    ensures PoiCode(PoiLink(code)) == code
    ensures link != Some(NO_POI) ==> PoiLink(PoiCode(link)) == link
  {
  }

  /** The closure of the zip: one assembled waypoint from its three parts. */
  function Combine(w: WaypointPartial, details: WaypointDetails, interval: (F32, F32)): (x: Waypoint)
    ensures KeepsFlight(w, x)
    ensures x.poi == PoiLink(details.waypointPoi) && x.interval == FromTuple(interval.0, interval.1)
  {
    Waypoint(w.altitude, w.heading, w.latitude, w.longitude, w.curveSize, w.gimbalPitch,
             PoiLink(details.waypointPoi), FromTuple(interval.0, interval.1), w.actions)
  }

  /** `waypoints.into_iter().zip(details).zip(intervals).map(..).collect()`: stops at
      the shortest of the three lists. */
  function ZipWaypoints(ws: seq<WaypointPartial>, ds: seq<WaypointDetails>, ivs: seq<(F32, F32)>): (r: seq<Waypoint>)
    ensures |r| == Min(|ws|, Min(|ds|, |ivs|))
    ensures forall k | 0 <= k < |r| :: r[k] == Combine(ws[k], ds[k], ivs[k])
    decreases |ws|
  {
    if ws == [] || ds == [] || ivs == [] then []
    else [Combine(ws[0], ds[0], ivs[0])] + ZipWaypoints(ws[1..], ds[1..], ivs[1..])
  }

  function Min(a: nat, b: nat): nat {
    if a <= b then a else b
  }

  /** The mission record: the header's scalars and POI list, and the zipped waypoints. */
  function MissionOf(part: MissionPartial, ds: seq<WaypointDetails>, ivs: seq<(F32, F32)>): (m: Mission)
    ensures m.finishAction == part.finishAction && m.pathMode == part.pathMode
    ensures m.cruisingSpeed == part.cruisingSpeed && m.maxSpeed == part.maxSpeed && m.poi == part.poi
    ensures |m.waypoints| == Min(|part.waypoints|, Min(|ds|, |ivs|))
    ensures forall k | 0 <= k < |m.waypoints| :: m.waypoints[k] == Combine(part.waypoints[k], ds[k], ivs[k])
  {
    Mission(part.finishAction, part.pathMode, part.cruisingSpeed, part.maxSpeed,
            ZipWaypoints(part.waypoints, ds, ivs), part.poi)
  }

  /** An assembled waypoint keeps the flight fields and the actions of its partial one. */
  predicate KeepsFlight(w: WaypointPartial, x: Waypoint) {
    && x.altitude == w.altitude && x.heading == w.heading
    && x.latitude == w.latitude && x.longitude == w.longitude
    && x.curveSize == w.curveSize && x.gimbalPitch == w.gimbalPitch && x.actions == w.actions
  }

  /** The mission copies the header's scalars and POI list, and has one waypoint per
      header waypoint, each keeping that waypoint's flight fields. */
  predicate KeepsHeader(part: MissionPartial, m: Mission) {
    && m.finishAction == part.finishAction && m.pathMode == part.pathMode
    && m.cruisingSpeed == part.cruisingSpeed && m.maxSpeed == part.maxSpeed
    && m.poi == part.poi
    && |m.waypoints| == |part.waypoints|
    && forall k | 0 <= k < |m.waypoints| :: KeepsFlight(part.waypoints[k], m.waypoints[k])
  }

  /** With one detail record and one interval per waypoint, the k-th waypoint of the
      mission is the k-th header waypoint with the point of interest of the k-th detail
      record and the photo interval of the k-th tuple. */
  lemma MissionAssembly(part: MissionPartial, ds: seq<WaypointDetails>, ivs: seq<(F32, F32)>)
    ensures |ds| == |part.waypoints| && |ivs| == |part.waypoints| ==> KeepsHeader(part, MissionOf(part, ds, ivs))
    ensures |ds| == |part.waypoints| && |ivs| == |part.waypoints| ==> forall k | 0 <= k < |part.waypoints| ::
              && MissionOf(part, ds, ivs).waypoints[k].poi == PoiLink(ds[k].waypointPoi)
              && MissionOf(part, ds, ivs).waypoints[k].interval == FromTuple(ivs[k].0, ivs[k].1)
  {
  }

  // ---------------------------------------------------------------------------
  // The decoder, as functions
  // ---------------------------------------------------------------------------

  /** The derived visitor of `LitchiMissionPartial`. `deserialize_struct` gives it a
      SeqVisitor of exactly eight elements, one per field, so its `invalid_length`
      branch is never taken and the fields are read one after the other. */
  function DecodeHeader(d: Dialect, input: seq<byte>): (r: Outcome<Read<MissionPartial>>)
    ensures r.Ok? ==> |r.value.rest| + 56 * |r.value.value.waypoints| + |r.value.value.poi| <= |input|
    ensures r.Ok? ==>
              && 20 <= |input|
              && BeBytes(r.value.value.plop, 4) == input[..4]
              && BeBytes(FinishActionCode(r.value.value.finishAction), 4) == input[4..8]
              && BeBytes(PathModeCode(r.value.value.pathMode), 4) == input[8..12]
              && BeBytes(r.value.value.cruisingSpeed.bits, 4) == input[12..16]
              && BeBytes(r.value.value.maxSpeed.bits, 4) == input[16..20]
  {
    var plop :- ReadU32(input);
    var finish :- DecodeFinishAction(plop.rest);
    var path :- DecodePathMode(finish.rest);
    var cruising :- ReadF32(path.rest);
    var max :- ReadF32(cruising.rest);
    HeaderScalars(input, plop, finish, path, cruising, max);
    DecodeHeaderLists(d, plop.value, finish.value, path.value, cruising.value, max.value, max.rest)
  }

  /** Where the five scalars of the header sit in its first 20 bytes. */
  lemma HeaderScalars(input: seq<byte>, plop: Read<u32>, finish: Read<FinishAction>, path: Read<PathMode>,
                      cruising: Read<F32>, max: Read<F32>)
    requires ReadU32(input) == Ok(plop) && DecodeFinishAction(plop.rest) == Ok(finish)
    requires DecodePathMode(finish.rest) == Ok(path) && ReadF32(path.rest) == Ok(cruising)
    requires ReadF32(cruising.rest) == Ok(max)
    ensures 20 <= |input| && max.rest == input[20..]
    ensures BeBytes(plop.value, 4) == input[..4]
    ensures BeBytes(FinishActionCode(finish.value), 4) == input[4..8]
    ensures BeBytes(PathModeCode(path.value), 4) == input[8..12]
    ensures BeBytes(cruising.value.bits, 4) == input[12..16]
    ensures BeBytes(max.value.bits, 4) == input[16..20]
  {
    FourFront(BeBytes(plop.value, 4), plop.rest, input);
    FourAt(input, 4, plop.rest);
    FourAt(input, 8, finish.rest);
    FourAt(input, 12, path.rest);
    FourFront(BeBytes(cruising.value.bits, 4), cruising.rest, path.rest);
    FourAt(input, 16, cruising.rest);
    FourFront(BeBytes(max.value.bits, 4), max.rest, cruising.rest);
  }

  /** Four bytes read from `input[i..]`, in terms of `input`. */
  lemma FourAt(input: seq<byte>, i: nat, src: seq<byte>)
    requires i + 4 <= |input| && src == input[i..]
    ensures src[..4] == input[i..i + 4] && src[4..] == input[i + 4..]
  {
  }

  /** Four bytes read from the front of `src` and what is left of it. */
  lemma FourFront(w: seq<byte>, rest: seq<byte>, src: seq<byte>)
    requires |w| == 4 && w + rest == src
    ensures w == src[..4] && rest == src[4..]
  {
  }

  /** The last three fields of the header: the padding, the waypoints and the points
      of interest. */
  function DecodeHeaderLists(d: Dialect, plop: u32, finish: FinishAction, path: PathMode,
                             cruising: F32, max: F32, input: seq<byte>): (r: Outcome<Read<MissionPartial>>)
    ensures r.Ok? ==> |r.value.rest| + 56 * |r.value.value.waypoints| + |r.value.value.poi| <= |input|
    ensures r.Ok? ==> (r.value.value.plop == plop && r.value.value.finishAction == finish
      && r.value.value.pathMode == path && r.value.value.cruisingSpeed == cruising && r.value.value.maxSpeed == max)
  {
    var b :- DecodeShape(d, PADDING, input);
    DecodeHeaderSeqs(d, plop, finish, path, cruising, max, PaddingOf(b.value), b.rest)
  }

  /** The waypoints and the points of interest, each a u32 count and its elements. */
  function DecodeHeaderSeqs(d: Dialect, plop: u32, finish: FinishAction, path: PathMode,
                            cruising: F32, max: F32, b: seq<u32>, input: seq<byte>): (r: Outcome<Read<MissionPartial>>)
    ensures r.Ok? ==> |r.value.rest| + 56 * |r.value.value.waypoints| + |r.value.value.poi| <= |input|
    ensures r.Ok? ==> (r.value.value.plop == plop && r.value.value.finishAction == finish
      && r.value.value.pathMode == path && r.value.value.cruisingSpeed == cruising && r.value.value.maxSpeed == max)
  {
    var ws :- DecodeWaypoints(d, input);
    var pois :- DecodeShape(d, SeqOf(POINT_OF_INTEREST), ws.rest);
    assert forall k | 0 <= k < |pois.value.items| :: Conforms(pois.value.items[k], POINT_OF_INTEREST);
    PoiSeqConsumes(d, ws.rest);
    Ok(Read(MissionPartial(plop, finish, path, cruising, max, b, ws.value, PoiList(pois.value.items)), pois.rest))
  }

  /** A sequence of fixed records of at least one byte takes a byte per record. */
  lemma {:induction false} FixedRepeatConsumes(d: Dialect, e: Shape, count: nat, input: seq<byte>)
    requires Fixed(d, e) && 1 <= Width(e) && DecodeRepeat(d, e, count, input).Ok?
    ensures |DecodeRepeat(d, e, count, input).value.rest| + count <= |input|
  {
    if count > 0 {
      FixedShapeDecode(d, e, input);
      FixedRepeatConsumes(d, e, count - 1, DecodeShape(d, e, input).value.rest);
    }
  }

  lemma PoiSeqConsumes(d: Dialect, input: seq<byte>)
    requires DecodeShape(d, SeqOf(POINT_OF_INTEREST), input).Ok?
    ensures |DecodeShape(d, SeqOf(POINT_OF_INTEREST), input).value.rest|
            + |DecodeShape(d, SeqOf(POINT_OF_INTEREST), input).value.value.items| <= |input|
  {
    PointOfInterestWidth(d);
    var count := ReadU32(input);
    FixedRepeatConsumes(d, POINT_OF_INTEREST, count.value.value, count.value.rest);
  }

  /** `next_element::<LitchiMissionPartial>()` on the mission's SeqVisitor. */
  function NextHeader(d: Dialect, acc: Access): (r: Outcome<Step<Option<MissionPartial>>>)
    ensures acc.size == 0 ==> r == Ok(Step(None, acc))
    ensures acc.size > 0 ==> (r.Ok? <==> DecodeHeader(d, acc.input).Ok?)
    ensures acc.size > 0 && r.Ok? ==>
      && r.value.value == Some(DecodeHeader(d, acc.input).value.value)
      && r.value.acc == Access(acc.size - 1, DecodeHeader(d, acc.input).value.rest)
    ensures acc.size > 0 && r.Err? ==> r.error == DecodeHeader(d, acc.input).error
  {
    match Claim(acc)
    case None => Ok(Step(None, acc))
    case Some(a) =>
      var h :- DecodeHeader(d, a.input);
      Ok(Step(Some(h.value), Access(a.size, h.rest)))
  }

  /** `for i in i..n` over the mission's SeqVisitor: one element of shape `s` per index;
      a None is an `invalid_length` error carrying the index. */
  function Pass(d: Dialect, acc: Access, s: Shape, expected: string, i: nat, n: nat): (r: Outcome<Step<seq<Value>>>)
    ensures r.Ok? && i <= n ==> |r.value.value| == n - i
    ensures r.Ok? ==> forall k | 0 <= k < |r.value.value| :: Conforms(r.value.value[k], s)
    decreases n - i
  {
    if i >= n then Ok(Step([], acc))
    else
      var next :- NextValue(d, acc, s);
      if next.value.None? then Err(Custom(InvalidLength(i, expected)))
      else
        var more :- Pass(d, next.acc, s, expected, i + 1, n);
        Ok(Step([next.value.value] + more.value, more.acc))
  }

  /** `MissionVisitor::visit_seq` on an access state. */
  function VisitMission(d: Dialect, acc: Access): (r: Outcome<Step<Mission>>)
    ensures acc.size == 0 ==> r == Err(Custom(MissingField("magic")))
    ensures acc.size > 0 && |acc.input| < 4 ==> r == Err(Truncated(4, |acc.input|))
    ensures acc.size > 0 && 4 <= |acc.input| && BeValue(acc.input[..4]) != MAGIC ==>
              r == Err(Custom(InvalidValue(BeValue(acc.input[..4]), LCHM)))
    ensures acc.size == 1 && 4 <= |acc.input| && BeValue(acc.input[..4]) == MAGIC ==>
              r == Err(Custom(Message("failed to deserialize mission?")))
    ensures r.Ok? ==> 2 <= acc.size && 4 <= |acc.input| && BeValue(acc.input[..4]) == MAGIC
    ensures r.Ok? ==> DecodeHeader(d, acc.input[4..]).Ok?
                      && KeepsHeader(DecodeHeader(d, acc.input[4..]).value.value, r.value.value)
  {
    var magic :- NextValue(d, acc, Prim(U32));
    if magic.value.None? then Err(Custom(MissingField("magic")))
    else if magic.value.value.n != MAGIC then Err(Custom(InvalidValue(magic.value.value.n, LCHM)))
    else
      var header :- NextHeader(d, magic.acc);
      if header.value.None? then Err(Custom(Message("failed to deserialize mission?")))
      else
        VisitBody(d, header.value.value, header.acc)
  }

  /** The rest of `visit_seq` once the header is known: one detail record per waypoint
      and one per point of interest, then the tail. */
  function VisitBody(d: Dialect, part: MissionPartial, acc: Access): (r: Outcome<Step<Mission>>)
    ensures r.Ok? ==> KeepsHeader(part, r.value.value)
  {
    var details :- Pass(d, acc, WAYPOINT_DETAILS, "more waypoint details", 0, |part.waypoints|);
    var poiDetails :- Pass(d, details.acc, POI_DETAILS, "more poi details", 0, |part.poi|);
    VisitTail(d, part, DetailsList(details.value), poiDetails.acc)
  }

  /** The settings record, one interval per waypoint, and the assembly of the mission. */
  function VisitTail(d: Dialect, part: MissionPartial, details: seq<WaypointDetails>, acc: Access): (r: Outcome<Step<Mission>>)
    ensures r.Ok? && |details| == |part.waypoints| ==> KeepsHeader(part, r.value.value)
  {
    var settings :- NextValue(d, acc, OTHER_SETTINGS);
    if settings.value.None? then Err(Custom(MissingField("other settings")))
    else
      var intervals :- Pass(d, settings.acc, INTERVAL, "more intervals", 0, |part.waypoints|);
      var mission := MissionOf(part, details, IntervalList(intervals.value));
      MissionAssembly(part, details, IntervalList(intervals.value));
      Ok(Step(mission, intervals.acc))
  }

  /** `LitchiMission::deserialize`: a tuple of `usize::MAX` elements. */
  function DecodeMission(d: Dialect, input: seq<byte>): (r: Outcome<Read<Mission>>)
    ensures |input| < 4 ==> r == Err(Truncated(4, |input|))
    ensures 4 <= |input| && BeValue(input[..4]) != MAGIC ==> r == Err(Custom(InvalidValue(BeValue(input[..4]), LCHM)))
    ensures r.Ok? ==> 4 <= |input| && BeValue(input[..4]) == MAGIC && DecodeHeader(d, input[4..]).Ok?
    ensures r.Ok? ==> KeepsHeader(DecodeHeader(d, input[4..]).value.value, r.value.value)
  {
    var st :- VisitMission(d, Access(TUPLE_MAX, input));
    Ok(Read(st.value, st.acc.input))
  }

  // ---------------------------------------------------------------------------
  // The file layout, as a plain sequence of records
  // ---------------------------------------------------------------------------

  /** The records after the header, read back to back with no element budget. */
  function LinearBody(d: Dialect, part: MissionPartial, input: seq<byte>): (r: Outcome<Read<Mission>>)
  {
    var details :- DecodeRepeat(d, WAYPOINT_DETAILS, |part.waypoints|, input);
    var poiDetails :- DecodeRepeat(d, POI_DETAILS, |part.poi|, details.rest);
    LinearTail(d, part, DetailsList(details.value), poiDetails.rest)
  }

  function LinearTail(d: Dialect, part: MissionPartial, details: seq<WaypointDetails>, input: seq<byte>): (r: Outcome<Read<Mission>>)
  {
    var settings :- DecodeShape(d, OTHER_SETTINGS, input);
    var intervals :- DecodeRepeat(d, INTERVAL, |part.waypoints|, settings.rest);
    Ok(Read(MissionOf(part, details, IntervalList(intervals.value)), intervals.rest))
  }

  /** The layout of a mission file: the magic number, the header, one detail record per
      waypoint, one per point of interest, the settings, one interval per waypoint. */
  function LinearMission(d: Dialect, input: seq<byte>): (r: Outcome<Read<Mission>>)
  {
    var magic :- ReadU32(input);
    if magic.value != MAGIC then Err(Custom(InvalidValue(magic.value, LCHM)))
    else
      var header :- DecodeHeader(d, magic.rest);
      LinearBody(d, header.value, header.rest)
  }

  // ---------------------------------------------------------------------------
  // Properties of the decoder
  // ---------------------------------------------------------------------------

  /** Fewer than four bytes: the magic number itself is a short read. */
  lemma ShortInputRejected(d: Dialect, input: seq<byte>)
    requires |input| < 4
    ensures DecodeMission(d, input) == Err(Truncated(4, |input|))
  {
  }

  /** A file that does not start with the magic number is refused with an
      `invalid_value` error naming the value read, whatever follows it. */
  lemma BadMagicRejected(d: Dialect, x: u32, t: seq<byte>)
    requires x != MAGIC
    ensures DecodeMission(d, BeBytes(x, 4) + t) == Err(Custom(InvalidValue(x, LCHM)))
  {
    ReadU32Written(x, t);
  }

  /** In the source dialect both detail records fail on their first field. */
  lemma DetailsRefused(input: seq<byte>)
    ensures DecodeShape(AsWritten, WAYPOINT_DETAILS, input) == Err(UnsupportedValue)
    ensures DecodeShape(AsWritten, POI_DETAILS, input) == Err(UnsupportedValue)
  {
  }

  /** A pass whose first element fails fails with that element's error. */
  lemma PassFirstFails(d: Dialect, acc: Access, s: Shape, expected: string, i: nat, n: nat)
    requires i < n && acc.size > 0 && DecodeShape(d, s, acc.input).Err?
    ensures Pass(d, acc, s, expected, i, n) == Err(DecodeShape(d, s, acc.input).error)
  {
  }

  /** As written, a mission decodes only when it has no waypoint and no point of
      interest: the first detail record already fails with UnsupportedValue. */
  lemma AsWrittenOnlyEmpty(input: seq<byte>)
    ensures DecodeMission(AsWritten, input).Ok? ==>
              DecodeMission(AsWritten, input).value.value.waypoints == []
              && DecodeMission(AsWritten, input).value.value.poi == []
  {
    var d := AsWritten;
    var magic := NextValue(d, Access(TUPLE_MAX, input), Prim(U32));
    if magic.Ok? && magic.value.value.Some? && magic.value.value.value.n == MAGIC {
      var header := NextHeader(d, magic.value.acc);
      if header.Ok? && header.value.value.Some? {
        var part := header.value.value.value;
        var acc := header.value.acc;
        if |part.waypoints| > 0 {
          DetailsRefused(acc.input);
          PassFirstFails(d, acc, WAYPOINT_DETAILS, "more waypoint details", 0, |part.waypoints|);
        } else if |part.poi| > 0 {
          DetailsRefused(acc.input);
          PassFirstFails(d, acc, POI_DETAILS, "more poi details", 0, |part.poi|);
        }
      }
    }
  }

  /** A visitor outcome built from a plain sequence decode, with `size` elements left. */
  function Lift<T>(r: Outcome<Read<T>>, size: nat): (l: Outcome<Step<T>>)
    ensures l.Ok? <==> r.Ok?
    ensures l.Ok? ==> l.value.value == r.value.value && l.value.acc == Access(size, r.value.rest)
    ensures l.Err? ==> l.error == r.error
  {
    match r
    case Ok(rd) => Ok(Step(rd.value, Access(size, rd.rest)))
    case Err(e) => Err(e)
  }

  /** While the visitor has enough elements left, a pass of `count` elements reads
      exactly what a plain sequence of `count` elements would, and leaves `left` of the
      budget: the budget plays no part. */
  lemma {:induction false} PassIsRepeat(d: Dialect, acc: Access, s: Shape, expected: string, i: nat, n: nat, count: nat, left: nat)
    requires i + count == n && left + count == acc.size
    ensures Pass(d, acc, s, expected, i, n) == Lift(DecodeRepeat(d, s, count, acc.input), left)
    decreases count, 1
  {
    if count > 0 {
      PassIsRepeatMore(d, acc, s, expected, i, n, count, left);
    } else {
      PassIsRepeatEnd(d, acc, s, expected, i, n, left);
    }
  }

  lemma {:induction false} PassIsRepeatMore(d: Dialect, acc: Access, s: Shape, expected: string, i: nat, n: nat, count: nat, left: nat)
    requires i + count == n && left + count == acc.size && count > 0
    ensures Pass(d, acc, s, expected, i, n) == Lift(DecodeRepeat(d, s, count, acc.input), left)
    decreases count, 0
  {
    var first := DecodeShape(d, s, acc.input);
    if first.Ok? {
      var after := Access(acc.size - 1, first.value.rest);
      PassIsRepeat(d, after, s, expected, i + 1, n, count - 1, left);
      PassIsRepeatStep(d, acc, s, expected, i, n, count, left, first.value.value, after);
    } else {
      PassIsRepeatFails(d, acc, s, expected, i, n, count, left);
    }
  }

  lemma PassIsRepeatFails(d: Dialect, acc: Access, s: Shape, expected: string, i: nat, n: nat, count: nat, left: nat)
    requires i + count == n && left + count == acc.size && count > 0
    requires DecodeShape(d, s, acc.input).Err?
    ensures Pass(d, acc, s, expected, i, n) == Lift(DecodeRepeat(d, s, count, acc.input), left)
  {
    PassFirstFails(d, acc, s, expected, i, n);
  }

  lemma PassIsRepeatEnd(d: Dialect, acc: Access, s: Shape, expected: string, i: nat, n: nat, left: nat)
    requires i == n && left == acc.size
    ensures Pass(d, acc, s, expected, i, n) == Lift(DecodeRepeat(d, s, 0, acc.input), left)
  {
  }

  lemma PassIsRepeatStep(d: Dialect, acc: Access, s: Shape, expected: string, i: nat, n: nat, count: nat, left: nat, x: Value, after: Access)
    requires i + count == n && left + count == acc.size && count > 0 && after.size + 1 == acc.size
    requires DecodeShape(d, s, acc.input) == Ok(Read(x, after.input))
    requires Pass(d, after, s, expected, i + 1, n) == Lift(DecodeRepeat(d, s, count - 1, after.input), left)
    ensures Pass(d, acc, s, expected, i, n) == Lift(DecodeRepeat(d, s, count, acc.input), left)
  {
    PassStep(d, acc, s, expected, i, n, x, after);
    RepeatStep(d, s, count, count - 1, acc.input, x, after.input);
    LiftCons(x, DecodeRepeat(d, s, count - 1, after.input), left);
  }

  /** One element handed out, the pass goes on from the next access state. */
  lemma PassStep(d: Dialect, acc: Access, s: Shape, expected: string, i: nat, n: nat, x: Value, after: Access)
    requires i < n && NextValue(d, acc, s) == Ok(Step(Some(x), after))
    ensures Pass(d, acc, s, expected, i, n) == PassCons(x, Pass(d, after, s, expected, i + 1, n))
  {
  }

  function PassCons(x: Value, r: Outcome<Step<seq<Value>>>): Outcome<Step<seq<Value>>> {
    match r
    case Ok(st) => Ok(Step([x] + st.value, st.acc))
    case Err(e) => Err(e)
  }

  /** One element read, the plain sequence goes on after it. */
  lemma RepeatStep(d: Dialect, s: Shape, count: nat, after: nat, input: seq<byte>, x: Value, rest: seq<byte>)
    requires after + 1 == count && DecodeShape(d, s, input) == Ok(Read(x, rest))
    ensures DecodeRepeat(d, s, count, input) == Prepend([x], DecodeRepeat(d, s, after, rest))
  {
  }

  lemma LiftCons(x: Value, r: Outcome<Read<seq<Value>>>, size: nat)
    ensures PassCons(x, Lift(r, size)) == Lift(Prepend([x], r), size)
  {
  }

  /** With enough elements left in the tuple, the body of the visitor reads the records
      back to back, as the layout says. */
  lemma BodyIsLinear(d: Dialect, part: MissionPartial, acc: Access, left: nat)
    requires left + 2 * |part.waypoints| + |part.poi| + 1 == acc.size
    ensures VisitBody(d, part, acc) == Lift(LinearBody(d, part, acc.input), left)
  {
    var n := |part.waypoints|;
    var l1 := left + n + |part.poi| + 1;
    PassIsRepeat(d, acc, WAYPOINT_DETAILS, "more waypoint details", 0, n, n, l1);
    var details := DecodeRepeat(d, WAYPOINT_DETAILS, n, acc.input);
    if details.Ok? {
      BodyAfterDetails(d, part, acc, left, details.value.value, Access(l1, details.value.rest));
    } else {
      assert LinearBody(d, part, acc.input) == Err(details.error);
      assert VisitBody(d, part, acc) == Err(details.error);
    }
  }

  lemma BodyAfterDetails(d: Dialect, part: MissionPartial, acc: Access, left: nat, vs: seq<Value>, a1: Access)
    requires a1.size == left + |part.waypoints| + |part.poi| + 1
    requires DecodeRepeat(d, WAYPOINT_DETAILS, |part.waypoints|, acc.input) == Ok(Read(vs, a1.input))
    requires Pass(d, acc, WAYPOINT_DETAILS, "more waypoint details", 0, |part.waypoints|) == Ok(Step(vs, a1))
    ensures VisitBody(d, part, acc) == Lift(LinearBody(d, part, acc.input), left)
  {
    var m := |part.poi|;
    var l2 := left + |part.waypoints| + 1;
    PassIsRepeat(d, a1, POI_DETAILS, "more poi details", 0, m, m, l2);
    var poiDetails := DecodeRepeat(d, POI_DETAILS, m, a1.input);
    if poiDetails.Ok? {
      var a2 := Access(l2, poiDetails.value.rest);
      assert Pass(d, a1, POI_DETAILS, "more poi details", 0, m) == Ok(Step(poiDetails.value.value, a2));
      var ds := DetailsList(vs);
      assert LinearBody(d, part, acc.input) == LinearTail(d, part, ds, a2.input);
      assert VisitBody(d, part, acc) == VisitTail(d, part, ds, a2);
      TailIsLinear(d, part, ds, a2, left);
    } else {
      assert LinearBody(d, part, acc.input) == Err(poiDetails.error);
      assert VisitBody(d, part, acc) == Err(poiDetails.error);
    }
  }

  lemma TailIsLinear(d: Dialect, part: MissionPartial, details: seq<WaypointDetails>, acc: Access, left: nat)
    requires left + |part.waypoints| + 1 == acc.size
    ensures VisitTail(d, part, details, acc) == Lift(LinearTail(d, part, details, acc.input), left)
  {
    var n := |part.waypoints|;
    var settings := DecodeShape(d, OTHER_SETTINGS, acc.input);
    if settings.Ok? {
      var a := Access(left + n, settings.value.rest);
      NextValueOk(d, acc, OTHER_SETTINGS, settings.value.value, a);
      PassIsRepeat(d, a, INTERVAL, "more intervals", 0, n, n, left);
      var intervals := DecodeRepeat(d, INTERVAL, n, a.input);
      if intervals.Ok? {
        assert Pass(d, a, INTERVAL, "more intervals", 0, n) == Ok(Step(intervals.value.value, Access(left, intervals.value.rest)));
        var mission := MissionOf(part, details, IntervalList(intervals.value.value));
        assert LinearTail(d, part, details, acc.input) == Ok(Read(mission, intervals.value.rest));
        assert VisitTail(d, part, details, acc) == Ok(Step(mission, Access(left, intervals.value.rest)));
      } else {
        assert LinearTail(d, part, details, acc.input) == Err(intervals.error);
        assert VisitTail(d, part, details, acc) == Err(intervals.error);
      }
    } else {
      assert LinearTail(d, part, details, acc.input) == Err(settings.error);
      assert VisitTail(d, part, details, acc) == Err(settings.error);
    }
  }

  lemma NextValueOk(d: Dialect, acc: Access, s: Shape, x: Value, after: Access)
    requires acc.size > 0 && after.size + 1 == acc.size && DecodeShape(d, s, acc.input) == Ok(Read(x, after.input))
    ensures NextValue(d, acc, s) == Ok(Step(Some(x), after))
  {
  }

  /** Any mission file under 4 GiB fits the `usize::MAX` element budget of its tuple, so
      decoding it reads the records exactly as the layout says. */
  lemma MissionIsLinear(d: Dialect, input: seq<byte>)
    requires |input| < 0x1_0000_0000
    ensures DecodeMission(d, input) == LinearMission(d, input)
  {
    var magic := ReadU32(input);
    var top := Access(TUPLE_MAX, input);
    if magic.Ok? {
      var a1 := Access(0xFFFF_FFFE, magic.value.rest);
      NextValueOk(d, top, Prim(U32), Unsigned(magic.value.value), a1);
      if magic.value.value == MAGIC {
        var header := DecodeHeader(d, magic.value.rest);
        if header.Ok? {
          MissionAfterHeader(d, input, magic.value.rest, header.value.value, header.value.rest);
        } else {
          assert VisitMission(d, top) == Err(header.error);
          assert LinearMission(d, input) == Err(header.error);
        }
      } else {
        assert VisitMission(d, top) == Err(Custom(InvalidValue(magic.value.value, LCHM)));
      }
    } else {
      assert VisitMission(d, top) == Err(magic.error);
    }
  }

  /** The magic number and the header read, the rest of the file fits the budget left. */
  lemma MissionAfterHeader(d: Dialect, input: seq<byte>, rest: seq<byte>, part: MissionPartial, hrest: seq<byte>)
    requires |input| < 0x1_0000_0000
    requires ReadU32(input) == Ok(Read(MAGIC, rest)) && DecodeHeader(d, rest) == Ok(Read(part, hrest))
    ensures DecodeMission(d, input) == LinearMission(d, input)
  {
    var top := Access(TUPLE_MAX, input);
    var a1 := Access(0xFFFF_FFFE, rest);
    NextValueOk(d, top, Prim(U32), Unsigned(MAGIC), a1);
    var a2 := Access(0xFFFF_FFFD, hrest);
    assert NextHeader(d, a1) == Ok(Step(Some(part), a2));
    var left: nat := 0xFFFF_FFFD - (2 * |part.waypoints| + |part.poi| + 1);
    BodyIsLinear(d, part, a2, left);
    assert VisitMission(d, top) == VisitBody(d, part, a2);
    assert LinearMission(d, input) == LinearBody(d, part, hrest);
  }

  /** A pass that outlives the tuple's budget fails with `invalid_length` naming the
      index of the first element it could not get, once the ones it got decoded. */
  lemma {:induction false} PassRunsOut(d: Dialect, acc: Access, s: Shape, expected: string, i: nat, n: nat)
    requires i + acc.size < n && DecodeRepeat(d, s, acc.size, acc.input).Ok?
    ensures Pass(d, acc, s, expected, i, n) == Err(Custom(InvalidLength(i + acc.size, expected)))
    decreases acc.size, 1
  {
    if acc.size > 0 {
      PassRunsOutMore(d, acc, s, expected, i, n, acc.size - 1);
    }
  }

  lemma {:induction false} PassRunsOutMore(d: Dialect, acc: Access, s: Shape, expected: string, i: nat, n: nat, k: nat)
    requires i + acc.size < n && k + 1 == acc.size && DecodeRepeat(d, s, acc.size, acc.input).Ok?
    ensures Pass(d, acc, s, expected, i, n) == Err(Custom(InvalidLength(i + acc.size, expected)))
    decreases acc.size, 0
  {
    var first := DecodeShape(d, s, acc.input);
    assert first.Ok?;
    var x, after := first.value.value, Access(k, first.value.rest);
    RepeatStep(d, s, acc.size, k, acc.input, x, after.input);
    NextValueOk(d, acc, s, x, after);
    PassStep(d, acc, s, expected, i, n, x, after);
    PassRunsOut(d, after, s, expected, i + 1, n);
  }

  // ---------------------------------------------------------------------------
  // The visitor, imperatively
  // ---------------------------------------------------------------------------

  /** The derived `Deserialize` of `LitchiMissionPartial`: its eight fields read one
      after the other from the cursor. */
  method DeserializeHeader(de: Deserializer) returns (r: Outcome<MissionPartial>)
    modifies de
    ensures Agrees(r, DecodeHeader(de.dialect, old(de.input)), de.input)
  {
    var plop :- de.ParseU32();
    var finish :- DeserializeFinishAction(de);
    var path :- DeserializePathMode(de);
    var cruising :- de.ParseFloat();
    var max :- de.ParseFloat();
    r := DeserializeHeaderLists(de, plop, finish, path, cruising, max);
  }

  method DeserializeHeaderLists(de: Deserializer, plop: u32, finish: FinishAction, path: PathMode,
                                cruising: F32, max: F32) returns (r: Outcome<MissionPartial>)
    modifies de
    ensures Agrees(r, DecodeHeaderLists(de.dialect, plop, finish, path, cruising, max, old(de.input)), de.input)
  {
    assert Realizable(PADDING);
    var b :- de.Deserialize(PADDING);
    r := DeserializeHeaderSeqs(de, plop, finish, path, cruising, max, PaddingOf(b));
  }

  method DeserializeHeaderSeqs(de: Deserializer, plop: u32, finish: FinishAction, path: PathMode,
                               cruising: F32, max: F32, b: seq<u32>) returns (r: Outcome<MissionPartial>)
    modifies de
    ensures Agrees(r, DecodeHeaderSeqs(de.dialect, plop, finish, path, cruising, max, b, old(de.input)), de.input)
  {
    PointOfInterestWidth(de.dialect);
    var ws :- DeserializeWaypoints(de);
    var pois :- de.Deserialize(SeqOf(POINT_OF_INTEREST));
    r := Ok(MissionPartial(plop, finish, path, cruising, max, b, ws, PoiList(pois.items)));
  }

  /** `next_element::<LitchiMissionPartial>()` on the mission's SeqVisitor. */
  method NextHeaderElement(sv: SeqVisitor) returns (r: Outcome<Option<MissionPartial>>)
    modifies sv, sv.de
    ensures AgreesStep(r, NextHeader(sv.de.dialect, Access(old(sv.size), old(sv.de.input))), sv.size, sv.de.input)
  {
    var has := sv.Claim();
    if !has {
      return Ok(None);
    }
    var h :- DeserializeHeader(sv.de);
    r := Ok(Some(h));
  }

  /** A `for i in 0..n` loop of `visit_seq`: one `next_element` of shape `s` per index,
      a None turned into `invalid_length(i, expected)`. */
  method RunPass(sv: SeqVisitor, s: Shape, expected: string, n: nat) returns (r: Outcome<seq<Value>>)
    requires Realizable(s)
    modifies sv, sv.de
    ensures AgreesStep(r, Pass(sv.de.dialect, Access(old(sv.size), old(sv.de.input)), s, expected, 0, n), sv.size, sv.de.input)
  {
    ghost var spec := Pass(sv.de.dialect, Access(sv.size, sv.de.input), s, expected, 0, n);
    PrependStepNothing(spec);
    var items := [];
    for i := 0 to n
      invariant spec == PrependStep(items, Pass(sv.de.dialect, Access(sv.size, sv.de.input), s, expected, i, n))
    {
      ghost var acc := Access(sv.size, sv.de.input);
      var next := sv.NextElement(s);
      if next.Err? {
        PassNextFails(sv.de.dialect, acc, s, expected, i, n);
        return Err(next.error);
      }
      if next.value.None? {
        return Err(Custom(InvalidLength(i, expected)));
      }
      var v := next.value.value;
      PassStep(sv.de.dialect, acc, s, expected, i, n, v, Access(sv.size, sv.de.input));
      PrependStepCons(items, v, Pass(sv.de.dialect, Access(sv.size, sv.de.input), s, expected, i + 1, n));
      items := items + [v];
    }
    assert items + [] == items;
    r := Ok(items);
  }

  lemma PassNextFails(d: Dialect, acc: Access, s: Shape, expected: string, i: nat, n: nat)
    requires i < n && NextValue(d, acc, s).Err?
    ensures Pass(d, acc, s, expected, i, n) == Err(NextValue(d, acc, s).error)
  {
  }

  lemma PrependStepCons(xs: seq<Value>, x: Value, r: Outcome<Step<seq<Value>>>)
    ensures PrependStep(xs, PassCons(x, r)) == PrependStep(xs + [x], r)
  {
    if r.Ok? {
      assert xs + ([x] + r.value.value) == (xs + [x]) + r.value.value;
    }
  }

  /** `MissionVisitor::visit_seq`: the magic number, then the header, then the body. */
  method VisitMissionSeq(sv: SeqVisitor) returns (r: Outcome<Mission>)
    modifies sv, sv.de
    ensures AgreesStep(r, VisitMission(sv.de.dialect, Access(old(sv.size), old(sv.de.input))), sv.size, sv.de.input)
  {
    var magic :- sv.NextElement(Prim(U32));
    if magic.None? {
      return Err(Custom(MissingField("magic")));
    }
    if magic.value.n != MAGIC {
      return Err(Custom(InvalidValue(magic.value.n, LCHM)));
    }
    var header :- NextHeaderElement(sv);
    if header.None? {
      return Err(Custom(Message("failed to deserialize mission?")));
    }
    r := VisitBodySeq(sv, header.value);
  }

  /** The detail records of the waypoints (kept) and of the points of interest (read
      and dropped), then the tail. */
  method VisitBodySeq(sv: SeqVisitor, part: MissionPartial) returns (r: Outcome<Mission>)
    modifies sv, sv.de
    ensures AgreesStep(r, VisitBody(sv.de.dialect, part, Access(old(sv.size), old(sv.de.input))), sv.size, sv.de.input)
  {
    var details :- RunPass(sv, WAYPOINT_DETAILS, "more waypoint details", |part.waypoints|);
    var _ :- RunPass(sv, POI_DETAILS, "more poi details", |part.poi|);
    r := VisitTailSeq(sv, part, DetailsList(details));
  }

  /** The settings record (dropped), one interval per waypoint, and the zip. */
  method VisitTailSeq(sv: SeqVisitor, part: MissionPartial, details: seq<WaypointDetails>) returns (r: Outcome<Mission>)
    modifies sv, sv.de
    ensures AgreesStep(r, VisitTail(sv.de.dialect, part, details, Access(old(sv.size), old(sv.de.input))), sv.size, sv.de.input)
  {
    var settings :- sv.NextElement(OTHER_SETTINGS);
    if settings.None? {
      return Err(Custom(MissingField("other settings")));
    }
    var intervals :- RunPass(sv, INTERVAL, "more intervals", |part.waypoints|);
    r := Ok(MissionOf(part, details, IntervalList(intervals)));
  }

  /** `LitchiMission::deserialize`: `deserialize_tuple(usize::MAX, MissionVisitor)`. */
  method DeserializeMission(de: Deserializer) returns (r: Outcome<Mission>)
    modifies de
    ensures Agrees(r, DecodeMission(de.dialect, old(de.input)), de.input)
  {
    var sv := new SeqVisitor(de, TUPLE_MAX);
    r := VisitMissionSeq(sv);
  }

  // ---------------------------------------------------------------------------
  // from_slice
  // ---------------------------------------------------------------------------

  /** What `from_slice` returns for a buffer: the mission decoded from its front.
      Bytes after the mission are not looked at. */
  function MissionFromBytes(d: Dialect, bytes: seq<byte>): (r: Outcome<Mission>)
    ensures r.Ok? ==> 4 <= |bytes| && BeValue(bytes[..4]) == MAGIC && DecodeHeader(d, bytes[4..]).Ok?
    ensures r.Ok? ==> KeepsHeader(DecodeHeader(d, bytes[4..]).value.value, r.value)
    ensures |bytes| < 0x1_0000_0000 ==> (r.Ok? <==> LinearMission(d, bytes).Ok?)
    ensures |bytes| < 0x1_0000_0000 && r.Ok? ==> r.value == LinearMission(d, bytes).value.value
    ensures |bytes| < 0x1_0000_0000 && r.Err? ==> r.error == LinearMission(d, bytes).error
  {
    match DecodeMission(d, bytes)
    case Ok(rd) =>
      if |bytes| < 0x1_0000_0000 then MissionIsLinear(d, bytes); Ok(rd.value) else Ok(rd.value)
    case Err(e) =>
      if |bytes| < 0x1_0000_0000 then MissionIsLinear(d, bytes); Err(e) else Err(e)
  }

  /** `from_slice`: a cursor over the whole buffer, then `LitchiMission::deserialize`. */
  method FromSlice(d: Dialect, bytes: seq<byte>) returns (r: Outcome<Mission>)
    ensures r == MissionFromBytes(d, bytes)
  {
    var de := new Deserializer.FromSlice(d, bytes);
    r := DeserializeMission(de);
  }
}

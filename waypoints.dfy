/**
 * Waypoint records of the binary mission format (src/litchi/bin/waypoint.rs).
 *
 * A waypoint is a tuple read through its own SeqVisitor: a fixed 56-byte WaypointRaw
 * record, then `nb_actions` (code, value) pairs, each mapped through the action table.
 * `WaypointPartial::deserialize` asks for a tuple of `usize::MAX` elements, which the
 * deserializer turns into a SeqVisitor of size 0xFFFFFFFF; the budget is threaded
 * through the functions exactly as the visitor sees it.
 */
module Waypoints {

  import opened Wrappers
  import opened Wire
  import opened BinError
  import opened BinDeserializer
  import opened BinTypes
  import opened Litchi

  /** The size of the SeqVisitor that `deserialize_tuple(usize::MAX, ..)` creates. */
  const TUPLE_MAX: u32 := 0xFFFF_FFFF

  datatype WaypointRaw = WaypointRaw(
    altitude: F32, pad1: u32, heading: F32, pad2: u32, pad3: u32,
    latitude: F64, longitude: F64, curveSize: F32, pad4: u32,
    gimbalPitch: i32, nbActions: u32, trash: u32)

  datatype WaypointPartial = WaypointPartial(
    altitude: F32, heading: F32, latitude: F64, longitude: F64, curveSize: F32,
    gimbalPitch: i32, actions: seq<Action>)

  /** The assembled waypoint of a mission. The source copies a `gimbal` field that
      WaypointPartial does not have (mission.rs:127); the model carries `gimbal_pitch`. */
  datatype Waypoint = Waypoint(
    altitude: F32, heading: F32, latitude: F64, longitude: F64, curveSize: F32,
    gimbalPitch: i32, poi: Option<u32>, interval: Option<PhotoInterval>, actions: seq<Action>)

  const WAYPOINT_RAW: Shape := StructOf("WaypointRaw", [
    Prim(Float), Prim(U32), Prim(Float), Prim(U32), Prim(U32),
    Prim(Double), Prim(Double), Prim(Float), Prim(U32),
    Prim(I32), Prim(U32), Prim(U32)])

  const ACTION_PAIR: Shape := TupleOf([Prim(U32), Prim(U32)])

  /** The raw record is twelve fixed fields, 56 bytes in all. */
  lemma WaypointRawFixed(d: Dialect)
    ensures Fixed(d, WAYPOINT_RAW) && Realizable(WAYPOINT_RAW)
  {
  }

  lemma WaypointRawWidth()
    ensures Width(WAYPOINT_RAW) == 56
  {
  }

  /** An action pair is two u32, 8 bytes. */
  lemma ActionPairWidth(d: Dialect)
    ensures Fixed(d, ACTION_PAIR) && Width(ACTION_PAIR) == 8
    ensures Realizable(ACTION_PAIR)
  {
  }

  /** The raw record a conforming value holds: its twelve fields in declaration order. */
  function RawOf(v: Value): (w: WaypointRaw)
    requires Conforms(v, WAYPOINT_RAW)
    ensures v == Items([Float32(w.altitude), Unsigned(w.pad1), Float32(w.heading), Unsigned(w.pad2),
                        Unsigned(w.pad3), Float64(w.latitude), Float64(w.longitude), Float32(w.curveSize),
                        Unsigned(w.pad4), Signed(w.gimbalPitch), Unsigned(w.nbActions), Unsigned(w.trash)])
  {
    var f := v.items;
    RawItems(v);
    WaypointRaw(f[0].f, f[1].n, f[2].f, f[3].n, f[4].n, f[5].d, f[6].d, f[7].f, f[8].n,
                f[9].i, f[10].n, f[11].n)
  }

  predicate U32Item(v: Value) {
    v.Unsigned? && v.n < 0x1_0000_0000
  }

  /** The twelve fields of a conforming raw record, each of its declared kind. */
  lemma RawItems(v: Value)
    requires Conforms(v, WAYPOINT_RAW)
    ensures v.Items? && |v.items| == 12
    ensures v.items[0].Float32? && v.items[2].Float32? && v.items[7].Float32?
    ensures v.items[5].Float64? && v.items[6].Float64? && v.items[9].Signed? && -0x8000_0000 <= v.items[9].i < 0x8000_0000
    ensures U32Item(v.items[1]) && U32Item(v.items[3]) && U32Item(v.items[4])
    ensures U32Item(v.items[8]) && U32Item(v.items[10]) && U32Item(v.items[11])
  {
    var f := v.items;
    assert Conforms(f[0], Prim(Float)) && Conforms(f[1], Prim(U32)) && Conforms(f[2], Prim(Float))
      && Conforms(f[3], Prim(U32)) && Conforms(f[4], Prim(U32)) && Conforms(f[5], Prim(Double))
      && Conforms(f[6], Prim(Double)) && Conforms(f[7], Prim(Float)) && Conforms(f[8], Prim(U32))
      && Conforms(f[9], Prim(I32)) && Conforms(f[10], Prim(U32)) && Conforms(f[11], Prim(U32));
  }

  /** The value a raw record is read from: the inverse of RawOf. */
  function RawValue(w: WaypointRaw): (v: Value)
    ensures Conforms(v, WAYPOINT_RAW) && RawOf(v) == w
  {
    Items([Float32(w.altitude), Unsigned(w.pad1), Float32(w.heading), Unsigned(w.pad2),
           Unsigned(w.pad3), Float64(w.latitude), Float64(w.longitude), Float32(w.curveSize),
           Unsigned(w.pad4), Signed(w.gimbalPitch), Unsigned(w.nbActions), Unsigned(w.trash)])
  }

  /** The (code, value) pair a conforming value holds. */
  function PairOf(v: Value): (p: (u32, u32))
    requires Conforms(v, ACTION_PAIR)
    ensures v == Items([Unsigned(p.0), Unsigned(p.1)])
  {
    assert Conforms(v.items[0], Prim(U32)) && Conforms(v.items[1], Prim(U32));
    (v.items[0].n, v.items[1].n)
  }

  /** The action code of each kind of action. */
  function ActionKind(a: Action): u32 {
    match a
    case StayFor(_) => 0
    case TakePhoto => 1
    case StartRecording => 2
    case StopRecording => 3
    case RotateAircraft(_) => 4
    case TiltCamera(_) => 5
  }

  /** The action table of the waypoint visitor. An unknown code, where the source
      panics, is an UnknownAction error carrying the pair. */
  function ActionOf(code: u32, value: u32): (r: Outcome<Action>)
    ensures r.Ok? <==> code <= 5
    ensures r.Err? ==> r.error == UnknownAction(code, value)
    ensures r.Ok? ==> ActionKind(r.value) == code
    ensures r.Ok? && r.value.StayFor? ==> r.value.ms == value
    ensures r.Ok? && r.value.RotateAircraft? ==> r.value.rotation == value % 0x1_0000
    ensures r.Ok? && r.value.TiltCamera? ==> r.value.tilt % 0x1_0000 == value % 0x1_0000
  {
    if code == 0 then Ok(StayFor(value as usize))
    else if code == 1 then Ok(TakePhoto)
    else if code == 2 then Ok(StartRecording)
    else if code == 3 then Ok(StopRecording)
    else if code == 4 then Ok(RotateAircraft(WrapU16(value)))
    else if code == 5 then Ok(TiltCamera(WrapI16(value)))
    else Err(UnknownAction(code, value))
  }

  /** Actions that a (code, value) pair can carry: a StayFor delay fits in a u32. */
  predicate ActionEncodable(a: Action) {
    a.StayFor? ==> a.ms < 0x1_0000_0000
  }

  /** The pair an action is written as: the inverse of ActionOf. */
  function ActionPair(a: Action): (u32, u32)
    requires ActionEncodable(a)
  {
    match a
    case StayFor(ms) => (0, ms)
    case TakePhoto => (1, 0)
    case StartRecording => (2, 0)
    case StopRecording => (3, 0)
    case RotateAircraft(angle) => (4, angle)
    case TiltCamera(angle) => (5, angle % 0x1_0000)
  }

  lemma ActionRoundTrip(a: Action)
    requires ActionEncodable(a)
    ensures ActionOf(ActionPair(a).0, ActionPair(a).1) == Ok(a)
  {
  }

  /** `for i in i..n`: the (code, value) pairs of one waypoint, each element fetched
      through the waypoint's SeqVisitor and then mapped through the action table. */
  function ActionPass(d: Dialect, acc: Access, i: nat, n: nat): (r: Outcome<Step<seq<Action>>>)
    ensures r.Ok? && i <= n ==> |r.value.value| == n - i
    ensures r.Ok? ==> |r.value.acc.input| <= |acc.input|
    ensures r.Ok? && i <= n ==> |r.value.acc.input| + 8 * (n - i) == |acc.input|
    decreases n - i
  {
    if i >= n then Ok(Step([], acc))
    else
      ActionPairWidth(d);
      FixedShapeDecode(d, ACTION_PAIR, acc.input);
      var next :- NextValue(d, acc, ACTION_PAIR);
      if next.value.None? then Err(Custom(InvalidLength(i, "more actions")))
      else
        var pair := PairOf(next.value.value);
        var action :- ActionOf(pair.0, pair.1);
        var more :- ActionPass(d, next.acc, i + 1, n);
        Ok(Step([action] + more.value, more.acc))
  }

  /** The partial waypoint keeps the flight fields of the raw record and drops its
      padding, `nb_actions` and the trailing word. */
  function PartialOf(w: WaypointRaw, actions: seq<Action>): (p: WaypointPartial)
    ensures p.altitude == w.altitude && p.heading == w.heading
    ensures p.latitude == w.latitude && p.longitude == w.longitude
    ensures p.curveSize == w.curveSize && p.gimbalPitch == w.gimbalPitch && p.actions == actions
  {
    WaypointPartial(w.altitude, w.heading, w.latitude, w.longitude, w.curveSize, w.gimbalPitch, actions)
  }

  /** `WaypointVisitor::visit_seq` on an access state. */
  function VisitWaypoint(d: Dialect, acc: Access): (r: Outcome<Step<WaypointPartial>>)
    ensures r.Ok? ==> |r.value.acc.input| + 56 + 8 * |r.value.value.actions| == |acc.input|
  {
    var raw :- NextValue(d, acc, WAYPOINT_RAW);
    if raw.value.None? then Err(Custom(MissingField("waypoint")))
    else
      var w := RawOf(raw.value.value);
      var actions :- ActionPass(d, raw.acc, 0, w.nbActions);
      WaypointRawFixed(d);
      WaypointRawWidth();
      FixedShapeDecode(d, WAYPOINT_RAW, acc.input);
      Ok(Step(PartialOf(w, actions.value), actions.acc))
  }

  /** `WaypointPartial::deserialize`. */
  function DecodeWaypoint(d: Dialect, input: seq<byte>): (r: Outcome<Read<WaypointPartial>>)
    ensures r.Ok? ==> |r.value.rest| + 56 + 8 * |r.value.value.actions| == |input|
  {
    var st :- VisitWaypoint(d, Access(TUPLE_MAX, input));
    Ok(Read(st.value, st.acc.input))
  }

  /** `count` waypoints in a row: the body of a `Vec<WaypointPartial>`. */
  function WaypointRepeat(d: Dialect, count: nat, input: seq<byte>): (r: Outcome<Read<seq<WaypointPartial>>>)
    ensures r.Ok? ==> |r.value.value| == count && |r.value.rest| + 56 * count <= |input|
  {
    if count == 0 then Ok(Read([], input))
    else
      var first :- DecodeWaypoint(d, input);
      var others :- WaypointRepeat(d, count - 1, first.rest);
      Ok(Read([first.value] + others.value, others.rest))
  }

  /** A waypoint decoded from the front is the first of `count` in a row. */
  lemma WaypointRepeatStep(d: Dialect, after: nat, input: seq<byte>, w: WaypointPartial, rest: seq<byte>)
    requires DecodeWaypoint(d, input) == Ok(Read(w, rest))
    ensures WaypointRepeat(d, after + 1, input) == Prepend([w], WaypointRepeat(d, after, rest))
  {
  }

  lemma WaypointLoopStep(d: Dialect, spec: Outcome<Read<seq<WaypointPartial>>>, ws: seq<WaypointPartial>,
                         ws': seq<WaypointPartial>, left: nat, after: nat, input: seq<byte>,
                         w: WaypointPartial, rest: seq<byte>)
    requires after + 1 == left && ws' == ws + [w] && DecodeWaypoint(d, input) == Ok(Read(w, rest))
    requires spec == Prepend(ws, WaypointRepeat(d, left, input))
    ensures spec == Prepend(ws', WaypointRepeat(d, after, rest))
  {
    WaypointRepeatStep(d, after, input, w, rest);
    PrependPrepend(ws, [w], WaypointRepeat(d, after, rest));
  }

  lemma WaypointRepeatFails(d: Dialect, count: nat, input: seq<byte>)
    requires count > 0 && DecodeWaypoint(d, input).Err?
    ensures WaypointRepeat(d, count, input) == Err(DecodeWaypoint(d, input).error)
  {
  }

  /** `Vec<WaypointPartial>::deserialize`: the four-byte count, then that many waypoints. */
  function DecodeWaypoints(d: Dialect, input: seq<byte>): (r: Outcome<Read<seq<WaypointPartial>>>)
    ensures r.Ok? ==> 4 <= |input| && |r.value.value| == BeValue(input[..4])
  {
    var count :- ReadU32(input);
    WaypointRepeat(d, count.value, count.rest)
  }

  lemma DecodeWaypointsCount(d: Dialect, input: seq<byte>, count: u32, rest: seq<byte>)
    requires ReadU32(input) == Ok(Read(count, rest))
    ensures DecodeWaypoints(d, input) == WaypointRepeat(d, count, rest)
  {
  }

  // ---------------------------------------------------------------------------
  // The visitor, imperatively
  // ---------------------------------------------------------------------------

  /** `WaypointVisitor::visit_seq`: the raw record, then a `for` loop pushing one
      action per pair. */
  method VisitWaypointSeq(sv: SeqVisitor) returns (r: Outcome<WaypointPartial>)
    modifies sv, sv.de
    ensures AgreesStep(r, VisitWaypoint(sv.de.dialect, Access(old(sv.size), old(sv.de.input))), sv.size, sv.de.input)
  {
    WaypointRawFixed(sv.de.dialect);
    var raw := sv.NextElement(WAYPOINT_RAW);
    if raw.Err? {
      return Err(raw.error);
    }
    if raw.value.None? {
      return Err(Custom(MissingField("waypoint")));
    }
    var wpRaw := RawOf(raw.value.value);
    var actions :- VisitActions(sv, wpRaw.nbActions);
    r := Ok(PartialOf(wpRaw, actions));
  }

  /** The `for i in 0..nb_actions` loop of the waypoint visitor. */
  method VisitActions(sv: SeqVisitor, n: u32) returns (r: Outcome<seq<Action>>)
    modifies sv, sv.de
    ensures AgreesStep(r, ActionPass(sv.de.dialect, Access(old(sv.size), old(sv.de.input)), 0, n), sv.size, sv.de.input)
  {
    ActionPairWidth(sv.de.dialect);
    ghost var spec := ActionPass(sv.de.dialect, Access(sv.size, sv.de.input), 0, n);
    PrependStepNothing(spec);
    var actions := [];
    for i := 0 to n
      invariant spec == PrependStep(actions, ActionPass(sv.de.dialect, Access(sv.size, sv.de.input), i, n))
    {
      var pair := sv.NextElement(ACTION_PAIR);
      if pair.Err? {
        return Err(pair.error);
      }
      if pair.value.None? {
        return Err(Custom(InvalidLength(i, "more actions")));
      }
      var (code, value) := PairOf(pair.value.value);
      var action :- ActionOf(code, value);
      PrependStepPrepend(actions, [action], ActionPass(sv.de.dialect, Access(sv.size, sv.de.input), i + 1, n));
      actions := actions + [action];
    }
    assert actions + [] == actions;
    r := Ok(actions);
  }

  /** `WaypointPartial::deserialize`: a tuple visitor of size `usize::MAX as u32`. */
  method DeserializeWaypoint(de: Deserializer) returns (r: Outcome<WaypointPartial>)
    modifies de
    ensures Agrees(r, DecodeWaypoint(de.dialect, old(de.input)), de.input)
  {
    var sv := new SeqVisitor(de, TUPLE_MAX);
    r := VisitWaypointSeq(sv);
  }

  /** `next_element::<WaypointPartial>()` on an enclosing SeqVisitor: None without
      reading once the visitor is exhausted, otherwise one waypoint and one fewer to go. */
  method NextWaypointElement(sv: SeqVisitor) returns (r: Outcome<Option<WaypointPartial>>)
    modifies sv, sv.de
    ensures old(sv.size) == 0 ==> r == Ok(None) && sv.size == 0 && sv.de.input == old(sv.de.input)
    ensures old(sv.size) > 0 ==> sv.size == old(sv.size) - 1
    ensures old(sv.size) > 0 ==> AgreesSome(r, DecodeWaypoint(sv.de.dialect, old(sv.de.input)), sv.de.input)
  {
    var has := sv.Claim();
    if !has {
      return Ok(None);
    }
    var w :- DeserializeWaypoint(sv.de);
    r := Ok(Some(w));
  }

  /** One turn of the `Vec` visitor's loop: the next element, pushed when present. */
  method PushNextWaypoint(sv: SeqVisitor, ws: seq<WaypointPartial>, ghost spec: Outcome<Read<seq<WaypointPartial>>>)
    returns (next: Outcome<Option<WaypointPartial>>, ws': seq<WaypointPartial>)
    requires spec == Prepend(ws, WaypointRepeat(sv.de.dialect, sv.size, sv.de.input))
    modifies sv, sv.de
    ensures next.Err? ==> spec == Err(next.error)
    ensures next == Ok(None) ==> spec == Ok(Read(ws', sv.de.input))
    ensures next.Ok? && next.value.Some? ==> ws' == ws + [next.value.value] && sv.size < old(sv.size)
    ensures next.Ok? && next.value.Some? ==> spec == Prepend(ws', WaypointRepeat(sv.de.dialect, sv.size, sv.de.input))
  {
    ghost var left: nat := sv.size;
    ghost var input := sv.de.input;
    next := NextWaypointElement(sv);
    ws' := ws;
    if next.Err? {
      WaypointRepeatFails(sv.de.dialect, left, input);
      return;
    }
    match next.value
    case None =>
      assert ws + [] == ws;
    case Some(w) =>
      ws' := ws + [w];
      WaypointLoopStep(sv.de.dialect, spec, ws, ws', left, sv.size, input, w, sv.de.input);
  }

  /** `Vec<WaypointPartial>::deserialize`: the count, a SeqVisitor of that size, and
      the `Vec` visitor pulling waypoints until None. */
  method DeserializeWaypoints(de: Deserializer) returns (r: Outcome<seq<WaypointPartial>>)
    modifies de
    ensures Agrees(r, DecodeWaypoints(de.dialect, old(de.input)), de.input)
  {
    ghost var input := de.input;
    var count :- de.ParseU32();
    DecodeWaypointsCount(de.dialect, input, count, de.input);
    var sv := new SeqVisitor(de, count);
    ghost var spec := WaypointRepeat(de.dialect, count, de.input);
    PrependNothing(spec);
    var ws := [];
    while true
      invariant spec == Prepend(ws, WaypointRepeat(sv.de.dialect, sv.size, sv.de.input))
      decreases sv.size
    {
      var next;
      next, ws := PushNextWaypoint(sv, ws, spec);
      if next.Err? {
        return Err(next.error);
      }
      if next.value.None? {
        return Ok(ws);
      }
    }
  }
}

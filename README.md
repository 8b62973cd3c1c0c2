# litchi2fp — a verified model of the Litchi mission reader

litchi2fp converts Litchi drone missions into Parrot FreeFlight flight plans. This
project models its core in Dafny:

- the binary reader of Litchi `.bin` mission files;
- the pure translators around that reader: the CSV column helpers, the Litchi to
  FlightPlan action mapping, and the structural part of the mission to flight plan
  conversion.

The model is in the repository's own terms:

- **Cursor.** A `Deserializer` holds the bytes left to read. A `SeqVisitor` hands out at
  most `size` elements.
- **Mission file.** It is one tuple of `usize::MAX` elements:
  - the magic number `lchm`;
  - a header, which carries the waypoint and point-of-interest sequences;
  - one detail record per waypoint, then one per point of interest;
  - a settings record;
  - one photo-interval pair per waypoint.
- **Waypoint.** Each waypoint is a 56-byte raw record followed by `nb_actions`
  (code, value) pairs.

| file | module | what it holds |
|---|---|---|
| wrappers.dfy | Wrappers | `Option` and `Result` |
| wire.dfy | Wire | fixed-width integer types, big-endian bytes, Rust's integer `as` casts, opaque `f32`/`f64` bit patterns |
| bin_error.dfy | BinError | the decoder's error, with the serde messages kept as structured reasons |
| bin_deserializer.dfy | BinDeserializer | the decoding requests (`Shape`) and their meaning as pure functions; the `Deserializer` and `SeqVisitor` classes, proved to follow those functions |
| bin_encoder.dfy | BinEncoder | a writer for every fixed shape, with a round trip and a re-encoding lemma in both directions |
| bin_types.dfy | BinTypes | `MAGIC`, the `FinishAction`/`PathMode` enums, the point-of-interest record |
| litchi.dfy | Litchi | the shared Litchi `Action` |
| waypoints.dfy | Waypoints | the raw waypoint record, the action table, the waypoint visitor (function and loop) |
| missions.dfy | Missions | the header, the mission visitor (functions and loops), the zip assembly, `from_tuple`, `from_slice`, and the theorem that the bounded visitor reads the linear file layout |
| mission_encoder.dfy | MissionEncoder | writers and round trips for waypoints, the header and its sequences |
| prefix_reads.dfy | PrefixReads | the decoders read front to back: more bytes after an input change only what is left over, and a cut-off layout is a short read |
| mission_file.dfy | MissionFiles | a whole mission file, with its round trip through `from_slice` |
| csv_helpers.dfy | CsvHelpers | the `TryFrom` conversions of the CSV helper columns |
| plan_model.dfy | PlanModel | the FlightPlan records, the `FlightPlan` class with `new`, and the `Action` mapping |
| from_bin.dfy | FromBin | `TryFrom<&LitchiMission> for FlightPlan` and the waypoint mapping |
| flightplan.dfy | FlightPlans | `from_csv` and `from_bin`, which title a successful result in place |

The source has no writer for the binary format. The encoder modules give each decoder
a partner: for every value the format can carry, decoding its encoding gives back that
value and leaves the trailing bytes untouched. For fixed shapes the converse also holds:
decoded bytes re-encode to exactly the bytes consumed.

Two facts about the header and the magic number:

- **Header fields.** `LitchiMissionPartial` (src/litchi/bin/mission.rs:18-31) declares
  eight fields: `_plop`, the finish action, the path mode, two speeds,
  `_b: [u32; 4]`, the waypoints and the POIs. The model reads exactly these.
- **Bad magic.** A wrong magic number gives `Custom(invalid_value ..)`
  (src/litchi/bin/mission.rs:74-79), never `BadMagic`. The model never produces
  `BadMagic`.

Other modelling choices:

- A wrong discriminant of `FinishAction` or `PathMode` is a `Custom` error that names
  the value and the allowed discriminants.
- Where the source panics, the model returns an explicit error:
  - `Truncated` for a read past the end of the input (`split_at`);
  - `UnknownAction` for an action code above 5 (`panic!` in the waypoint visitor).
- mission.rs:127 copies a field `gimbal` that `WaypointPartial` does not have. The
  model carries `gimbal_pitch`.
- **The `u16` detail fields.** The decoder's dialect is a parameter, so both readings
  are modelled:
  - `AsWritten` refuses `u16`, as the source does;
  - `WithU16` reads `u16` as two big-endian bytes, as the record declarations require.

  See "## Findings".

## Model

| member | source | states |
|---|---|---|
| Wire.BeValueOfBytes | src/litchi/bin/deserializer.rs:24 | reading back the big-endian bytes of `n` gives `n` |
| Wire.BeBytesOfValue | src/litchi/bin/deserializer.rs:24 | writing the big-endian value of any byte string gives that byte string back |
| Wire.I32Of | src/litchi/bin/deserializer.rs:76-81 | the i32 read from four bytes is the two's-complement reading of their u32: equal modulo 2^32, negative exactly when the top bit is set |
| Wire.U32OfI32 | src/litchi/bin/deserializer.rs:76-81 | every i32 is the two's-complement reading of some u32 |
| Wire.WrapU16 | src/litchi/bin/waypoint.rs:83 | `as u16` keeps the value modulo 2^16, and a value already in range is unchanged |
| Wire.WrapI16 | src/litchi/bin/waypoint.rs:86 | `as i16` is congruent modulo 2^16 and is the identity on the i16 range |
| Wire.WrapI8 | src/flightplan/mod.rs:166-175 | `as i8` is congruent modulo 2^8 and is the identity on the i8 range |
| Wire.WrapU8 | src/flightplan/from_bin.rs:62-64 | `as u8` is congruent modulo 2^8 and is the identity on the u8 range |
| Wire.WrapUsize | src/litchi/csv/de/helpers.rs:110-125 | `as usize` is congruent modulo 2^64 and is the identity on the usize range |
| BinDeserializer.Split | src/litchi/bin/deserializer.rs:22 | `split_at(width)` succeeds exactly when `width` bytes remain, splitting the input into a prefix of that width and the rest; otherwise it fails with Truncated(width, remaining) |
| BinDeserializer.ReadU32 | src/litchi/bin/deserializer.rs:21-29 | succeeds exactly when 4 bytes remain; the value is the big-endian value of the first 4 bytes and the rest is the input without them; a short input gives Truncated(4, length) |
| BinDeserializer.ReadF32 | src/litchi/bin/deserializer.rs:31-39 | succeeds exactly when 4 bytes remain; the value's bits are the first 4 bytes, big-endian, and exactly those 4 bytes are consumed |
| BinDeserializer.ReadF64 | src/litchi/bin/deserializer.rs:41-49 | succeeds exactly when 8 bytes remain; the value's bits are the first 8 bytes, big-endian, and exactly those 8 bytes are consumed |
| BinDeserializer.ReadU16 | src/litchi/bin/mission.rs:47 | in the corrected reading, a u16 field takes 2 big-endian bytes, and fails with Truncated when fewer remain |
| BinDeserializer.ReadU32Written | src/litchi/bin/deserializer.rs:21-29 | reading a u32 from its own 4 bytes followed by any `t` gives the u32 and leaves `t` |
| BinDeserializer.ReadF32Written | src/litchi/bin/deserializer.rs:31-39 | reading an f32 from its own 4 bytes followed by any `t` gives it back and leaves `t` |
| BinDeserializer.ReadF64Written | src/litchi/bin/deserializer.rs:41-49 | reading an f64 from its own 8 bytes followed by any `t` gives it back and leaves `t` |
| BinDeserializer.ReadU16Written | src/litchi/bin/mission.rs:47 | reading a u16 from its own 2 bytes followed by any `t` gives it back and leaves `t` |
| BinDeserializer.DecodePrim | src/litchi/bin/deserializer.rs:53-95 | a successful primitive read gives a value of the requested kind and consumes at least one byte; every forwarded request (u8, u16, bool, …) in the source's dialect, and every one but u16 in the corrected one, fails with UnsupportedValue |
| BinDeserializer.DecodeShape | src/litchi/bin/deserializer.rs:97-127 | a decoded value has the requested shape and never reads past the end; a sequence's element count is the big-endian u32 of its first 4 bytes |
| BinDeserializer.DecodeFields | src/litchi/bin/deserializer.rs:108-127 | a tuple or struct yields exactly one value per declared field, each of that field's shape |
| BinDeserializer.DecodeRepeat | src/litchi/bin/deserializer.rs:97-106 | `count` elements in a row give exactly `count` values, each of the element shape |
| BinDeserializer.FixedShapeDecode | src/litchi/bin/deserializer.rs:53-127 | a shape of fixed width decodes exactly when that many bytes remain, consumes exactly that many bytes, and can fail only with Truncated |
| BinDeserializer.FixedFieldsDecode | src/litchi/bin/deserializer.rs:108-127 | a tuple of fixed-width fields decodes exactly when the sum of the widths remains and consumes exactly that sum |
| BinDeserializer.StructIsTuple | src/litchi/bin/deserializer.rs:108-118 | a struct decodes exactly as the tuple of its declared fields |
| BinDeserializer.ForwardedIsUnsupported | src/litchi/bin/deserializer.rs:62-67 | in the source's dialect every forwarded request fails with UnsupportedValue whatever the input |
| BinDeserializer.Claim | src/litchi/bin/deserializer.rs:148-159 | the element budget yields nothing at size 0, and otherwise drops by exactly one without touching the input |
| BinDeserializer.NextValue | src/litchi/bin/deserializer.rs:148-159 | at size 0 the accessor returns None and consumes nothing; otherwise it succeeds exactly when the element decodes, returns that element, and uses one unit of the budget |
| BinDeserializer.Deserializer.FromSlice | src/litchi/bin/deserializer.rs:15-17 | the cursor starts at the whole buffer |
| BinDeserializer.Deserializer.ParseU32 | src/litchi/bin/deserializer.rs:21-29 | the cursor's result and new input are those of ReadU32 on the old input, and a failed read moves nothing |
| BinDeserializer.Deserializer.ParseFloat | src/litchi/bin/deserializer.rs:31-39 | the result and new input are those of ReadF32, and a failed read moves nothing |
| BinDeserializer.Deserializer.ParseDouble | src/litchi/bin/deserializer.rs:41-49 | the result and new input are those of ReadF64, and a failed read moves nothing |
| BinDeserializer.Deserializer.ParseU16 | src/litchi/bin/mission.rs:47 | the corrected u16 read moves the cursor as ReadU16 says |
| BinDeserializer.Deserializer.DeserializePrim | src/litchi/bin/deserializer.rs:69-95 | each primitive request on the cursor agrees with DecodePrim on the old input |
| BinDeserializer.Deserializer.Deserialize | src/litchi/bin/deserializer.rs:97-127 | decoding any shape on the cursor agrees with DecodeShape on the old input |
| BinDeserializer.VisitElements | src/litchi/bin/deserializer.rs:97-106 | the loop over a sequence's elements agrees with DecodeRepeat for the visitor's whole budget |
| BinDeserializer.VisitFields | src/litchi/bin/deserializer.rs:120-127 | the loop over a tuple's fields agrees with DecodeFields |
| BinDeserializer.SeqVisitor.constructor | src/litchi/bin/deserializer.rs:130-139 | a visitor starts on the given cursor with the given budget |
| BinDeserializer.SeqVisitor.Claim | src/litchi/bin/deserializer.rs:152-155 | reports whether budget is left, and uses one unit of it when it is |
| BinDeserializer.SeqVisitor.NextElement | src/litchi/bin/deserializer.rs:148-159 | `next_element_seed` agrees with NextValue: the new budget and input are those of the function |
| BinEncoder.EncodePrim | src/litchi/bin/deserializer.rs:69-95 | a primitive is written in exactly its width |
| BinEncoder.PrimRoundTrip | src/litchi/bin/deserializer.rs:69-95 | decoding a written primitive followed by any `t` gives it back and leaves `t` |
| BinEncoder.ShapeRoundTrip | src/litchi/bin/deserializer.rs:97-127 | decoding the encoding of any value of a readable shape, followed by any `t`, gives that value and leaves `t` |
| BinEncoder.SeqRoundTrip | src/litchi/bin/deserializer.rs:97-106 | a written sequence (count, then elements) decodes back to its elements |
| BinEncoder.FieldsRoundTrip | src/litchi/bin/deserializer.rs:108-127 | written tuple fields decode back to the same fields |
| BinEncoder.RepeatRoundTrip | src/litchi/bin/deserializer.rs:130-159 | written elements decode back, the same count of them |
| BinEncoder.PrimReencodes | src/litchi/bin/deserializer.rs:69-95 | a decoded primitive re-encodes to exactly the bytes it consumed |
| BinEncoder.ShapeReencodes | src/litchi/bin/deserializer.rs:97-127 | a decoded value of any shape re-encodes to exactly the bytes it consumed |
| BinEncoder.SeqReencodes | src/litchi/bin/deserializer.rs:97-106 | a decoded sequence re-encodes to its count followed by its elements' bytes |
| BinEncoder.FieldsReencodes | src/litchi/bin/deserializer.rs:108-127 | decoded tuple fields re-encode to exactly the bytes consumed |
| BinEncoder.RepeatReencodes | src/litchi/bin/deserializer.rs:130-159 | decoded elements re-encode to exactly the bytes consumed |
| BinTypes.MagicIsLchm | src/litchi/bin/mod.rs:16 | the magic number's 4 big-endian bytes are the ASCII letters `lchm` |
| BinTypes.FinishActionCode | src/litchi/bin/mod.rs:18-25 | every finish action's `#[repr(u32)]` discriminant is at most 4 |
| BinTypes.PathModeCode | src/litchi/bin/mod.rs:27-32 | every path mode's discriminant is at most 1 |
| BinTypes.FinishActionOf | src/litchi/bin/mod.rs:18-26 | a finish action decodes exactly when its u32 is 0..4, into the variant with that discriminant; any other value is a Custom error naming the value and the allowed discriminants |
| BinTypes.PathModeOf | src/litchi/bin/mod.rs:28-33 | a path mode decodes exactly when its u32 is 0 or 1, into the variant with that discriminant; otherwise a Custom error |
| BinTypes.FinishActionRoundTrip | src/litchi/bin/mod.rs:18-26 | every finish action decodes back from its discriminant |
| BinTypes.PathModeRoundTrip | src/litchi/bin/mod.rs:28-33 | every path mode decodes back from its discriminant |
| BinTypes.DecodeFinishAction | src/litchi/bin/mod.rs:18-26 | a decoded finish action consumes exactly 4 bytes, which are its discriminant big-endian |
| BinTypes.DecodePathMode | src/litchi/bin/mod.rs:28-33 | a decoded path mode consumes exactly 4 bytes, which are its discriminant big-endian |
| BinTypes.DeserializeFinishAction | src/litchi/bin/mod.rs:18-26 | the cursor agrees with DecodeFinishAction |
| BinTypes.DeserializePathMode | src/litchi/bin/mod.rs:28-33 | the cursor agrees with DecodePathMode |
| BinTypes.PointOfInterestWidth | src/litchi/bin/mod.rs:35-41 | a point of interest (f64, f64, f32) has one fixed encoding of 20 bytes |
| BinTypes.PointOfInterestValue | src/litchi/bin/mod.rs:35-41 | every point of interest has a record value of the declared shape that reads back as it |
| Waypoints.WaypointRawFixed | src/litchi/bin/waypoint.rs:10-24 | the raw waypoint record has one fixed encoding in both dialects |
| Waypoints.WaypointRawWidth | src/litchi/bin/waypoint.rs:10-24 | the raw waypoint record is 56 bytes |
| Waypoints.ActionPairWidth | src/litchi/bin/waypoint.rs:73 | an action pair is 8 bytes with one fixed encoding |
| Waypoints.RawOf | src/litchi/bin/waypoint.rs:10-24 | a conforming value is exactly the twelve fields of the raw record it gives, in declaration order and of their declared kinds |
| Waypoints.RawValue | src/litchi/bin/waypoint.rs:10-24 | every raw waypoint has a record value of the declared shape that reads back as it |
| Waypoints.PairOf | src/litchi/bin/waypoint.rs:73-75 | a conforming action value is exactly the two u32 of the (code, value) pair it gives |
| Waypoints.ActionOf | src/litchi/bin/waypoint.rs:77-92 | the action table: a code decodes exactly when it is 0..5, into the action of that kind; StayFor carries the value, RotateAircraft the value modulo 2^16, TiltCamera its low 16 bits read as signed; any other code is UnknownAction carrying the pair |
| Waypoints.ActionRoundTrip | src/litchi/bin/waypoint.rs:77-88 | every action whose payload fits its field decodes back from its (code, value) pair |
| Waypoints.ActionPass | src/litchi/bin/waypoint.rs:70-95 | a successful action loop from index `i` to `n` gives exactly `n - i` actions and consumes exactly 8 bytes per pair, `8·(n - i)` in all |
| Waypoints.PartialOf | src/litchi/bin/waypoint.rs:97-105 | the partial waypoint copies altitude, heading, latitude, longitude, curve size and gimbal pitch, and takes the decoded actions |
| Waypoints.VisitWaypoint | src/litchi/bin/waypoint.rs:62-108 | a visited waypoint consumes exactly its 56-byte raw record and 8 bytes per action, `56 + 8·nb_actions` |
| Waypoints.DecodeWaypoint | src/litchi/bin/waypoint.rs:111-118 | a decoded waypoint consumes exactly `56 + 8·nb_actions` bytes |
| Waypoints.WaypointRepeat | src/litchi/bin/deserializer.rs:97-106 | `count` waypoints in a row give exactly `count` waypoints and consume at least 56 bytes each |
| Waypoints.WaypointRepeatStep | src/litchi/bin/deserializer.rs:97-106 | reading `after + 1` waypoints is reading one and then `after` more |
| Waypoints.WaypointRepeatFails | src/litchi/bin/deserializer.rs:97-106 | a failing first waypoint fails the whole sequence with its error |
| Waypoints.DecodeWaypoints | src/litchi/bin/deserializer.rs:97-106 | a decoded waypoint sequence has as many waypoints as its 4-byte count says |
| Waypoints.DecodeWaypointsCount | src/litchi/bin/deserializer.rs:97-106 | the waypoint sequence reads its count and then exactly that many waypoints |
| Waypoints.VisitWaypointSeq | src/litchi/bin/waypoint.rs:62-108 | the imperative visitor agrees with VisitWaypoint: result, budget left and input left |
| Waypoints.VisitActions | src/litchi/bin/waypoint.rs:70-95 | the `for i in 0..nb_actions` loop that pushes actions agrees with ActionPass |
| Waypoints.DeserializeWaypoint | src/litchi/bin/waypoint.rs:111-118 | decoding one waypoint on the cursor agrees with DecodeWaypoint |
| Waypoints.NextWaypointElement | src/litchi/bin/deserializer.rs:148-159 | at size 0 the accessor returns None and consumes nothing; otherwise it uses one unit of budget and agrees with DecodeWaypoint |
| Waypoints.PushNextWaypoint | src/litchi/bin/deserializer.rs:97-106 | one step of the sequence loop keeps the invariant that the waypoints so far, followed by the rest of the reading, are the whole WaypointRepeat |
| Waypoints.DeserializeWaypoints | src/litchi/bin/deserializer.rs:97-106 | the waypoint sequence on the cursor agrees with DecodeWaypoints |
| Missions.DetailsList | src/litchi/bin/mission.rs:44-50 | one waypoint detail record per value, the k-th read from the k-th value |
| Missions.IntervalList | src/litchi/bin/mission.rs:102-110 | one (f32, f32) interval per value, the k-th read from the k-th value |
| Missions.PoiList | src/litchi/bin/mod.rs:35-41 | one point of interest per value, the k-th read from the k-th value |
| Missions.FromTuple | src/litchi/bin/mission.rs:156-168 | `from_tuple` gives Time exactly when the time is not -1.0; Distance exactly when the time is -1.0 and the distance is not; each carries its own value, and otherwise None |
| Missions.FromTupleRoundTrip | src/litchi/bin/mission.rs:156-168 | reading back the tuple written for any interval whose payload is not -1.0 gives that interval |
| Missions.PoiLink | src/litchi/bin/mission.rs:119 | the POI link is None exactly when the code is 0xFFFFFFFF, otherwise Some(code) |
| Missions.PoiLinkRoundTrip | src/litchi/bin/mission.rs:119 | writing a decoded link gives the code back, and every link other than Some(0xFFFFFFFF) reads back from its code |
| Missions.Combine | src/litchi/bin/mission.rs:115-131 | an assembled waypoint keeps the flight fields and actions of its partial waypoint, takes its link from the detail record (`None` for 0xFFFFFFFF) and its interval from the pair through `from_tuple` |
| Missions.ZipWaypoints | src/litchi/bin/mission.rs:112-132 | the zip stops at the shortest list, and its k-th waypoint combines the k-th entries of the three lists |
| Missions.MissionOf | src/litchi/bin/mission.rs:134-141 | the mission copies the header's finish action, path mode, both speeds and POI list, and its waypoints are the zip of the header waypoints, the details and the intervals |
| Missions.MissionAssembly | src/litchi/bin/mission.rs:112-141 | whenever there is one detail and one interval per waypoint, the mission keeps the header's scalars, its POI list and every waypoint's flight fields, and waypoint k takes the link of detail k and the interval of tuple k |
| Missions.DecodeHeader | src/litchi/bin/mission.rs:18-31 | a decoded header consumes at least 56 bytes per waypoint and one per point of interest, and its five scalars are the big-endian words at offsets 0, 4, 8, 12 and 16 |
| Missions.HeaderScalars | src/litchi/bin/mission.rs:18-24 | the plop word, the finish action and path mode discriminants and the two speeds sit in the first 20 bytes of the header, 4 bytes each, in declaration order |
| Missions.DecodeHeaderLists | src/litchi/bin/mission.rs:18-31 | the header's sequences come after its scalars, which are kept as read |
| Missions.DecodeHeaderSeqs | src/litchi/bin/mission.rs:18-31 | the waypoint and POI sequences come after the padding words, with the scalars kept as read |
| Missions.FixedRepeatConsumes | src/litchi/bin/deserializer.rs:97-106 | `count` elements of a fixed non-empty shape consume at least `count` bytes |
| Missions.PoiSeqConsumes | src/litchi/bin/mod.rs:35-41 | a decoded POI sequence consumes at least one byte per point of interest |
| Missions.NextHeader | src/litchi/bin/mission.rs:81-82 | the header element is None at budget 0; otherwise it succeeds exactly when the header decodes, returns that header and uses one unit of budget, and otherwise fails with the header's error |
| Missions.Pass | src/litchi/bin/mission.rs:84-110 | a successful pass from `i` to `n` gives exactly `n - i` values, each of the pass's shape |
| Missions.PassIsRepeat | src/litchi/bin/mission.rs:84-110 | while the budget lasts, a pass of `count` elements is exactly `count` elements read back to back |
| Missions.PassRunsOut | src/litchi/bin/mission.rs:88-108 | a pass that needs more elements than the budget allows fails with invalid_length, carrying the index it reached and the name of the list |
| Missions.VisitBody | src/litchi/bin/mission.rs:84-141 | the mission after the header keeps the header's scalars, its POI list and every waypoint's flight fields |
| Missions.VisitTail | src/litchi/bin/mission.rs:99-141 | with one detail per waypoint, the assembled mission keeps the header |
| Missions.VisitMission | src/litchi/bin/mission.rs:67-144 | `visit_seq` on any budget: with no budget it fails with `missing_field("magic")`; a short input fails with Truncated(4, length); a wrong first word fails with `invalid_value` naming it; with the magic but a budget of one it fails with "failed to deserialize mission?"; a mission starts with MAGIC, its header decodes, and the mission keeps that header's scalars, POI list and waypoint flight fields |
| Missions.DecodeMission | src/litchi/bin/mission.rs:147-154 | the `usize::MAX`-element tuple read: a short input fails with Truncated(4, length), a wrong first word with `invalid_value`, and a mission starts with MAGIC followed by a header that decodes, whose scalars, POI list and waypoint flight fields it keeps |
| Missions.ShortInputRejected | src/litchi/bin/mission.rs:71-72 | an input shorter than the magic number fails with Truncated(4, length) |
| Missions.BadMagicRejected | src/litchi/bin/mission.rs:74-79 | a first u32 that is not MAGIC fails at once with Custom(invalid_value), whatever follows it |
| Missions.DetailsRefused | src/litchi/bin/mission.rs:44-57 | in the source's dialect a waypoint detail or POI detail record never decodes: it fails with UnsupportedValue |
| Missions.PassFirstFails | src/litchi/bin/mission.rs:88-92 | a pass whose first element fails to decode fails with that element's error |
| Missions.AsWrittenOnlyEmpty | src/litchi/bin/mission.rs:84-97 | in the source's dialect a successfully decoded mission has no waypoints and no points of interest |
| Missions.Lift | src/litchi/bin/deserializer.rs:148-159 | a plain reading lifted to a visitor step keeps the value, the error and the rest |
| Missions.BodyIsLinear | src/litchi/bin/mission.rs:84-110 | while the budget lasts, the visitor after the header reads the details, the POI details, the settings and the intervals back to back |
| Missions.TailIsLinear | src/litchi/bin/mission.rs:99-110 | while the budget lasts, the visitor after the details reads the settings and then the intervals back to back |
| Missions.MissionIsLinear | src/litchi/bin/mission.rs:147-154 | for any input under 2^32 bytes, the `usize::MAX`-element tuple is exactly the linear file layout: magic, header, details, POI details, settings, intervals |
| Missions.DeserializeHeader | src/litchi/bin/mission.rs:18-31 | the derived header visitor on the cursor agrees with DecodeHeader |
| Missions.DeserializeHeaderLists | src/litchi/bin/mission.rs:18-31 | the header's trailing fields on the cursor agree with DecodeHeaderLists |
| Missions.DeserializeHeaderSeqs | src/litchi/bin/mission.rs:18-31 | the header's two sequences on the cursor agree with DecodeHeaderSeqs |
| Missions.NextHeaderElement | src/litchi/bin/mission.rs:81-82 | the header element on the visitor agrees with NextHeader |
| Missions.RunPass | src/litchi/bin/mission.rs:84-110 | each `for i in 0..n` pass that pushes elements agrees with Pass: result, budget and input |
| Missions.VisitMissionSeq | src/litchi/bin/mission.rs:67-144 | the imperative `visit_seq` agrees with the functional visitor |
| Missions.VisitBodySeq | src/litchi/bin/mission.rs:84-144 | the body of `visit_seq` agrees with VisitBody |
| Missions.VisitTailSeq | src/litchi/bin/mission.rs:99-144 | the tail of `visit_seq` agrees with VisitTail |
| Missions.DeserializeMission | src/litchi/bin/mission.rs:147-154 | decoding the mission on the cursor agrees with DecodeMission |
| Missions.MissionFromBytes | src/litchi/bin/mod.rs:49-53 | a decoded mission starts with MAGIC and keeps its header; for inputs under 2^32 bytes, it succeeds exactly when the linear layout reads, with the same value or the same error |
| Missions.FromSlice | src/litchi/bin/mod.rs:49-53 | `from_slice` is a function of the bytes alone: the cursor is built on the whole buffer, and the result is MissionFromBytes of it, so the same slice always gives the same result |
| MissionEncoder.PairValue | src/litchi/bin/waypoint.rs:73 | every writable action has a (code, value) tuple value that reads back as its pair |
| MissionEncoder.PairValues | src/litchi/bin/waypoint.rs:70-95 | one writable pair value per action |
| MissionEncoder.PairValuesRead | src/litchi/bin/waypoint.rs:77-92 | the tuples written for a list of actions map through the action table back to those actions |
| MissionEncoder.ActionPassOfPairs | src/litchi/bin/waypoint.rs:70-95 | if the pairs read back to back map to the actions, the action loop yields exactly those actions and stops where the pairs end |
| MissionEncoder.ActionPassRoundTrip | src/litchi/bin/waypoint.rs:70-95 | the action loop over written actions gives those actions and leaves the trailing bytes |
| MissionEncoder.ActionsDecode | src/litchi/bin/waypoint.rs:70-95 | written action pairs read back as the same pairs |
| MissionEncoder.RawFor | src/litchi/bin/waypoint.rs:10-36 | every writable partial waypoint comes from a raw record (padding zero) whose action count is its number of actions |
| MissionEncoder.WaypointRoundTrip | src/litchi/bin/waypoint.rs:62-118 | a written waypoint (raw record, then its action pairs) decodes back to it and leaves the trailing bytes |
| MissionEncoder.RawRecordFromFront | src/litchi/bin/waypoint.rs:66-68 | the raw record at the front of a waypoint is read back as itself, using one unit of budget |
| MissionEncoder.VisitWaypointStep | src/litchi/bin/waypoint.rs:62-108 | the waypoint visitor is the raw record followed by its action loop |
| MissionEncoder.WaypointRepeatCons | src/litchi/bin/deserializer.rs:97-106 | a waypoint followed by `count - 1` more gives `count` waypoints |
| MissionEncoder.WaypointChain | src/litchi/bin/deserializer.rs:97-106 | a chain of inputs where each waypoint decodes into the next reads as the whole list |
| MissionEncoder.WaypointRepeatRoundTrip | src/litchi/bin/deserializer.rs:97-106 | any list of writable waypoints written back to back reads back as that list |
| MissionEncoder.WaypointsRoundTrip | src/litchi/bin/mission.rs:29 | a written waypoint sequence (count, then waypoints) decodes back to it |
| MissionEncoder.PaddingValue | src/litchi/bin/mission.rs:27 | the four padding words form one writable `[u32; 4]` value |
| MissionEncoder.PaddingRoundTrip | src/litchi/bin/mission.rs:27 | the padding words read back as the same four words, with no prefix |
| MissionEncoder.PoisValue | src/litchi/bin/mission.rs:30 | the points of interest form one writable sequence value |
| MissionEncoder.PoisRoundTrip | src/litchi/bin/mission.rs:30 | a written POI sequence reads back as the same points of interest |
| MissionEncoder.FinishActionWritten | src/litchi/bin/mod.rs:18-26 | a finish action's 4 bytes decode back to it |
| MissionEncoder.PathModeWritten | src/litchi/bin/mod.rs:28-33 | a path mode's 4 bytes decode back to it |
| MissionEncoder.HeaderSeqsRoundTrip | src/litchi/bin/mission.rs:29-30 | the written waypoint and POI sequences read back as the header's lists |
| MissionEncoder.HeaderListsRoundTrip | src/litchi/bin/mission.rs:18-31 | the header's written trailing fields read back as those fields |
| MissionEncoder.HeaderRoundTrip | src/litchi/bin/mission.rs:18-31 | any writable header (four padding words, fewer than 2^32 waypoints and POIs, every waypoint writable) decodes back from its bytes and leaves the trailing bytes |
| MissionFiles.BodyShapesFixed | src/litchi/bin/mission.rs:33-57 | the detail records have one encoding each once u16 is read, and the settings and interval records in both dialects |
| MissionFiles.DetailsValue | src/litchi/bin/mission.rs:44-50 | every waypoint detail has a record value that reads back as it |
| MissionFiles.DetailsValues | src/litchi/bin/mission.rs:84-92 | one record value per waypoint detail, which read back as those details |
| MissionFiles.PoiDetailsValue | src/litchi/bin/mission.rs:52-57 | every POI detail has a record value of the declared shape |
| MissionFiles.PoiDetailsValues | src/litchi/bin/mission.rs:94-97 | one writable record value per POI detail |
| MissionFiles.SettingsValue | src/litchi/bin/mission.rs:33-42 | the settings record is its five fields in declaration order |
| MissionFiles.IntervalValue | src/litchi/bin/mission.rs:106 | every (f32, f32) interval has a tuple value that reads back as it |
| MissionFiles.IntervalValues | src/litchi/bin/mission.rs:102-110 | one tuple value per interval, which read back as those intervals |
| MissionFiles.DetailsRoundTrip | src/litchi/bin/mission.rs:84-92 | written waypoint details read back, once u16 is read (or when there are none) |
| MissionFiles.PoiDetailsRoundTrip | src/litchi/bin/mission.rs:94-97 | written POI details read back, once u16 is read (or when there are none) |
| MissionFiles.SettingsRoundTrip | src/litchi/bin/mission.rs:99-100 | the written settings record reads back in both dialects |
| MissionFiles.IntervalsRoundTrip | src/litchi/bin/mission.rs:102-110 | written intervals read back in both dialects |
| MissionFiles.TailRoundTrip | src/litchi/bin/mission.rs:99-141 | the written settings and intervals read back into the assembled mission |
| MissionFiles.BodyRoundTrip | src/litchi/bin/mission.rs:84-141 | everything written after the header reads back into the assembled mission |
| MissionFiles.FileRoundTrip | src/litchi/bin/mission.rs:67-144 | a whole written mission file reads back, in the linear layout, as the mission assembled from its header, details and intervals, once u16 is read (or when it has no waypoints and no POIs) |
| MissionFiles.FileRefused | src/litchi/bin/mission.rs:84-97 | in the source's dialect, any written file with a waypoint or a point of interest fails with UnsupportedValue |
| MissionFiles.FromSliceRoundTrip | src/litchi/bin/mod.rs:49-53 | with u16 read as two bytes, `from_slice` on any written file under 2^32 bytes gives the assembled mission |
| MissionFiles.AsWrittenFromSlice | src/litchi/bin/mod.rs:49-53 | as written, `from_slice` on a written file succeeds exactly when it has no waypoints and no points of interest, then with the assembled mission; otherwise it fails with UnsupportedValue |
| MissionFiles.PartialOfWaypoint | src/litchi/bin/mission.rs:121-131 | each mission waypoint has a partial waypoint with the same flight fields and actions |
| MissionFiles.MissionLayout | src/litchi/bin/mission.rs:112-132 | every writable mission has a writable file with one waypoint per mission waypoint and the same POI list |
| MissionFiles.LayoutAssembles | src/litchi/bin/mission.rs:112-141 | assembling the file laid out for a mission gives that mission back |
| MissionFiles.MissionRoundTrip | src/litchi/bin/mod.rs:49-53 | with u16 read as two bytes, every writable mission is read back by `from_slice` from its file |
| PrefixReads.ReadU32Extends | src/litchi/bin/deserializer.rs:21-29 | bytes appended after an input leave a successful u32 read unchanged apart from what is left over; a short read is the only outcome that can change |
| PrefixReads.ShapeExtends | src/litchi/bin/deserializer.rs:53-127 | for every shape, bytes appended after the input leave a decoded value unchanged with those bytes added to the rest, and leave every error other than Truncated unchanged |
| PrefixReads.NextValueExtends | src/litchi/bin/deserializer.rs:148-159 | the same for one step of the sequence accessor: the value and the budget stay, the appended bytes join the input left |
| PrefixReads.ActionPassExtends | src/litchi/bin/waypoint.rs:70-95 | the same for the action loop of a waypoint |
| PrefixReads.VisitWaypointExtends | src/litchi/bin/waypoint.rs:62-108 | the same for the waypoint visitor |
| PrefixReads.WaypointRepeatExtends | src/litchi/bin/deserializer.rs:97-106 | the same for `count` waypoints in a row |
| PrefixReads.DecodeWaypointsExtends | src/litchi/bin/deserializer.rs:97-106 | the same for the waypoint sequence with its count |
| PrefixReads.HeaderExtends | src/litchi/bin/mission.rs:18-31 | the same for the header |
| PrefixReads.BodyExtends | src/litchi/bin/mission.rs:84-141 | the same for everything after the header |
| PrefixReads.MissionExtends | src/litchi/bin/mission.rs:67-144 | the same for the whole mission layout |
| PrefixReads.MissionPrefixFails | src/litchi/bin/mission.rs:67-144 | a layout that reads to its last byte fails with Truncated on every strict prefix: it never gives a mission and never another error |
| PrefixReads.HeaderPrefixFails | src/litchi/bin/mission.rs:71-82 | a layout whose magic number and header read fails with Truncated when cut before the header ends |
| MissionFiles.PrefixTruncated | src/litchi/bin/mod.rs:49-53 | with u16 read as two bytes (or with no waypoints and no POIs), `from_slice` on any strict prefix of a written file under 2^32 bytes fails with Truncated |
| MissionFiles.AsWrittenPrefix | src/litchi/bin/mod.rs:49-53 | as written, `from_slice` on a strict prefix of a file with a waypoint or a POI fails: with Truncated when the cut falls in the magic number or the header, with UnsupportedValue once the header is whole |
| MissionFiles.HeaderCut | src/litchi/bin/mission.rs:71-82 | as written, a file cut in its magic number or header fails with Truncated |
| MissionFiles.BodyCut | src/litchi/bin/mission.rs:84-97 | as written, a file with a waypoint or a POI cut after its header fails with UnsupportedValue |
| MissionFiles.BodyRefused | src/litchi/bin/mission.rs:84-97 | as written, the body of a header with a waypoint or a POI is refused with UnsupportedValue whatever bytes it holds |
| CsvHelpers.AltitudeTryFrom | src/litchi/csv/de/helpers.rs:36-53 | a missing height or mode gives MissingParameter; a mode above 1 gives UnknownType; mode 0 gives Absolute and mode 1 AboveGround, both of the height |
| CsvHelpers.AltitudeRoundTrip | src/litchi/csv/de/helpers.rs:36-53 | every altitude converts back from its columns |
| CsvHelpers.HeightCheckedFirst | src/litchi/csv/de/helpers.rs:40-42 | a missing height gives MissingParameter whatever the mode |
| CsvHelpers.CoordinatesTryFrom | src/litchi/csv/de/helpers.rs:55-73 | a missing latitude or longitude gives MissingParameter; then the altitude's error propagates; on success the fields are copied unchanged |
| CsvHelpers.CoordinatesRoundTrip | src/litchi/csv/de/helpers.rs:55-73 | every coordinate converts back from its columns |
| CsvHelpers.GimbalTryFrom | src/litchi/csv/de/helpers.rs:75-99 | mode 0 gives no gimbal; mode 1 FocusPoi and mode 2 Interpolate of the pitch; a missing pitch for those modes or a missing mode gives MissingParameter; any other mode UnknownType |
| CsvHelpers.GimbalRoundTrip | src/litchi/csv/de/helpers.rs:75-99 | every gimbal setting converts back from its columns |
| CsvHelpers.GimbalOffIgnoresPitch | src/litchi/csv/de/helpers.rs:75-99 | mode 0 gives no gimbal whether or not a pitch is present |
| CsvHelpers.ActionTryFrom | src/litchi/csv/de/helpers.rs:101-134 | type -1 is no action; types 1, 2 and 3 need no parameter; 0, 4 and 5 without one give MissingParameter; a missing type gives MissingParameter and any other type UnknownType; the parameter goes through `as usize`, `as u16` and `as i16` |
| CsvHelpers.Param | src/litchi/csv/de/helpers.rs:110-125 | a missing parameter is MissingParameter, a present one is passed on |
| CsvHelpers.ActionColumnsRoundTrip | src/litchi/csv/de/helpers.rs:101-134 | every action, and no action, converts back from its columns |
| CsvHelpers.ParamlessActionsIgnoreParam | src/litchi/csv/de/helpers.rs:110-125 | types 1, 2 and 3 succeed and do not depend on the parameter |
| PlanModel.ActionFrom | src/flightplan/mod.rs:148-177 | StayFor becomes Delay of the whole seconds; TakePhoto one photo; StartRecording the 4K 30 fps recording; StopRecording VideoStopCapture; RotateAircraft Panorama and TiltCamera Tilt, at speed 10 with the angle's low byte |
| PlanModel.AngleLowByte | src/flightplan/mod.rs:166-175 | rotations with the same low byte map to the same panorama |
| PlanModel.DelayWholeSeconds | src/flightplan/mod.rs:154 | a stay of exactly `k` seconds becomes Delay(k) |
| PlanModel.FlightPlan.New | src/flightplan/mod.rs:81-123 | a new plan has the given title (also its uuid), date and centre, the fixed settings of Defaults (version 1, product ANAFI_4K with id 2324, progressive course on, not dirty, zero deltas, zoom 17, rotation and tilt 0, map type 4), and a plan holding only the 4K 30 fps recording |
| PlanModel.FlightPlan.Retitle | src/flightplan/mod.rs:25-28 | sets title and uuid to the given title and leaves the plan unchanged |
| FromBin.PoiFrom | src/flightplan/from_bin.rs:74-83 | a point of interest keeps its coordinates, converts its altitude and takes colour 0x32a852 |
| FromBin.ActionsFrom | src/flightplan/from_bin.rs:67-68 | the actions are None exactly when the list is empty, otherwise the pointwise mapping of the list |
| FromBin.ActionList | src/flightplan/from_bin.rs:67-68 | the pointwise mapping of a list of actions |
| FromBin.WaypointFrom | src/flightplan/from_bin.rs:51-72 | a waypoint keeps its coordinates, has a poi exactly when the source does (its low byte), follow_poi when it has one, dont_stop, follow 1, last_yaw 0 and the mapped actions |
| FromBin.WaypointsFrom | src/flightplan/from_bin.rs:51-72 | the waypoint count and order are kept and each waypoint is mapped |
| FromBin.MapWaypoints | src/flightplan/from_bin.rs:51-72 | the mapping keeps the count and maps each waypoint with the mission's cruising speed |
| FromBin.ColoredPois | src/flightplan/from_bin.rs:11-24 | the POI count and order are kept, and POI i takes colour POI_COLORS[i mod 11] |
| FromBin.RollColors | src/flightplan/from_bin.rs:11-24 | the `scan` over a cycling colour iterator gives ColoredPois |
| FromBin.ColorsCycle | src/flightplan/color.rs:1-4 | two points of interest share a colour exactly when their positions agree modulo eleven: the colours cycle with period eleven and are pairwise distinct |
| FromBin.WithStop | src/flightplan/from_bin.rs:27-31 | the last waypoint's actions end with VideoStopCapture, appended to an existing list or as a new singleton |
| FromBin.StopLast | src/flightplan/from_bin.rs:26-32 | only the last waypoint changes, and it gets the final stop |
| FromBin.TryFromMission | src/flightplan/from_bin.rs:5-49 | fails with MalformedLitchiMission("missing start point") exactly when there are no waypoints; otherwise a new untitled plan with the fixed settings of `FlightPlan::new`, centred on the first waypoint, holds the recording, the coloured POIs and the mapped waypoints with the final stop |
| FromBin.PlanKeepsWaypoints | src/flightplan/from_bin.rs:26-72 | the plan has one waypoint per mission waypoint; all but the last are the plain mapping; the last ends with VideoStopCapture; each keeps its coordinates, dont_stop, follow 1, last_yaw 0 and its poi link |
| FromBin.LastActions | src/flightplan/from_bin.rs:26-32 | the last waypoint's actions are its mapped actions followed by VideoStopCapture |
| FlightPlans.TitleResult | src/flightplan/mod.rs:41-46 | a successful plan gets the title as title and uuid with its plan unchanged; a failure is returned unchanged |
| FlightPlans.FromCsv | src/flightplan/mod.rs:21-31 | `from_csv` titles the converted plan and returns errors unchanged |
| FlightPlans.FromBinMission | src/flightplan/mod.rs:37-47 | `from_bin` fails exactly when the mission has no waypoints; otherwise the titled plan has the fixed settings of `FlightPlan::new`, is centred on the first waypoint and holds the converted waypoints and POIs |

## Left out

- The USB/MTP transfer (src/mtp.rs) and the command line (src/main.rs) are I/O and are not part of this model.
- Reading the input file is I/O: every decoder takes the bytes as a parameter.
- The CSV reader's glue over serde's `MapAccess`, its regular expressions and its string-to-float parsing are not part of this model, and neither is src/flightplan/from_csv.rs. Only the helper conversions are modelled. FlightPlans.FromCsv takes the converted result as a parameter.
- KML (src/litchi/kml.rs, src/flightplan/from_kml.rs) wraps an external crate and is not part of this model.
- JSON serialisation of the flight plan (src/flightplan/model.rs, `String::from`) and the tolerant `PartialEq` of points of interest are not part of this model.
- Floating point: `f32`/`f64` are opaque bit patterns. The only float comparison, `!= -1.0`, is a comparison of bits with 0xBF800000, which agrees for NaN and non-NaN alike. The float computations of the flight-plan conversion (altitude `as u16`, `360 - |heading|`, speed `as u8`, POI altitude `as i16`) are a `FloatOps` parameter.
- `FlightPlan::new` reads the clock: the date is a parameter of PlanModel.FlightPlan.New.
- Serde's trait dispatch (`Visitor`, `DeserializeSeed`, `serde_repr`) is replaced by an explicit `Shape` that names each request.
- The display text of serde's error messages is kept as structured reasons, and the `From`/`Display` error plumbing is left out.
- Panics become errors: where `split_at` would panic on fewer bytes than it asks for, the model reads nothing and returns Truncated; where the waypoint visitor panics on an unknown action code, the model returns UnknownAction.
- `Vec::with_capacity(wp_raw.nb_actions as usize)` (src/litchi/bin/waypoint.rs:70) allocates before any pair is read. A corrupt count near 2^32 can make that allocation fail and abort the process. The model has no allocator, so it returns Truncated once the pairs run out.
- `usize` and `isize` are fixed at 64 bits (wire.dfy:17-19), as on the crate's 64-bit hosts. That width decides `as usize` (src/litchi/csv/de/helpers.rs:111) and `WrapUsize`; a 32-bit target is not modelled.
- The POI detail records and the settings record are read and checked for shape but, as in the source, their values are dropped.
- The assembled waypoint carries `gimbal_pitch`, because the field `gimbal` that mission.rs:127 copies does not exist.
- Missions.MissionFromBytes: the agreement with the linear layout is stated for inputs under 2^32 bytes. Beyond that, the `usize::MAX as u32` element budget of the top-level tuple could run out before the file does; the model still decodes such inputs, but the theorem does not describe them.
- MissionFiles.FromSliceRoundTrip: stated for files under 2^32 bytes, for the same reason.
- MissionFiles.PoiDetailsValue: states only the record's shape, because the POI details are dropped after they are read.
- The encoder modules have no counterpart in the source, which only reads the format. They are the partner that the decoders' round trips are stated against.

## Findings

| source | as written | input that shows it | evidently intended | confidence | as-written member | corrected member |
|---|---|---|---|---|---|---|
| src/litchi/bin/mission.rs:47 | `WaypointDetails.is_above_ground` and `PoIDetails.is_above_ground` (mission.rs:55) are `u16`, but the binary deserializer forwards `u16` to `deserialize_any` (deserializer.rs:54, 62-67), which returns UnsupportedValue; so every file with at least one waypoint or point of interest is refused | any well-formed mission file with one waypoint, for example the file FileThen builds for a one-waypoint mission | `u16` read as two big-endian bytes, so that every written mission reads back | not executed | Missions.AsWrittenOnlyEmpty, MissionFiles.FileRefused, MissionFiles.AsWrittenFromSlice | MissionFiles.FromSliceRoundTrip, MissionFiles.MissionRoundTrip |

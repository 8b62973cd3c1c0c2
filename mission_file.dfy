/**
 * A whole mission file, written out: the magic number, the header, the detail records
 * of the waypoints and of the points of interest, the settings and the photo
 * intervals. Decoding the written file gives the mission the decoder assembles from
 * those records; in the source dialect this holds only for files without waypoints
 * and without points of interest, every other file being refused at its first detail
 * record.
 */
module MissionFiles {

  import opened Wrappers
  import opened Wire
  import opened BinError
  import opened BinDeserializer
  import opened BinEncoder
  import opened BinTypes
  import opened Litchi
  import opened Waypoints
  import opened Missions
  import opened MissionEncoder
  import opened PrefixReads

  // ---------------------------------------------------------------------------
  // The records after the header
  // ---------------------------------------------------------------------------

  /** `PoIDetails`: read, then dropped by the decoder. */
  datatype PoiDetails = PoiDetails(isAboveGround: u16, altitude: F32)

  /** `OtherSettings`: three unnamed words and the two photo intervals of the mission;
      read, then dropped by the decoder. */
  datatype OtherSettings = OtherSettings(first: u32, second: u32, third: u32, seconds: F32, meters: F32)

  /** What a mission file holds after its magic number. */
  datatype MissionFile = MissionFile(
    header: MissionPartial, details: seq<WaypointDetails>, poiDetails: seq<PoiDetails>,
    settings: OtherSettings, intervals: seq<(F32, F32)>)

  /** A file the layout describes: a writable header, and one detail record and one
      interval per waypoint, one detail record per point of interest. */
  predicate Writable(f: MissionFile) {
    && HeaderWritable(f.header)
    && |f.details| == |f.header.waypoints| && |f.intervals| == |f.header.waypoints|
    && |f.poiDetails| == |f.header.poi|
  }

  /** The body records have one encoding each once the u16 request is read. */
  lemma BodyShapesFixed(d: Dialect)
    ensures Fixed(WithU16, WAYPOINT_DETAILS) && Fixed(WithU16, POI_DETAILS)
    ensures Fixed(d, OTHER_SETTINGS) && Fixed(d, INTERVAL)
  {
  }

  function DetailsValue(x: WaypointDetails): (v: Value)
    ensures Conforms(v, WAYPOINT_DETAILS) && DetailsOf(v) == x
  {
    Items([Unsigned(x.isAboveGround), Float32(x.altitude), Unsigned(x.waypointPoi)])
  }

  /** The detail records of the waypoints, which read back as `ds`. */
  function DetailsValues(ds: seq<WaypointDetails>): (vs: seq<Value>)
    ensures |vs| == |ds| && (forall k | 0 <= k < |vs| :: Conforms(vs[k], WAYPOINT_DETAILS))
    ensures EachEncodable(vs, WAYPOINT_DETAILS) && DetailsList(vs) == ds
  {
    var vs := seq(|ds|, k requires 0 <= k < |ds| => DetailsValue(ds[k]));
    BodyShapesFixed(WithU16);
    EachFixedIsEncodable(WithU16, WAYPOINT_DETAILS, vs);
    assert DetailsList(vs) == ds;
    vs
  }

  function PoiDetailsValue(x: PoiDetails): (v: Value)
    ensures Conforms(v, POI_DETAILS)
  {
    Items([Unsigned(x.isAboveGround), Float32(x.altitude)])
  }

  function PoiDetailsValues(ps: seq<PoiDetails>): (vs: seq<Value>)
    ensures |vs| == |ps| && EachEncodable(vs, POI_DETAILS)
  {
    var vs := seq(|ps|, k requires 0 <= k < |ps| => PoiDetailsValue(ps[k]));
    BodyShapesFixed(WithU16);
    EachFixedIsEncodable(WithU16, POI_DETAILS, vs);
    vs
  }

  function SettingsValue(s: OtherSettings): (v: Value)
    ensures Encodable(v, OTHER_SETTINGS)
    ensures v == Items([Unsigned(s.first), Unsigned(s.second), Unsigned(s.third), Float32(s.seconds), Float32(s.meters)])
  {
    var v := Items([Unsigned(s.first), Unsigned(s.second), Unsigned(s.third), Float32(s.seconds), Float32(s.meters)]);
    assert Conforms(v, OTHER_SETTINGS);
    BodyShapesFixed(WithU16);
    FixedIsEncodable(WithU16, OTHER_SETTINGS, v);
    v
  }

  function IntervalValue(iv: (F32, F32)): (v: Value)
    ensures Conforms(v, INTERVAL) && IntervalOf(v) == iv
  {
    Items([Float32(iv.0), Float32(iv.1)])
  }

  /** The interval tuples of the waypoints, which read back as `ivs`. */
  function IntervalValues(ivs: seq<(F32, F32)>): (vs: seq<Value>)
    ensures |vs| == |ivs| && (forall k | 0 <= k < |vs| :: Conforms(vs[k], INTERVAL))
    ensures EachEncodable(vs, INTERVAL) && IntervalList(vs) == ivs
  {
    var vs := seq(|ivs|, k requires 0 <= k < |ivs| => IntervalValue(ivs[k]));
    BodyShapesFixed(WithU16);
    EachFixedIsEncodable(WithU16, INTERVAL, vs);
    assert IntervalList(vs) == ivs;
    vs
  }

  function DetailsThen(ds: seq<WaypointDetails>, t: seq<byte>): seq<byte> {
    EncodeRepeat(WAYPOINT_DETAILS, DetailsValues(ds)) + t
  }

  function PoiDetailsThen(ps: seq<PoiDetails>, t: seq<byte>): seq<byte> {
    EncodeRepeat(POI_DETAILS, PoiDetailsValues(ps)) + t
  }

  function SettingsThen(s: OtherSettings, t: seq<byte>): seq<byte> {
    EncodeShape(OTHER_SETTINGS, SettingsValue(s)) + t
  }

  function IntervalsThen(ivs: seq<(F32, F32)>, t: seq<byte>): seq<byte> {
    EncodeRepeat(INTERVAL, IntervalValues(ivs)) + t
  }

  /** The records after the header, then `t`. */
  function BodyThen(f: MissionFile, t: seq<byte>): seq<byte> {
    DetailsThen(f.details, PoiDetailsThen(f.poiDetails, SettingsThen(f.settings, IntervalsThen(f.intervals, t))))
  }

  /** The file: the magic number, the header, the body, then `t`. */
  function FileThen(f: MissionFile, t: seq<byte>): seq<byte>
    requires Writable(f)
  {
    Pow256Widths();
    BeBytes(MAGIC, 4) + HeaderThen(f.header, BodyThen(f, t))
  }

  // ---------------------------------------------------------------------------
  // Reading the records back
  // ---------------------------------------------------------------------------

  /** The detail records read back, in the corrected dialect, or in any dialect when
      there are none. */
  lemma DetailsRoundTrip(d: Dialect, ds: seq<WaypointDetails>, t: seq<byte>)
    requires d == WithU16 || ds == []
    ensures DecodeRepeat(d, WAYPOINT_DETAILS, |ds|, DetailsThen(ds, t)) == Ok(Read(DetailsValues(ds), t))
  {
    var vs := DetailsValues(ds);
    if ds == [] {
      assert vs == [] && DetailsThen(ds, t) == t;
    } else {
      BodyShapesFixed(d);
      FixedIsReadable(d, WAYPOINT_DETAILS);
      RepeatRoundTrip(d, WAYPOINT_DETAILS, vs, t);
    }
  }

  lemma PoiDetailsRoundTrip(d: Dialect, ps: seq<PoiDetails>, t: seq<byte>)
    requires d == WithU16 || ps == []
    ensures DecodeRepeat(d, POI_DETAILS, |ps|, PoiDetailsThen(ps, t)) == Ok(Read(PoiDetailsValues(ps), t))
  {
    var vs := PoiDetailsValues(ps);
    if ps == [] {
      assert vs == [] && PoiDetailsThen(ps, t) == t;
    } else {
      BodyShapesFixed(d);
      FixedIsReadable(d, POI_DETAILS);
      RepeatRoundTrip(d, POI_DETAILS, vs, t);
    }
  }

  /** The settings and the intervals need no u16: they read back in any dialect. */
  lemma SettingsRoundTrip(d: Dialect, s: OtherSettings, t: seq<byte>)
    ensures DecodeShape(d, OTHER_SETTINGS, SettingsThen(s, t)) == Ok(Read(SettingsValue(s), t))
  {
    var v := SettingsValue(s);
    BodyShapesFixed(d);
    FixedIsReadable(d, OTHER_SETTINGS);
    ShapeRoundTrip(d, OTHER_SETTINGS, v, t);
  }

  lemma IntervalsRoundTrip(d: Dialect, ivs: seq<(F32, F32)>, t: seq<byte>)
    ensures DecodeRepeat(d, INTERVAL, |ivs|, IntervalsThen(ivs, t)) == Ok(Read(IntervalValues(ivs), t))
  {
    var vs := IntervalValues(ivs);
    BodyShapesFixed(d);
    FixedIsReadable(d, INTERVAL);
    RepeatRoundTrip(d, INTERVAL, vs, t);
  }

  /** The settings and the intervals of a file read back; the mission is assembled
      from the header, the detail records and the intervals. */
  lemma TailRoundTrip(d: Dialect, f: MissionFile, t: seq<byte>)
    requires Writable(f)
    ensures LinearTail(d, f.header, f.details, SettingsThen(f.settings, IntervalsThen(f.intervals, t)))
            == Ok(Read(MissionOf(f.header, f.details, f.intervals), t))
  {
    var rest := IntervalsThen(f.intervals, t);
    SettingsRoundTrip(d, f.settings, rest);
    IntervalsRoundTrip(d, f.intervals, t);
  }

  /** The body of a file reads back when the detail records can be read: in the
      corrected dialect, or when there are none. */
  lemma BodyRoundTrip(d: Dialect, f: MissionFile, t: seq<byte>)
    requires Writable(f) && (d == WithU16 || (f.header.waypoints == [] && f.header.poi == []))
    ensures LinearBody(d, f.header, BodyThen(f, t)) == Ok(Read(MissionOf(f.header, f.details, f.intervals), t))
  {
    var t2 := SettingsThen(f.settings, IntervalsThen(f.intervals, t));
    var t1 := PoiDetailsThen(f.poiDetails, t2);
    DetailsRoundTrip(d, f.details, t1);
    PoiDetailsRoundTrip(d, f.poiDetails, t2);
    TailRoundTrip(d, f, t);
  }

  /** A written file reads back, record after record, as the mission of its records. */
  lemma FileRoundTrip(d: Dialect, f: MissionFile, t: seq<byte>)
    requires Writable(f) && (d == WithU16 || (f.header.waypoints == [] && f.header.poi == []))
    ensures LinearMission(d, FileThen(f, t)) == Ok(Read(MissionOf(f.header, f.details, f.intervals), t))
  {
    var body := BodyThen(f, t);
    var rest := HeaderThen(f.header, body);
    ReadU32Written(MAGIC, rest);
    HeaderRoundTrip(d, f.header, body);
    BodyRoundTrip(d, f, t);
  }

  /** As written, a file with a waypoint or a point of interest is refused at its
      first detail record. */
  lemma FileRefused(f: MissionFile, t: seq<byte>)
    requires Writable(f) && (f.header.waypoints != [] || f.header.poi != [])
    ensures LinearMission(AsWritten, FileThen(f, t)) == Err(UnsupportedValue)
  {
    var body := BodyThen(f, t);
    var rest := HeaderThen(f.header, body);
    ReadU32Written(MAGIC, rest);
    HeaderRoundTrip(AsWritten, f.header, body);
    DetailsRefused(body);
    if f.header.waypoints == [] {
      var later := PoiDetailsThen(f.poiDetails, SettingsThen(f.settings, IntervalsThen(f.intervals, t)));
      DetailsRoundTrip(AsWritten, f.details, later);
      DetailsRefused(later);
    }
  }

  // ---------------------------------------------------------------------------
  // from_slice over a written file
  // ---------------------------------------------------------------------------

  /** With the u16 read, `from_slice` over a written file under 4 GiB gives the mission
      of its records, whatever bytes follow it. */
  lemma FromSliceRoundTrip(f: MissionFile, t: seq<byte>)
    requires Writable(f) && |FileThen(f, t)| < 0x1_0000_0000
    ensures MissionFromBytes(WithU16, FileThen(f, t)) == Ok(MissionOf(f.header, f.details, f.intervals))
  {
    FileRoundTrip(WithU16, f, t);
  }

  /** As written, `from_slice` over a written file under 4 GiB succeeds exactly when the
      file has no waypoint and no point of interest, and then gives the mission of its
      records; any other file is refused with UnsupportedValue. */
  lemma AsWrittenFromSlice(f: MissionFile, t: seq<byte>)
    requires Writable(f) && |FileThen(f, t)| < 0x1_0000_0000
    ensures MissionFromBytes(AsWritten, FileThen(f, t)).Ok? <==> f.header.waypoints == [] && f.header.poi == []
    ensures MissionFromBytes(AsWritten, FileThen(f, t)).Ok? ==>
              MissionFromBytes(AsWritten, FileThen(f, t)).value == MissionOf(f.header, f.details, f.intervals)
    ensures MissionFromBytes(AsWritten, FileThen(f, t)).Err? ==>
              MissionFromBytes(AsWritten, FileThen(f, t)).error == UnsupportedValue
  {
    if f.header.waypoints == [] && f.header.poi == [] {
      FileRoundTrip(AsWritten, f, t);
    } else {
      FileRefused(f, t);
    }
  }

  // ---------------------------------------------------------------------------
  // Cut-off files
  // ---------------------------------------------------------------------------

  /** A file that reads back, cut short anywhere before its last byte, is a short read
      for `from_slice`: never a mission, and never any other error. */
  lemma PrefixTruncated(d: Dialect, f: MissionFile, k: nat)
    requires Writable(f) && (d == WithU16 || (f.header.waypoints == [] && f.header.poi == []))
    requires k < |FileThen(f, [])| < 0x1_0000_0000
    ensures MissionFromBytes(d, FileThen(f, [])[..k]).Err?
    ensures MissionFromBytes(d, FileThen(f, [])[..k]).error.Truncated?
  {
    FileRoundTrip(d, f, []);
    MissionPrefixFails(d, FileThen(f, []), k);
    LinearFailure(d, FileThen(f, [])[..k]);
  }

  /** Under 4 GiB, `from_slice` fails exactly where the mission layout does. */
  lemma LinearFailure(d: Dialect, bytes: seq<byte>)
    requires |bytes| < 0x1_0000_0000 && LinearMission(d, bytes).Err?
    ensures MissionFromBytes(d, bytes) == Err(LinearMission(d, bytes).error)
  {
  }

  /** As written, a file with a waypoint or a point of interest cut short is a short
      read when the cut falls in the magic number or the header, and is refused with
      UnsupportedValue at the first detail record when the header is complete. */
  lemma AsWrittenPrefix(f: MissionFile, k: nat)
    requires Writable(f) && (f.header.waypoints != [] || f.header.poi != [])
    requires k < |FileThen(f, [])| < 0x1_0000_0000
    ensures MissionFromBytes(AsWritten, FileThen(f, [])[..k]).Err?
    ensures k < 4 + |HeaderThen(f.header, [])| ==> MissionFromBytes(AsWritten, FileThen(f, [])[..k]).error.Truncated?
    ensures 4 + |HeaderThen(f.header, [])| <= k ==>
              MissionFromBytes(AsWritten, FileThen(f, [])[..k]).error == UnsupportedValue
  {
    if k < 4 + |HeaderThen(f.header, [])| {
      HeaderCut(f, k);
    } else {
      BodyCut(f, k);
    }
    LinearFailure(AsWritten, FileThen(f, [])[..k]);
  }

  /** A cut in the magic number or the header. */
  lemma HeaderCut(f: MissionFile, k: nat)
    requires Writable(f) && k < |FileThen(f, [])| && k < 4 + |HeaderThen(f.header, [])|
    ensures LinearMission(AsWritten, FileThen(f, [])[..k]).Err?
    ensures LinearMission(AsWritten, FileThen(f, [])[..k]).error.Truncated?
  {
    var body := BodyThen(f, []);
    var r := HeaderThen(f.header, body);
    HeaderAppends(f.header, body);
    ReadU32Written(MAGIC, r);
    HeaderRoundTrip(AsWritten, f.header, body);
    HeaderPrefixFails(AsWritten, FileThen(f, []), k, r, f.header, body);
  }

  /** A cut after the header: the records of the first detail kind present are
      refused. */
  lemma BodyCut(f: MissionFile, k: nat)
    requires Writable(f) && (f.header.waypoints != [] || f.header.poi != [])
    requires 4 + |HeaderThen(f.header, [])| <= k < |FileThen(f, [])|
    ensures LinearMission(AsWritten, FileThen(f, [])[..k]) == Err(UnsupportedValue)
  {
    var cut := CutInBody(f, k);
    var rest := HeaderThen(f.header, cut);
    ReadU32Written(MAGIC, rest);
    HeaderRoundTrip(AsWritten, f.header, cut);
    BodyRefused(f.header, cut);
  }

  /** A cut after the header keeps the whole header and a prefix of the body. */
  lemma CutInBody(f: MissionFile, k: nat) returns (cut: seq<byte>)
    requires Writable(f) && 4 + |HeaderThen(f.header, [])| <= k <= |FileThen(f, [])|
    ensures FileThen(f, [])[..k] == BeBytes(MAGIC, 4) + HeaderThen(f.header, cut)
  {
    var body := BodyThen(f, []);
    Pow256Widths();
    var magic, head := BeBytes(MAGIC, 4), HeaderThen(f.header, []);
    HeaderAppends(f.header, body);
    AppendsAfter(magic, head, body);
    cut := body[..k - 4 - |head|];
    CutAfter(magic + head, body, k);
    HeaderAppends(f.header, cut);
    AppendsAfter(magic, head, cut);
  }

  /** Cutting past the end of `a` keeps `a` and a prefix of `b`. */
  lemma CutAfter(a: seq<byte>, b: seq<byte>, k: nat)
    requires |a| <= k <= |a| + |b|
    ensures (a + b)[..k] == a + b[..k - |a|]
  {
  }

  /** As written, the body of a header with a waypoint or a point of interest is refused
      at its first detail record, whatever bytes it holds. */
  lemma BodyRefused(h: MissionPartial, input: seq<byte>)
    requires h.waypoints != [] || h.poi != []
    ensures LinearBody(AsWritten, h, input) == Err(UnsupportedValue)
  {
    DetailsRefused(input);
  }

  // ---------------------------------------------------------------------------
  // Missions
  // ---------------------------------------------------------------------------

  /** The header waypoint of an assembled waypoint: its flight fields and actions. */
  function PartialOfWaypoint(w: Waypoint): (p: WaypointPartial)
    ensures KeepsFlight(p, w)
  {
    WaypointPartial(w.altitude, w.heading, w.latitude, w.longitude, w.curveSize, w.gimbalPitch, w.actions)
  }

  /** A mission a file can carry: counts that fit their u32, writable actions, no link
      that names the sentinel and no interval whose payload is the -1.0 marker. */
  predicate MissionWritable(m: Mission) {
    && |m.waypoints| < 0x1_0000_0000 && |m.poi| < 0x1_0000_0000
    && forall k | 0 <= k < |m.waypoints| ::
         && WaypointWritable(PartialOfWaypoint(m.waypoints[k]))
         && m.waypoints[k].poi != Some(NO_POI) && IntervalWritable(m.waypoints[k].interval)
  }

  /** A file for a mission: zero for the words the decoder drops, the link and the
      interval of each waypoint in its detail record and its interval tuple. */
  function MissionLayout(m: Mission): (f: MissionFile)
    ensures MissionWritable(m) ==> Writable(f)
    ensures |f.header.waypoints| == |m.waypoints| && f.header.poi == m.poi
  {
    var part := MissionPartial(0, m.finishAction, m.pathMode, m.cruisingSpeed, m.maxSpeed, [0, 0, 0, 0],
                               seq(|m.waypoints|, k requires 0 <= k < |m.waypoints| => PartialOfWaypoint(m.waypoints[k])),
                               m.poi);
    var ds := seq(|m.waypoints|, k requires 0 <= k < |m.waypoints| =>
                    WaypointDetails(0, F32(0), PoiCode(m.waypoints[k].poi)));
    var ps := seq(|m.poi|, k requires 0 <= k < |m.poi| => PoiDetails(0, F32(0)));
    var ivs := seq(|m.waypoints|, k requires 0 <= k < |m.waypoints| => ToTuple(m.waypoints[k].interval));
    MissionFile(part, ds, ps, OtherSettings(0, 0, 0, MINUS_ONE_F32, MINUS_ONE_F32), ivs)
  }

  /** The records of a mission's layout assemble back into the mission. */
  lemma LayoutAssembles(m: Mission)
    requires MissionWritable(m)
    ensures MissionOf(MissionLayout(m).header, MissionLayout(m).details, MissionLayout(m).intervals) == m
  {
    var f := MissionLayout(m);
    var x := MissionOf(f.header, f.details, f.intervals);
    forall k | 0 <= k < |m.waypoints|
      ensures x.waypoints[k] == m.waypoints[k]
    {
      PoiLinkRoundTrip(f.details[k].waypointPoi, m.waypoints[k].poi);
      FromTupleRoundTrip(m.waypoints[k].interval);
    }
    assert x.waypoints == m.waypoints;
  }

  /** With the u16 read, every writable mission is what `from_slice` gives for the
      bytes of its layout. */
  lemma MissionRoundTrip(m: Mission, t: seq<byte>)
    requires MissionWritable(m) && |FileThen(MissionLayout(m), t)| < 0x1_0000_0000
    ensures MissionFromBytes(WithU16, FileThen(MissionLayout(m), t)) == Ok(m)
  {
    FromSliceRoundTrip(MissionLayout(m), t);
    LayoutAssembles(m);
  }
}

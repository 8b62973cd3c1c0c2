/**
 * The decoders read their input front to back and look at nothing past what they
 * consume.
 *
 * Take any decoder and any input `x` it reads successfully, and cut `x` after its
 * first `k` bytes. When the cut keeps every byte the decoder consumed, the decoder
 * reads the same value from the cut and leaves the rest of the cut. When the cut drops
 * some of them, the decoder fails with a short read. So a strict prefix of a complete
 * mission file fails with Truncated and never decodes to some other mission.
 */
module PrefixReads {

  import opened Wrappers
  import opened Wire
  import opened BinError
  import opened BinDeserializer
  import opened BinTypes
  import opened Waypoints
  import opened Missions

  /** `long` is a decoder's outcome on `y + z` and `short` its outcome on `y`. What
      the decoder reads from `y` it reads from `y + z` as well, leaving `z` behind the
      same rest; a failure on `y` other than a short read is the failure on `y + z`. */
  ghost predicate Extends<T>(short: Outcome<Read<T>>, z: seq<byte>, long: Outcome<Read<T>>) {
    && (short.Ok? ==> long == Ok(Read(short.value.value, short.value.rest + z)))
    && (short.Err? && !short.error.Truncated? ==> long == short)
  }

  /** The same for a visitor over an access state. */
  ghost predicate StepExtends<T>(short: Outcome<Step<T>>, z: seq<byte>, long: Outcome<Step<T>>) {
    && (short.Ok? ==> long == Ok(Step(short.value.value, Access(short.value.acc.size, short.value.acc.input + z))))
    && (short.Err? && !short.error.Truncated? ==> long == short)
  }

  lemma PrependExtends<T>(xs: seq<T>, short: Outcome<Read<seq<T>>>, z: seq<byte>, long: Outcome<Read<seq<T>>>)
    requires Extends(short, z, long)
    ensures Extends(Prepend(xs, short), z, Prepend(xs, long))
  {
  }

  // ---------------------------------------------------------------------------
  // Primitive reads
  // ---------------------------------------------------------------------------

  lemma ReadU32Extends(y: seq<byte>, z: seq<byte>)
    ensures Extends(ReadU32(y), z, ReadU32(y + z))
  {
    if 4 <= |y| {
      assert (y + z)[..4] == y[..4] && (y + z)[4..] == y[4..] + z;
    }
  }

  lemma ReadF32Extends(y: seq<byte>, z: seq<byte>)
    ensures Extends(ReadF32(y), z, ReadF32(y + z))
  {
    if 4 <= |y| {
      assert (y + z)[..4] == y[..4] && (y + z)[4..] == y[4..] + z;
    }
  }

  lemma ReadF64Extends(y: seq<byte>, z: seq<byte>)
    ensures Extends(ReadF64(y), z, ReadF64(y + z))
  {
    if 8 <= |y| {
      assert (y + z)[..8] == y[..8] && (y + z)[8..] == y[8..] + z;
    }
  }

  lemma ReadU16Extends(y: seq<byte>, z: seq<byte>)
    ensures Extends(ReadU16(y), z, ReadU16(y + z))
  {
    if 2 <= |y| {
      assert (y + z)[..2] == y[..2] && (y + z)[2..] == y[2..] + z;
    }
  }

  lemma PrimExtends(d: Dialect, p: PrimKind, y: seq<byte>, z: seq<byte>)
    ensures Extends(DecodePrim(d, p, y), z, DecodePrim(d, p, y + z))
  {
    match p
    case U32 => ReadU32Extends(y, z);
    case I32 => ReadU32Extends(y, z);
    case Float => ReadF32Extends(y, z);
    case Double => ReadF64Extends(y, z);
    case Forward(_) => ReadU16Extends(y, z);
  }

  // ---------------------------------------------------------------------------
  // Shapes
  // ---------------------------------------------------------------------------

  lemma {:induction false} ShapeExtends(d: Dialect, s: Shape, y: seq<byte>, z: seq<byte>)
    ensures Extends(DecodeShape(d, s, y), z, DecodeShape(d, s, y + z))
    decreases s, 0
  {
    match s
    case Prim(p) => PrimExtends(d, p, y, z);
    case SeqOf(e) => SeqExtends(d, e, y, z);
    case TupleOf(fs) => FieldsExtends(d, fs, y, z);
    case StructOf(_, fs) => FieldsExtends(d, fs, y, z);
  }

  /** The count, then the elements after it. */
  lemma {:induction false} SeqExtends(d: Dialect, e: Shape, y: seq<byte>, z: seq<byte>)
    ensures Extends(DecodeShape(d, SeqOf(e), y), z, DecodeShape(d, SeqOf(e), y + z))
    decreases SeqOf(e), 0, 0
  {
    ReadU32Extends(y, z);
    var count := ReadU32(y);
    if count.Ok? {
      RepeatExtends(d, e, count.value.value, count.value.rest, z);
    }
  }

  lemma {:induction false} FieldsExtends(d: Dialect, fs: seq<Shape>, y: seq<byte>, z: seq<byte>)
    ensures Extends(DecodeFields(d, fs, y), z, DecodeFields(d, fs, y + z))
    decreases fs, 1
  {
    if fs != [] {
      ShapeExtends(d, fs[0], y, z);
      var first := DecodeShape(d, fs[0], y);
      if first.Ok? {
        FieldsExtends(d, fs[1..], first.value.rest, z);
      }
    }
  }

  lemma {:induction false} RepeatExtends(d: Dialect, e: Shape, count: nat, y: seq<byte>, z: seq<byte>)
    ensures Extends(DecodeRepeat(d, e, count, y), z, DecodeRepeat(d, e, count, y + z))
    decreases e, 1, count
  {
    if count > 0 {
      ShapeExtends(d, e, y, z);
      var first := DecodeShape(d, e, y);
      if first.Ok? {
        RepeatExtends(d, e, count - 1, first.value.rest, z);
      }
    }
  }

  // ---------------------------------------------------------------------------
  // Elements of a visitor, and waypoints
  // ---------------------------------------------------------------------------

  lemma NextValueExtends(d: Dialect, acc: Access, s: Shape, z: seq<byte>)
    ensures StepExtends(NextValue(d, acc, s), z, NextValue(d, Access(acc.size, acc.input + z), s))
  {
    ShapeExtends(d, s, acc.input, z);
  }

  lemma {:induction false} ActionPassExtends(d: Dialect, acc: Access, i: nat, n: nat, z: seq<byte>)
    ensures StepExtends(ActionPass(d, acc, i, n), z, ActionPass(d, Access(acc.size, acc.input + z), i, n))
    decreases n - i, 1
  {
    if i < n {
      NextValueExtends(d, acc, ACTION_PAIR, z);
      var next := NextValue(d, acc, ACTION_PAIR);
      if next.Ok? && next.value.value.Some? {
        ActionPassConsExtends(d, acc, i, n, z, next.value.value.value, next.value.acc);
      }
    }
  }

  lemma {:induction false} ActionPassConsExtends(d: Dialect, acc: Access, i: nat, n: nat, z: seq<byte>, x: Value,
                                                 after: Access)
    requires i < n && NextValue(d, acc, ACTION_PAIR) == Ok(Step(Some(x), after))
    requires NextValue(d, Access(acc.size, acc.input + z), ACTION_PAIR) == Ok(Step(Some(x), Access(after.size, after.input + z)))
    ensures StepExtends(ActionPass(d, acc, i, n), z, ActionPass(d, Access(acc.size, acc.input + z), i, n))
    decreases n - i, 0
  {
    ActionPassExtends(d, after, i + 1, n, z);
  }

  lemma VisitWaypointExtends(d: Dialect, acc: Access, z: seq<byte>)
    ensures StepExtends(VisitWaypoint(d, acc), z, VisitWaypoint(d, Access(acc.size, acc.input + z)))
  {
    NextValueExtends(d, acc, WAYPOINT_RAW, z);
    var raw := NextValue(d, acc, WAYPOINT_RAW);
    if raw.Ok? && raw.value.value.Some? {
      ActionPassExtends(d, raw.value.acc, 0, RawOf(raw.value.value.value).nbActions, z);
    }
  }

  lemma DecodeWaypointExtends(d: Dialect, y: seq<byte>, z: seq<byte>)
    ensures Extends(DecodeWaypoint(d, y), z, DecodeWaypoint(d, y + z))
  {
    VisitWaypointExtends(d, Access(TUPLE_MAX, y), z);
  }

  lemma {:induction false} WaypointRepeatExtends(d: Dialect, count: nat, y: seq<byte>, z: seq<byte>)
    ensures Extends(WaypointRepeat(d, count, y), z, WaypointRepeat(d, count, y + z))
    decreases count, 1
  {
    if count > 0 {
      DecodeWaypointExtends(d, y, z);
      var first := DecodeWaypoint(d, y);
      if first.Ok? {
        WaypointConsExtends(d, count - 1, y, y + z, z, first.value.value, first.value.rest);
      }
    }
  }

  /** A waypoint read from both inputs, then the `after` waypoints that follow it. */
  lemma {:induction false} WaypointConsExtends(d: Dialect, after: nat, y: seq<byte>, yz: seq<byte>, z: seq<byte>,
                                               w: WaypointPartial, rest: seq<byte>)
    requires DecodeWaypoint(d, y) == Ok(Read(w, rest)) && DecodeWaypoint(d, yz) == Ok(Read(w, rest + z))
    ensures Extends(WaypointRepeat(d, after + 1, y), z, WaypointRepeat(d, after + 1, yz))
    decreases after + 1, 0
  {
    WaypointRepeatExtends(d, after, rest, z);
    PrependExtends([w], WaypointRepeat(d, after, rest), z, WaypointRepeat(d, after, rest + z));
  }

  lemma DecodeWaypointsExtends(d: Dialect, y: seq<byte>, z: seq<byte>)
    ensures Extends(DecodeWaypoints(d, y), z, DecodeWaypoints(d, y + z))
  {
    ReadU32Extends(y, z);
    var count := ReadU32(y);
    if count.Ok? {
      WaypointRepeatExtends(d, count.value.value, count.value.rest, z);
    }
  }

  // ---------------------------------------------------------------------------
  // The header and the file
  // ---------------------------------------------------------------------------

  lemma FinishActionExtends(y: seq<byte>, z: seq<byte>)
    ensures Extends(DecodeFinishAction(y), z, DecodeFinishAction(y + z))
  {
    ReadU32Extends(y, z);
  }

  lemma PathModeExtends(y: seq<byte>, z: seq<byte>)
    ensures Extends(DecodePathMode(y), z, DecodePathMode(y + z))
  {
    ReadU32Extends(y, z);
  }

  lemma HeaderSeqsExtends(d: Dialect, plop: u32, finish: FinishAction, path: PathMode, cruising: F32, max: F32,
                          b: seq<u32>, y: seq<byte>, z: seq<byte>)
    ensures Extends(DecodeHeaderSeqs(d, plop, finish, path, cruising, max, b, y), z,
                    DecodeHeaderSeqs(d, plop, finish, path, cruising, max, b, y + z))
  {
    DecodeWaypointsExtends(d, y, z);
    var ws := DecodeWaypoints(d, y);
    if ws.Ok? {
      ShapeExtends(d, SeqOf(POINT_OF_INTEREST), ws.value.rest, z);
    }
  }

  lemma HeaderListsExtends(d: Dialect, plop: u32, finish: FinishAction, path: PathMode, cruising: F32, max: F32,
                           y: seq<byte>, z: seq<byte>)
    ensures Extends(DecodeHeaderLists(d, plop, finish, path, cruising, max, y), z,
                    DecodeHeaderLists(d, plop, finish, path, cruising, max, y + z))
  {
    ShapeExtends(d, PADDING, y, z);
    var b := DecodeShape(d, PADDING, y);
    if b.Ok? {
      HeaderSeqsExtends(d, plop, finish, path, cruising, max, PaddingOf(b.value.value), b.value.rest, z);
    }
  }

  lemma HeaderExtends(d: Dialect, y: seq<byte>, z: seq<byte>)
    ensures Extends(DecodeHeader(d, y), z, DecodeHeader(d, y + z))
  {
    ReadU32Extends(y, z);
    var plop := ReadU32(y);
    if plop.Ok? {
      FinishActionExtends(plop.value.rest, z);
      var finish := DecodeFinishAction(plop.value.rest);
      if finish.Ok? {
        PathModeExtends(finish.value.rest, z);
        var path := DecodePathMode(finish.value.rest);
        if path.Ok? {
          ReadF32Extends(path.value.rest, z);
          var cruising := ReadF32(path.value.rest);
          if cruising.Ok? {
            ReadF32Extends(cruising.value.rest, z);
            var max := ReadF32(cruising.value.rest);
            if max.Ok? {
              HeaderListsExtends(d, plop.value.value, finish.value.value, path.value.value, cruising.value.value,
                                 max.value.value, max.value.rest, z);
              assert DecodeHeader(d, y + z) == DecodeHeaderLists(d, plop.value.value, finish.value.value,
                path.value.value, cruising.value.value, max.value.value, max.value.rest + z);
            }
          }
        }
      }
    }
  }

  lemma TailExtends(d: Dialect, part: MissionPartial, details: seq<WaypointDetails>, y: seq<byte>, z: seq<byte>)
    ensures Extends(LinearTail(d, part, details, y), z, LinearTail(d, part, details, y + z))
  {
    ShapeExtends(d, OTHER_SETTINGS, y, z);
    var settings := DecodeShape(d, OTHER_SETTINGS, y);
    if settings.Ok? {
      RepeatExtends(d, INTERVAL, |part.waypoints|, settings.value.rest, z);
    }
  }

  lemma BodyExtends(d: Dialect, part: MissionPartial, y: seq<byte>, z: seq<byte>)
    ensures Extends(LinearBody(d, part, y), z, LinearBody(d, part, y + z))
  {
    RepeatExtends(d, WAYPOINT_DETAILS, |part.waypoints|, y, z);
    var details := DecodeRepeat(d, WAYPOINT_DETAILS, |part.waypoints|, y);
    if details.Ok? {
      RepeatExtends(d, POI_DETAILS, |part.poi|, details.value.rest, z);
      var poiDetails := DecodeRepeat(d, POI_DETAILS, |part.poi|, details.value.rest);
      if poiDetails.Ok? {
        TailExtends(d, part, DetailsList(details.value.value), poiDetails.value.rest, z);
      }
    }
  }

  /** The whole file layout reads front to back. */
  lemma MissionExtends(d: Dialect, y: seq<byte>, z: seq<byte>)
    ensures Extends(LinearMission(d, y), z, LinearMission(d, y + z))
  {
    ReadU32Extends(y, z);
    var magic := ReadU32(y);
    if magic.Ok? && magic.value.value == MAGIC {
      HeaderExtends(d, magic.value.rest, z);
      var header := DecodeHeader(d, magic.value.rest);
      if header.Ok? {
        BodyExtends(d, header.value.value, header.value.rest, z);
      }
    }
  }

  /** A mission layout read to its last byte: every strict prefix of it is a short
      read, never a different mission. */
  lemma MissionPrefixFails(d: Dialect, x: seq<byte>, k: nat)
    requires k < |x| && LinearMission(d, x).Ok? && LinearMission(d, x).value.rest == []
    ensures LinearMission(d, x[..k]).Err? && LinearMission(d, x[..k]).error.Truncated?
  {
    SplitAt(x, k);
    MissionExtends(d, x[..k], x[k..]);
  }

  /** A layout whose magic number and header read, cut short before the header ends,
      is a short read. */
  lemma HeaderPrefixFails(d: Dialect, x: seq<byte>, k: nat, r: seq<byte>, h: MissionPartial, body: seq<byte>)
    requires ReadU32(x) == Ok(Read(MAGIC, r)) && DecodeHeader(d, r) == Ok(Read(h, body))
    requires k + |body| < |x|
    ensures LinearMission(d, x[..k]).Err? && LinearMission(d, x[..k]).error.Truncated?
  {
    SplitAt(x, k);
    CutFails(d, x[..k], x[k..], r, h, body);
  }

  lemma SplitAt(x: seq<byte>, k: nat)
    requires k <= |x|
    ensures x[..k] + x[k..] == x
  {
  }

  /** The same, with the cut made: `z` is the part cut off, longer than what follows
      the header. */
  lemma CutFails(d: Dialect, y: seq<byte>, z: seq<byte>, r: seq<byte>, h: MissionPartial, body: seq<byte>)
    requires ReadU32(y + z) == Ok(Read(MAGIC, r)) && DecodeHeader(d, r) == Ok(Read(h, body))
    requires |body| < |z|
    ensures LinearMission(d, y).Err? && LinearMission(d, y).error.Truncated?
  {
    ReadU32Extends(y, z);
    if 4 <= |y| {
      HeaderCutFails(d, y, y[4..], z, r, h, body);
    }
  }

  /** The magic number read whole and the header cut: the header read runs short. */
  lemma HeaderCutFails(d: Dialect, y: seq<byte>, yr: seq<byte>, z: seq<byte>, r: seq<byte>, h: MissionPartial,
                       body: seq<byte>)
    requires ReadU32(y) == Ok(Read(MAGIC, yr)) && yr + z == r
    requires DecodeHeader(d, r) == Ok(Read(h, body)) && |body| < |z|
    ensures LinearMission(d, y).Err? && LinearMission(d, y).error.Truncated?
  {
    HeaderExtends(d, yr, z);
  }
}

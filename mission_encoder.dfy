/**
 * The mission file layout, written out record by record: the partner of the mission
 * decoder.
 *
 * Every writer here takes the bytes that follow what it writes (`t`), so that the
 * round trips read "decoding the bytes of x followed by t gives x and leaves t". The
 * u16 detail fields of a mission file are where the source dialect and the corrected
 * one part: with the u16 read the written file decodes to its mission, while as
 * written only files without waypoints and without points of interest do.
 */
module MissionEncoder {

  import opened Wrappers
  import opened Wire
  import opened BinError
  import opened BinDeserializer
  import opened BinEncoder
  import opened BinTypes
  import opened Litchi
  import opened Waypoints
  import opened Missions

  // ---------------------------------------------------------------------------
  // Actions and waypoints
  // ---------------------------------------------------------------------------

  /** The (code, value) tuple an action is written as. */
  function PairValue(a: Action): (v: Value)
    requires ActionEncodable(a)
    ensures Conforms(v, ACTION_PAIR) && Encodable(v, ACTION_PAIR) && PairOf(v) == ActionPair(a)
  {
    var v := Items([Unsigned(ActionPair(a).0), Unsigned(ActionPair(a).1)]);
    ActionPairWidth(AsWritten);
    FixedIsEncodable(AsWritten, ACTION_PAIR, v);
    v
  }

  /** A waypoint a file can hold: its actions fit the waypoint's tuple budget after the
      raw record, and each has a (code, value) pair. */
  predicate WaypointWritable(w: WaypointPartial) {
    |w.actions| < TUPLE_MAX && forall k | 0 <= k < |w.actions| :: ActionEncodable(w.actions[k])
  }

  /** The tuples of a list of actions. */
  function PairValues(acts: seq<Action>): (vs: seq<Value>)
    requires forall k | 0 <= k < |acts| :: ActionEncodable(acts[k])
    ensures |vs| == |acts| && EachEncodable(vs, ACTION_PAIR)
  {
    var vs := seq(|acts|, k requires 0 <= k < |acts| => PairValue(acts[k]));
    ActionPairWidth(AsWritten);
    EachFixedIsEncodable(AsWritten, ACTION_PAIR, vs);
    vs
  }

  /** The actions' pairs, then `t`. */
  function ActionsThen(acts: seq<Action>, t: seq<byte>): seq<byte>
    requires forall k | 0 <= k < |acts| :: ActionEncodable(acts[k])
  {
    EncodeRepeat(ACTION_PAIR, PairValues(acts)) + t
  }

  /** Each of `vs` is a tuple whose pair is the action at the same index of `acts`. */
  predicate PairsRead(vs: seq<Value>, acts: seq<Action>) {
    |vs| == |acts| &&
    (vs == [] || (Conforms(vs[0], ACTION_PAIR) && ActionOf(PairOf(vs[0]).0, PairOf(vs[0]).1) == Ok(acts[0])
                  && PairsRead(vs[1..], acts[1..])))
  }

  /** The tuples of written actions have the pairs of those actions. */
  lemma {:induction false} PairValuesRead(acts: seq<Action>)
    requires forall k | 0 <= k < |acts| :: ActionEncodable(acts[k])
    ensures PairsRead(PairValues(acts), acts)
    decreases |acts|
  {
    if acts != [] {
      PairValuesRead(acts[1..]);
      assert PairValues(acts)[1..] == PairValues(acts[1..]);
      ActionRoundTrip(acts[0]);
    }
  }

  /** A pass from `i` to `n`, with the budget to spare, over input whose next `n - i`
      tuples are `vs`, reads the actions of those tuples. */
  lemma {:induction false} ActionPassOfPairs(d: Dialect, acc: Access, i: nat, n: nat, vs: seq<Value>, rest: seq<byte>,
                                             acts: seq<Action>, last: Access)
    requires i + |vs| == n && last.size + |vs| == acc.size && last.input == rest && PairsRead(vs, acts)
    requires DecodeRepeat(d, ACTION_PAIR, |vs|, acc.input) == Ok(Read(vs, rest))
    ensures ActionPass(d, acc, i, n) == Ok(Step(acts, last))
    decreases |vs|
  {
    if vs == [] {
      assert acc == last;
    } else {
      var first := DecodeShape(d, ACTION_PAIR, acc.input).value;
      var next := Access(acc.size - 1, first.rest);
      var v, a, more := vs[0], acts[0], acts[1..];
      assert [a] + more == acts;
      RepeatUncons(d, ACTION_PAIR, |vs|, acc.input, vs, rest);
      ActionPassOfPairs(d, next, i + 1, n, vs[1..], rest, more, last);
      ActionPassStep(d, acc, i, n, v, next, a, more, last);
    }
  }

  /** The first element of a successful repeat, then the others. */
  lemma RepeatUncons(d: Dialect, e: Shape, count: nat, input: seq<byte>, vs: seq<Value>, rest: seq<byte>)
    requires count > 0 && DecodeRepeat(d, e, count, input) == Ok(Read(vs, rest))
    ensures DecodeShape(d, e, input).Ok? && DecodeShape(d, e, input).value.value == vs[0]
    ensures DecodeRepeat(d, e, count - 1, DecodeShape(d, e, input).value.rest) == Ok(Read(vs[1..], rest))
  {
    var first := DecodeShape(d, e, input).value;
    var others := DecodeRepeat(d, e, count - 1, first.rest).value;
    assert vs == [first.value] + others.value;
  }

  /** One step of the pass: the tuple `v` read, its action, then the rest of the pass. */
  lemma ActionPassStep(d: Dialect, acc: Access, i: nat, n: nat, v: Value, next: Access, a: Action,
                       more: seq<Action>, last: Access)
    requires i < n && acc.size > 0 && next.size + 1 == acc.size
    requires DecodeShape(d, ACTION_PAIR, acc.input) == Ok(Read(v, next.input))
    requires Conforms(v, ACTION_PAIR) && ActionOf(PairOf(v).0, PairOf(v).1) == Ok(a)
    requires ActionPass(d, next, i + 1, n) == Ok(Step(more, last))
    ensures ActionPass(d, acc, i, n) == Ok(Step([a] + more, last))
  {
    NextValueOk(d, acc, ACTION_PAIR, v, next);
  }

  /** The pass over the pairs of `acts` reads the actions back, one budget element
      each, and leaves `t`. */
  lemma ActionPassRoundTrip(d: Dialect, acts: seq<Action>, left: nat, size: nat, i: nat, n: nat,
                            input: seq<byte>, t: seq<byte>)
    requires forall k | 0 <= k < |acts| :: ActionEncodable(acts[k])
    requires i + |acts| == n && left + |acts| == size
    requires DecodeRepeat(d, ACTION_PAIR, |acts|, input) == Ok(Read(PairValues(acts), t))
    ensures ActionPass(d, Access(size, input), i, n) == Ok(Step(acts, Access(left, t)))
  {
    var acc, vs, last := Access(size, input), PairValues(acts), Access(left, t);
    PairValuesRead(acts);
    ActionPassOfPairs(d, acc, i, n, vs, t, acts, last);
  }

  /** The encoded pairs of the actions of a waypoint read back as those pairs. */
  lemma ActionsDecode(d: Dialect, acts: seq<Action>, t: seq<byte>)
    requires forall k | 0 <= k < |acts| :: ActionEncodable(acts[k])
    ensures DecodeRepeat(d, ACTION_PAIR, |acts|, ActionsThen(acts, t)) == Ok(Read(PairValues(acts), t))
  {
    var vs := PairValues(acts);
    ActionPairWidth(d);
    FixedIsReadable(d, ACTION_PAIR);
    RepeatRoundTrip(d, ACTION_PAIR, vs, t);
  }

  /** The raw record of a waypoint: its flight fields, zero padding and the number of
      its actions. */
  function RawFor(w: WaypointPartial): (raw: WaypointRaw)
    requires WaypointWritable(w)
    ensures PartialOf(raw, w.actions) == w && raw.nbActions as nat == |w.actions|
  {
    WaypointRaw(w.altitude, 0, w.heading, 0, 0, w.latitude, w.longitude, w.curveSize, 0,
                w.gimbalPitch, |w.actions| as u32, 0)
  }

  /** The 56 bytes of a raw waypoint record. */
  function RawBytes(raw: WaypointRaw): seq<byte> {
    WaypointRawFixed(AsWritten);
    FixedIsEncodable(AsWritten, WAYPOINT_RAW, RawValue(raw));
    EncodeShape(WAYPOINT_RAW, RawValue(raw))
  }

  /** A waypoint's raw record and its action pairs, then `t`. */
  function WaypointThen(w: WaypointPartial, t: seq<byte>): seq<byte>
    requires WaypointWritable(w)
  {
    RawBytes(RawFor(w)) + ActionsThen(w.actions, t)
  }

  /** A written waypoint reads back as itself, in any dialect. */
  lemma WaypointRoundTrip(d: Dialect, w: WaypointPartial, t: seq<byte>)
    requires WaypointWritable(w)
    ensures DecodeWaypoint(d, WaypointThen(w, t)) == Ok(Read(w, t))
  {
    var input, later, left: nat := WaypointThen(w, t), ActionsThen(w.actions, t), TUPLE_MAX - 1 - |w.actions|;
    ActionsDecode(d, w.actions, t);
    ActionPassRoundTrip(d, w.actions, left, TUPLE_MAX - 1, 0, |w.actions|, later, t);
    RawFromFront(d, w, t);
    VisitWaypointStep(d, Access(TUPLE_MAX, input), RawFor(w), Access(TUPLE_MAX - 1, later), w.actions, Access(left, t));
  }

  /** The raw record at the front is the first element of the waypoint's tuple. */
  lemma RawFromFront(d: Dialect, w: WaypointPartial, t: seq<byte>)
    requires WaypointWritable(w)
    ensures NextValue(d, Access(TUPLE_MAX, WaypointThen(w, t)), WAYPOINT_RAW)
            == Ok(Step(Some(RawValue(RawFor(w))), Access(TUPLE_MAX - 1, ActionsThen(w.actions, t))))
  {
    RawRecordFromFront(d, RawFor(w), ActionsThen(w.actions, t));
  }

  /** The bytes of a raw record at the front are the first element of a waypoint's
      tuple. */
  lemma RawRecordFromFront(d: Dialect, raw: WaypointRaw, later: seq<byte>)
    ensures NextValue(d, Access(TUPLE_MAX, RawBytes(raw) + later), WAYPOINT_RAW)
            == Ok(Step(Some(RawValue(raw)), Access(TUPLE_MAX - 1, later)))
  {
    var v, input := RawValue(raw), RawBytes(raw) + later;
    WaypointRawFixed(d);
    FixedIsReadable(d, WAYPOINT_RAW);
    FixedIsEncodable(d, WAYPOINT_RAW, v);
    ValueFromFront(d, WAYPOINT_RAW, v, later, Access(TUPLE_MAX, input), Access(TUPLE_MAX - 1, later));
  }

  /** An encoded value at the front of the input is the next element of a visitor with
      elements left. */
  lemma ValueFromFront(d: Dialect, s: Shape, v: Value, later: seq<byte>, acc: Access, after: Access)
    requires Readable(d, s) && Encodable(v, s) && acc.size > 0 && after == Access(acc.size - 1, later)
    requires acc.input == EncodeShape(s, v) + later
    ensures NextValue(d, acc, s) == Ok(Step(Some(v), after))
  {
    ShapeRoundTrip(d, s, v, later);
    NextValueOk(d, acc, s, v, after);
  }

  /** The waypoint visitor: the raw record, then its actions. */
  lemma VisitWaypointStep(d: Dialect, acc: Access, raw: WaypointRaw, after: Access, acts: seq<Action>, last: Access)
    requires NextValue(d, acc, WAYPOINT_RAW) == Ok(Step(Some(RawValue(raw)), after))
    requires ActionPass(d, after, 0, raw.nbActions as nat) == Ok(Step(acts, last))
    ensures VisitWaypoint(d, acc) == Ok(Step(PartialOf(raw, acts), last))
    ensures acc.size == TUPLE_MAX ==> DecodeWaypoint(d, acc.input) == Ok(Read(PartialOf(raw, acts), last.input))
  {
  }

  /** The waypoints one after the other, then `t`. */
  function WaypointListThen(ws: seq<WaypointPartial>, t: seq<byte>): seq<byte>
    requires forall k | 0 <= k < |ws| :: WaypointWritable(ws[k])
  {
    if ws == [] then t else WaypointThen(ws[0], WaypointListThen(ws[1..], t))
  }

  /** One waypoint, then the rest of the count. */
  lemma WaypointRepeatCons(d: Dialect, count: nat, input: seq<byte>, w: WaypointPartial, rest: seq<byte>,
                           more: seq<WaypointPartial>, t: seq<byte>)
    requires count > 0 && DecodeWaypoint(d, input) == Ok(Read(w, rest))
    requires WaypointRepeat(d, count - 1, rest) == Ok(Read(more, t))
    ensures WaypointRepeat(d, count, input) == Ok(Read([w] + more, t))
  {
  }

  /** Inputs `ins` where each waypoint of `ws` reads from one input and leaves the next
      are read, `|ws|` in a row, as `ws`, leaving the last input. */
  lemma {:induction false} WaypointChain(d: Dialect, ws: seq<WaypointPartial>, ins: seq<seq<byte>>)
    requires |ins| == |ws| + 1
    requires forall k | 0 <= k < |ws| :: DecodeWaypoint(d, ins[k]) == Ok(Read(ws[k], ins[k + 1]))
    ensures WaypointRepeat(d, |ws|, ins[0]) == Ok(Read(ws, ins[|ws|]))
    decreases |ws|
  {
    if ws != [] {
      var w, more, input, rest, t := ws[0], ws[1..], ins[0], ins[1], ins[|ws|];
      assert [w] + more == ws;
      assert DecodeWaypoint(d, input) == Ok(Read(w, rest));
      WaypointChain(d, more, ins[1..]);
      WaypointRepeatCons(d, |ws|, input, w, rest, more, t);
    }
  }

  /** The encoding of the waypoints from `k` on is that of waypoint `k`, then the
      encoding of those after it. */
  lemma ListThenStep(ws: seq<WaypointPartial>, k: nat, t: seq<byte>)
    requires k < |ws| && forall j | 0 <= j < |ws| :: WaypointWritable(ws[j])
    ensures WaypointListThen(ws[k..], t) == WaypointThen(ws[k], WaypointListThen(ws[k + 1..], t))
  {
    assert ws[k..][1..] == ws[k + 1..];
  }

  lemma WaypointRepeatRoundTrip(d: Dialect, ws: seq<WaypointPartial>, t: seq<byte>)
    requires forall k | 0 <= k < |ws| :: WaypointWritable(ws[k])
    ensures WaypointRepeat(d, |ws|, WaypointListThen(ws, t)) == Ok(Read(ws, t))
  {
    var ins := seq(|ws| + 1, k requires 0 <= k <= |ws| => WaypointListThen(ws[k..], t));
    forall k | 0 <= k < |ws|
      ensures DecodeWaypoint(d, ins[k]) == Ok(Read(ws[k], ins[k + 1]))
    {
      var w, rest := ws[k], WaypointListThen(ws[k + 1..], t);
      ListThenStep(ws, k, t);
      WaypointRoundTrip(d, w, rest);
    }
    assert ws[0..] == ws && ws[|ws|..] == [];
    WaypointChain(d, ws, ins);
  }

  /** `Vec<WaypointPartial>`: the count, then the waypoints, then `t`. */
  function WaypointsThen(ws: seq<WaypointPartial>, t: seq<byte>): seq<byte>
    requires |ws| < 0x1_0000_0000 && forall k | 0 <= k < |ws| :: WaypointWritable(ws[k])
  {
    Pow256Widths();
    BeBytes(|ws|, 4) + WaypointListThen(ws, t)
  }

  lemma WaypointsRoundTrip(d: Dialect, ws: seq<WaypointPartial>, t: seq<byte>)
    requires |ws| < 0x1_0000_0000 && forall k | 0 <= k < |ws| :: WaypointWritable(ws[k])
    ensures DecodeWaypoints(d, WaypointsThen(ws, t)) == Ok(Read(ws, t))
  {
    Pow256Widths();
    ReadU32Written(|ws|, WaypointListThen(ws, t));
    WaypointRepeatRoundTrip(d, ws, t);
  }

  // ---------------------------------------------------------------------------
  // The header
  // ---------------------------------------------------------------------------

  /** A header a file can hold: four padding words, counts that fit their u32 and
      writable waypoints. */
  predicate HeaderWritable(part: MissionPartial) {
    && |part.b| == 4
    && |part.waypoints| < 0x1_0000_0000 && (forall k | 0 <= k < |part.waypoints| :: WaypointWritable(part.waypoints[k]))
    && |part.poi| < 0x1_0000_0000
  }

  /** The four padding words as a `[u32; 4]` value. */
  function PaddingValue(b: seq<u32>): (v: Value)
    requires |b| == 4
    ensures Encodable(v, PADDING)
  {
    var v := Items([Unsigned(b[0]), Unsigned(b[1]), Unsigned(b[2]), Unsigned(b[3])]);
    FixedIsEncodable(AsWritten, PADDING, v);
    v
  }

  /** The padding reads back as the same four words. */
  lemma PaddingRoundTrip(d: Dialect, b: seq<u32>, t: seq<byte>)
    requires |b| == 4
    ensures DecodeShape(d, PADDING, EncodeShape(PADDING, PaddingValue(b)) + t) == Ok(Read(PaddingValue(b), t))
    ensures Conforms(PaddingValue(b), PADDING) && PaddingOf(PaddingValue(b)) == b
  {
    var v := PaddingValue(b);
    assert v.items == [Unsigned(b[0]), Unsigned(b[1]), Unsigned(b[2]), Unsigned(b[3])];
    assert PaddingOf(v) == [b[0], b[1], b[2], b[3]];
    assert b == [b[0], b[1], b[2], b[3]];
    FixedIsReadable(d, PADDING);
    ShapeRoundTrip(d, PADDING, v, t);
  }

  /** The points of interest as a `Vec<PointOfInterest>` value. */
  function PoisValue(pois: seq<PointOfInterest>): (v: Value)
    requires |pois| < 0x1_0000_0000
    ensures Encodable(v, SeqOf(POINT_OF_INTEREST))
  {
    var items := seq(|pois|, k requires 0 <= k < |pois| => PointOfInterestValue(pois[k]));
    PointOfInterestWidth(AsWritten);
    EachFixedIsEncodable(AsWritten, POINT_OF_INTEREST, items);
    Items(items)
  }

  /** The count of the points of interest and their records, then `t`. */
  function PoisThen(pois: seq<PointOfInterest>, t: seq<byte>): seq<byte>
    requires |pois| < 0x1_0000_0000
  {
    EncodeShape(SeqOf(POINT_OF_INTEREST), PoisValue(pois)) + t
  }

  /** The points of interest read back as themselves, in any dialect. */
  lemma PoisRoundTrip(d: Dialect, pois: seq<PointOfInterest>, t: seq<byte>)
    requires |pois| < 0x1_0000_0000
    ensures DecodeShape(d, SeqOf(POINT_OF_INTEREST), PoisThen(pois, t)) == Ok(Read(PoisValue(pois), t))
    ensures forall k | 0 <= k < |PoisValue(pois).items| :: Conforms(PoisValue(pois).items[k], POINT_OF_INTEREST)
    ensures PoiList(PoisValue(pois).items) == pois
  {
    PointOfInterestWidth(d);
    FixedIsReadable(d, POINT_OF_INTEREST);
    ShapeRoundTrip(d, SeqOf(POINT_OF_INTEREST), PoisValue(pois), t);
  }

  /** The padding, the waypoints and the points of interest of a header, then `t`. */
  function HeaderListsThen(part: MissionPartial, t: seq<byte>): seq<byte>
    requires HeaderWritable(part)
  {
    EncodeShape(PADDING, PaddingValue(part.b)) + WaypointsThen(part.waypoints, PoisThen(part.poi, t))
  }

  /** The eight header fields one after the other, then `t`. */
  function HeaderThen(part: MissionPartial, t: seq<byte>): seq<byte>
    requires HeaderWritable(part)
  {
    Pow256Widths();
    BeBytes(part.plop, 4) + (BeBytes(FinishActionCode(part.finishAction), 4) + (BeBytes(PathModeCode(part.pathMode), 4)
      + (BeBytes(part.cruisingSpeed.bits, 4) + (BeBytes(part.maxSpeed.bits, 4) + HeaderListsThen(part, t)))))
  }

  /** The bytes of a waypoint list do not depend on what follows them. */
  lemma {:induction false} WaypointListAppends(ws: seq<WaypointPartial>, t: seq<byte>)
    requires forall k | 0 <= k < |ws| :: WaypointWritable(ws[k])
    ensures WaypointListThen(ws, t) == WaypointListThen(ws, []) + t
    decreases |ws|
  {
    if ws != [] {
      var w, u := ws[0], WaypointListThen(ws[1..], []);
      WaypointListAppends(ws[1..], t);
      WaypointAppends(w, u, t);
    }
  }

  lemma WaypointAppends(w: WaypointPartial, u: seq<byte>, t: seq<byte>)
    requires WaypointWritable(w)
    ensures WaypointThen(w, u + t) == WaypointThen(w, u) + t
  {
    var pairs := EncodeRepeat(ACTION_PAIR, PairValues(w.actions));
    AppendsAfter(pairs, u, t);
    AppendsAfter(RawBytes(RawFor(w)), pairs + u, t);
  }

  /** The bytes of a header do not depend on what follows them. */
  lemma HeaderAppends(part: MissionPartial, t: seq<byte>)
    requires HeaderWritable(part)
    ensures HeaderThen(part, t) == HeaderThen(part, []) + t
  {
    var lists := HeaderListsThen(part, []);
    ListsAppends(part, t);
    Pow256Widths();
    var a, b, c := BeBytes(part.plop, 4), BeBytes(FinishActionCode(part.finishAction), 4),
                   BeBytes(PathModeCode(part.pathMode), 4);
    var e, g := BeBytes(part.cruisingSpeed.bits, 4), BeBytes(part.maxSpeed.bits, 4);
    var l1 := g + lists;
    AppendsAfter(g, lists, t);
    var l2 := e + l1;
    AppendsAfter(e, l1, t);
    var l3 := c + l2;
    AppendsAfter(c, l2, t);
    var l4 := b + l3;
    AppendsAfter(b, l3, t);
    AppendsAfter(a, l4, t);
  }

  lemma ListsAppends(part: MissionPartial, t: seq<byte>)
    requires HeaderWritable(part)
    ensures HeaderListsThen(part, t) == HeaderListsThen(part, []) + t
  {
    var ws, q := part.waypoints, PoisThen(part.poi, []);
    PoisAppends(part.poi, t);
    WaypointsAppends(ws, q, t);
    AppendsAfter(EncodeShape(PADDING, PaddingValue(part.b)), WaypointsThen(ws, q), t);
  }

  lemma PoisAppends(pois: seq<PointOfInterest>, t: seq<byte>)
    requires |pois| < 0x1_0000_0000
    ensures PoisThen(pois, t) == PoisThen(pois, []) + t
  {
  }

  lemma WaypointsAppends(ws: seq<WaypointPartial>, q: seq<byte>, t: seq<byte>)
    requires |ws| < 0x1_0000_0000 && forall k | 0 <= k < |ws| :: WaypointWritable(ws[k])
    ensures WaypointsThen(ws, q + t) == WaypointsThen(ws, q) + t
  {
    var w := WaypointListThen(ws, []);
    WaypointListAppends(ws, q + t);
    WaypointListAppends(ws, q);
    AppendsAfter(w, q, t);
    Pow256Widths();
    AppendsAfter(BeBytes(|ws|, 4), w + q, t);
  }

  lemma AppendsAfter(x: seq<byte>, y: seq<byte>, t: seq<byte>)
    ensures x + (y + t) == (x + y) + t
  {
  }

  /** A written finish action reads back as itself. */
  lemma FinishActionWritten(f: FinishAction, t: seq<byte>)
    ensures DecodeFinishAction(BeBytes(FinishActionCode(f), 4) + t) == Ok(Read(f, t))
  {
    ReadU32Written(FinishActionCode(f), t);
    FinishActionRoundTrip(f);
  }

  /** A written path mode reads back as itself. */
  lemma PathModeWritten(p: PathMode, t: seq<byte>)
    ensures DecodePathMode(BeBytes(PathModeCode(p), 4) + t) == Ok(Read(p, t))
  {
    ReadU32Written(PathModeCode(p), t);
    PathModeRoundTrip(p);
  }

  /** The two sequences of the header read back as the header's own. */
  lemma HeaderSeqsRoundTrip(d: Dialect, part: MissionPartial, t: seq<byte>)
    requires HeaderWritable(part)
    ensures DecodeHeaderSeqs(d, part.plop, part.finishAction, part.pathMode, part.cruisingSpeed, part.maxSpeed,
                             part.b, WaypointsThen(part.waypoints, PoisThen(part.poi, t))) == Ok(Read(part, t))
  {
    var mid := PoisThen(part.poi, t);
    PoisRoundTrip(d, part.poi, t);
    WaypointsRoundTrip(d, part.waypoints, mid);
  }

  lemma HeaderListsRoundTrip(d: Dialect, part: MissionPartial, t: seq<byte>)
    requires HeaderWritable(part)
    ensures DecodeHeaderLists(d, part.plop, part.finishAction, part.pathMode, part.cruisingSpeed, part.maxSpeed,
                              HeaderListsThen(part, t)) == Ok(Read(part, t))
  {
    var rest := WaypointsThen(part.waypoints, PoisThen(part.poi, t));
    HeaderSeqsRoundTrip(d, part, t);
    PaddingRoundTrip(d, part.b, rest);
  }

  /** A written header reads back as itself, in any dialect. */
  lemma HeaderRoundTrip(d: Dialect, part: MissionPartial, t: seq<byte>)
    requires HeaderWritable(part)
    ensures DecodeHeader(d, HeaderThen(part, t)) == Ok(Read(part, t))
  {
    Pow256Widths();
    var t5 := HeaderListsThen(part, t);
    var t4 := BeBytes(part.maxSpeed.bits, 4) + t5;
    var t3 := BeBytes(part.cruisingSpeed.bits, 4) + t4;
    var t2 := BeBytes(PathModeCode(part.pathMode), 4) + t3;
    var t1 := BeBytes(FinishActionCode(part.finishAction), 4) + t2;
    ReadU32Written(part.plop, t1);
    FinishActionWritten(part.finishAction, t2);
    PathModeWritten(part.pathMode, t3);
    ReadF32Written(part.cruisingSpeed, t4);
    ReadF32Written(part.maxSpeed, t5);
    HeaderListsRoundTrip(d, part, t);
  }
}

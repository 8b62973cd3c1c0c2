/**
 * The composed-field conversions of the CSV reader (src/litchi/csv/de/helpers.rs).
 *
 * A CSV row carries some values as several optional columns; each helper record
 * gathers those columns, and a `TryFrom` conversion turns it into a typed value or a
 * ComposedFieldError. Floats are opaque bit patterns.
 */
module CsvHelpers {

  import opened Wrappers
  import opened Wire
  import opened Litchi

  datatype ComposedFieldError = MissingParameter | UnknownType

  datatype Altitude = AboveGround(aboveGround: u16) | Absolute(absolute: u16)

  datatype Coordinates = Coordinates(latitude: F64, longitude: F64, altitude: Altitude)

  datatype GimbalSettings = FocusPoi(focusPitch: F64) | Interpolate(interpolatePitch: F64)

  datatype AltitudeHelper = AltitudeHelper(mode: Option<u8>, height: Option<u16>)

  datatype CoordinatesHelper = CoordinatesHelper(latitude: Option<F64>, longitude: Option<F64>, altitude: AltitudeHelper)

  datatype GimbalModeHelper = GimbalModeHelper(mode: Option<u8>, pitchAngle: Option<F64>)

  datatype ActionHelper = ActionHelper(actionType: Option<i8>, actionParam: Option<isize>)

  // ---------------------------------------------------------------------------
  // Altitude
  // ---------------------------------------------------------------------------

  /** `TryFrom<AltitudeHelper> for Altitude`: the height is required first, then mode
      0 is absolute and mode 1 above ground. */
  function AltitudeTryFrom(h: AltitudeHelper): (r: Result<Altitude, ComposedFieldError>)
    ensures r == Err(MissingParameter) <==> h.height.None? || h.mode.None?
    ensures r == Err(UnknownType) <==> h.height.Some? && h.mode.Some? && h.mode.value > 1
    ensures r.Ok? ==> h.height.Some? && h.mode.Some?
    ensures r.Ok? && r.value.Absolute? <==> r.Ok? && h.mode == Some(0)
    ensures r.Ok? ==> (if r.value.Absolute? then r.value.absolute else r.value.aboveGround) == h.height.value
  {
    var height :- (if h.height.Some? then Ok(h.height.value) else Err(MissingParameter));
    match h.mode
    case Some(m) =>
      if m == 0 then Ok(Absolute(height))
      else if m == 1 then Ok(AboveGround(height))
      else Err(UnknownType)
    case None => Err(MissingParameter)
  }

  /** The columns an altitude is written as: the inverse of AltitudeTryFrom. */
  function AltitudeColumns(a: Altitude): AltitudeHelper {
    match a
    case Absolute(h) => AltitudeHelper(Some(0), Some(h))
    case AboveGround(h) => AltitudeHelper(Some(1), Some(h))
  }

  lemma AltitudeRoundTrip(a: Altitude)
    ensures AltitudeTryFrom(AltitudeColumns(a)) == Ok(a)
  {
  }

  /** Without a height the result is MissingParameter, whatever the mode says. */
  lemma HeightCheckedFirst(mode: Option<u8>)
    ensures AltitudeTryFrom(AltitudeHelper(mode, None)) == Err(MissingParameter)
  {
  }

  // ---------------------------------------------------------------------------
  // Coordinates
  // ---------------------------------------------------------------------------

  /** `TryFrom<CoordinatesHelper> for Coordinates`: latitude, then longitude, then the
      altitude, each required in turn. */
  function CoordinatesTryFrom(h: CoordinatesHelper): (r: Result<Coordinates, ComposedFieldError>)
    ensures h.latitude.None? || h.longitude.None? ==> r == Err(MissingParameter)
    ensures h.latitude.Some? && h.longitude.Some? && AltitudeTryFrom(h.altitude).Err? ==>
              r == Err(AltitudeTryFrom(h.altitude).error)
    ensures r.Ok? <==> h.latitude.Some? && h.longitude.Some? && AltitudeTryFrom(h.altitude).Ok?
    ensures r.Ok? ==> r.value.latitude == h.latitude.value && r.value.longitude == h.longitude.value
                      && r.value.altitude == AltitudeTryFrom(h.altitude).value
  {
    var latitude :- (if h.latitude.Some? then Ok(h.latitude.value) else Err(MissingParameter));
    var longitude :- (if h.longitude.Some? then Ok(h.longitude.value) else Err(MissingParameter));
    var altitude :- AltitudeTryFrom(h.altitude);
    Ok(Coordinates(latitude, longitude, altitude))
  }

  function CoordinatesColumns(c: Coordinates): CoordinatesHelper {
    CoordinatesHelper(Some(c.latitude), Some(c.longitude), AltitudeColumns(c.altitude))
  }

  lemma CoordinatesRoundTrip(c: Coordinates)
    ensures CoordinatesTryFrom(CoordinatesColumns(c)) == Ok(c)
  {
    AltitudeRoundTrip(c.altitude);
  }

  // ---------------------------------------------------------------------------
  // Gimbal
  // ---------------------------------------------------------------------------

  /** `TryFrom<GimbalModeHelper> for Option<GimbalSettings>`: mode 0 is no gimbal
      setting, modes 1 and 2 need a pitch angle. */
  function GimbalTryFrom(h: GimbalModeHelper): (r: Result<Option<GimbalSettings>, ComposedFieldError>)
    ensures r == Ok(None) <==> h.mode == Some(0)
    ensures r == Err(UnknownType) <==> h.mode.Some? && h.mode.value > 2
    ensures r == Err(MissingParameter) <==> h.mode.None? || (h.mode.Some? && 1 <= h.mode.value <= 2 && h.pitchAngle.None?)
    ensures r.Ok? && r.value.Some? ==> h.pitchAngle.Some?
    ensures r.Ok? && r.value.Some? ==>
              (h.mode == Some(1) <==> r.value.value == FocusPoi(h.pitchAngle.value))
              && (h.mode == Some(2) <==> r.value.value == Interpolate(h.pitchAngle.value))
  {
    match h.mode
    case Some(m) =>
      if m == 0 then Ok(None)
      else if m == 1 then
        var pitch :- (if h.pitchAngle.Some? then Ok(h.pitchAngle.value) else Err(MissingParameter));
        Ok(Some(FocusPoi(pitch)))
      else if m == 2 then
        var pitch :- (if h.pitchAngle.Some? then Ok(h.pitchAngle.value) else Err(MissingParameter));
        Ok(Some(Interpolate(pitch)))
      else Err(UnknownType)
    case None => Err(MissingParameter)
  }

  function GimbalColumns(g: Option<GimbalSettings>): GimbalModeHelper {
    match g
    case None => GimbalModeHelper(Some(0), None)
    case Some(FocusPoi(p)) => GimbalModeHelper(Some(1), Some(p))
    case Some(Interpolate(p)) => GimbalModeHelper(Some(2), Some(p))
  }

  lemma GimbalRoundTrip(g: Option<GimbalSettings>)
    ensures GimbalTryFrom(GimbalColumns(g)) == Ok(g)
  {
  }

  /** Mode 0 ignores whatever pitch the row carries. */
  lemma GimbalOffIgnoresPitch(pitch: Option<F64>)
    ensures GimbalTryFrom(GimbalModeHelper(Some(0), pitch)) == Ok(None)
  {
  }

  // ---------------------------------------------------------------------------
  // Actions
  // ---------------------------------------------------------------------------

  /** Action types that carry a parameter. */
  predicate NeedsParam(t: i8) {
    t == 0 || t == 4 || t == 5
  }

  /** `TryFrom<ActionHelper> for Option<Action>`: type -1 is no action, 0..5 the six
      actions. The parameter goes through Rust's `as` casts: `as usize`, `as u16` and
      `as i16` keep its low 64, 16 and 16 bits. */
  function ActionTryFrom(h: ActionHelper): (r: Result<Option<Action>, ComposedFieldError>)
    ensures r == Ok(None) <==> h.actionType == Some(-1)
    ensures r == Err(UnknownType) <==> h.actionType.Some? && (h.actionType.value < -1 || h.actionType.value > 5)
    ensures r == Err(MissingParameter) <==>
              h.actionType.None? || (NeedsParam(h.actionType.value) && h.actionParam.None?)
    ensures r.Ok? && r.value.Some? ==> h.actionType.Some? && h.actionType.value == ActionKindCode(r.value.value)
    ensures r.Ok? && r.value.Some? && NeedsParam(h.actionType.value) ==>
              ActionParamBits(r.value.value, h.actionParam.value)
  {
    match h.actionType
    case Some(t) =>
      if t == -1 then Ok(None)
      else if t == 0 then
        var p :- Param(h.actionParam);
        Ok(Some(StayFor(WrapUsize(p))))
      else if t == 1 then Ok(Some(TakePhoto))
      else if t == 2 then Ok(Some(StartRecording))
      else if t == 3 then Ok(Some(StopRecording))
      else if t == 4 then
        var p :- Param(h.actionParam);
        Ok(Some(RotateAircraft(WrapU16(p))))
      else if t == 5 then
        var p :- Param(h.actionParam);
        Ok(Some(TiltCamera(WrapI16(p))))
      else Err(UnknownType)
    case None => Err(MissingParameter)
  }

  /** `action_param.ok_or(MissingParameter)?`. */
  function Param(p: Option<isize>): (r: Result<isize, ComposedFieldError>)
    ensures r.Ok? <==> p.Some?
    ensures r.Ok? ==> r.value == p.value
    ensures r.Err? ==> r.error == MissingParameter
  {
    if p.Some? then Ok(p.value) else Err(MissingParameter)
  }

  /** The CSV action type of each kind of action. */
  function ActionKindCode(a: Action): i8 {
    match a
    case StayFor(_) => 0
    case TakePhoto => 1
    case StartRecording => 2
    case StopRecording => 3
    case RotateAircraft(_) => 4
    case TiltCamera(_) => 5
  }

  /** The action's own field agrees with the parameter on the bits the cast keeps. */
  predicate ActionParamBits(a: Action, p: isize) {
    match a
    case StayFor(ms) => (ms - p) % 0x1_0000_0000_0000_0000 == 0
    case RotateAircraft(angle) => (angle - p) % 0x1_0000 == 0
    case TiltCamera(angle) => (angle - p) % 0x1_0000 == 0
    case _ => true
  }

  /** The columns an action is written as: the inverse of ActionTryFrom. A delay of 2^63
      milliseconds or more is written as the negative parameter with the same bits. */
  function ActionColumns(a: Option<Action>): ActionHelper {
    match a
    case None => ActionHelper(Some(-1), None)
    case Some(StayFor(ms)) =>
      ActionHelper(Some(0), Some(if ms < 0x8000_0000_0000_0000 then ms else ms - 0x1_0000_0000_0000_0000))
    case Some(TakePhoto) => ActionHelper(Some(1), None)
    case Some(StartRecording) => ActionHelper(Some(2), None)
    case Some(StopRecording) => ActionHelper(Some(3), None)
    case Some(RotateAircraft(angle)) => ActionHelper(Some(4), Some(angle))
    case Some(TiltCamera(angle)) => ActionHelper(Some(5), Some(angle))
  }

  lemma ActionColumnsRoundTrip(a: Option<Action>)
    ensures ActionTryFrom(ActionColumns(a)) == Ok(a)
  {
  }

  /** Types 1, 2 and 3 read no parameter: whatever the column holds is ignored. */
  lemma ParamlessActionsIgnoreParam(t: i8, p: Option<isize>, q: Option<isize>)
    requires 1 <= t <= 3
    ensures ActionTryFrom(ActionHelper(Some(t), p)) == ActionTryFrom(ActionHelper(Some(t), q))
    ensures ActionTryFrom(ActionHelper(Some(t), p)).Ok?
  {
  }
}

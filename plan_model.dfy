/**
 * The flight-plan document (src/flightplan/model.rs) and the parts of
 * src/flightplan/mod.rs that build it: the default recording action, the translation
 * of a Litchi action, and `FlightPlan::new`.
 *
 * Floats stay opaque bit patterns; the clock that `FlightPlan::new` reads is a
 * parameter.
 */
module PlanModel {

  import opened Wrappers
  import opened Wire
  import Litchi

  /** The actions of a flight plan, serialized with a "type" tag. */
  datatype Action =
    | VideoStartCapture(cameraId: u8, videoResolution: usize, fps: u8)
    | VideoStopCapture
    | ImageStartCapture(period: usize, imageResolution: F64, nbOfPictures: usize)
    | ImageStopCapture
    | Delay(delay: usize)
    | Tilt(tiltAngle: i8, tiltSpeed: u8)
    | Panorama(panoramaAngle: i8, panoramaSpeed: u8)
    | Landing

  datatype PointOfInterest = PointOfInterest(latitude: F64, longitude: F64, altitude: i16, color: i32)

  datatype Waypoint = Waypoint(
    latitude: F64, longitude: F64, altitude: u16, yaw: F64, speed: u8,
    poi: Option<u8>, dontStop: bool, followPoi: bool, follow: u8, lastYaw: F64,
    actions: Option<seq<Action>>)

  datatype Plan = Plan(takeoff: seq<Action>, poi: seq<PointOfInterest>, waypoints: seq<Waypoint>)

  /** The one variant of the crate's error that the conversions here produce. */
  datatype Error = MalformedLitchiMission(reason: string)

  /** `defaults::_4K_30FPS_RECORDING`: camera 0, 2073600 pixels, 30 frames a second. */
  const RECORDING_4K_30FPS: Action := VideoStartCapture(0, 2073600, 30)

  /** The photo action of a TakePhoto: no period, resolution 14.0 (DNG), one picture. */
  const TAKE_ONE_PHOTO: Action := ImageStartCapture(0, FOURTEEN_F64, 1)

  /** The angular speed, in degrees per second, of a translated rotation or tilt. */
  const TURN_SPEED: u8 := 10

  /** `From<&LitchiAction> for Action`. */
  function ActionFrom(a: Litchi.Action): (r: Action)
    ensures r.Delay? <==> a.StayFor?
    ensures a.StayFor? ==> r.delay * 1000 <= a.ms < r.delay * 1000 + 1000
    ensures r == TAKE_ONE_PHOTO <==> a.TakePhoto?
    ensures r == RECORDING_4K_30FPS <==> a.StartRecording?
    ensures r == VideoStopCapture <==> a.StopRecording?
    ensures r.Panorama? <==> a.RotateAircraft?
    ensures a.RotateAircraft? ==> r.panoramaSpeed == TURN_SPEED && (r.panoramaAngle - a.rotation) % 0x100 == 0
    ensures r.Tilt? <==> a.TiltCamera?
    ensures a.TiltCamera? ==> r.tiltSpeed == TURN_SPEED && (r.tiltAngle - a.tilt) % 0x100 == 0
    ensures !r.ImageStopCapture? && !r.Landing?
  {
    match a
    case StayFor(ms) => Delay(ms / 1000)
    case TakePhoto => ImageStartCapture(0, FOURTEEN_F64, 1)
    case StartRecording => RECORDING_4K_30FPS
    case StopRecording => VideoStopCapture
    case RotateAircraft(angle) => Panorama(WrapI8(angle), 10)
    case TiltCamera(angle) => Tilt(WrapI8(angle), 10)
  }

  /** A rotation and a tilt keep only the low byte of their angle: angles 256 apart
      translate alike. */
  lemma AngleLowByte(x: u16, y: u16)
    requires (x - y) % 0x100 == 0
    ensures ActionFrom(Litchi.RotateAircraft(x)) == ActionFrom(Litchi.RotateAircraft(y))
  {
    assert x % 0x100 == y % 0x100;
    assert WrapI8(x) == WrapI8(y);
  }

  /** A delay counts whole seconds: the milliseconds of a second together are one. */
  lemma DelayWholeSeconds(ms: usize, k: nat)
    requires ms == 1000 * k
    ensures ActionFrom(Litchi.StayFor(ms)) == Delay(k)
  {
  }

  class FlightPlan {
    const version: u8
    var title: string
    const product: string
    const productId: u16
    var uuid: string
    const date: u64
    const progressiveCourseActivated: bool
    const dirty: bool
    const longitude: F64
    const latitude: F64
    const longitudeDelta: F64
    const latitudeDelta: F64
    const zoomLevel: F64
    const rotation: u16
    const tilt: u16
    const mapType: u8
    var plan: Plan

    /** The fixed settings `FlightPlan::new` gives every plan. */
    predicate Defaults() {
      && version == 1 && product == "ANAFI_4K" && productId == 2324
      && progressiveCourseActivated && !dirty
      && longitudeDelta == ZERO_F64 && latitudeDelta == ZERO_F64 && zoomLevel == SEVENTEEN_F64
      && rotation == 0 && tilt == 0 && mapType == 4
    }

    /** `FlightPlan::new`: an ANAFI 4K plan centred on the given point, whose takeoff
        starts the 4K recording, with no points of interest and no waypoints yet.
        `date` stands for the milliseconds of the clock reading. */
    constructor New(title: string, latitude: F64, longitude: F64, date: u64)
      ensures Defaults()
      ensures this.title == title && uuid == title && this.date == date
      ensures this.longitude == longitude && this.latitude == latitude
      ensures plan == Plan([RECORDING_4K_30FPS], [], [])
    {
      version := 1;
      this.title := title;
      product := "ANAFI_4K";
      productId := 2324;
      uuid := title;
      this.date := date;
      progressiveCourseActivated := true;
      dirty := false;
      this.longitude := longitude;
      this.latitude := latitude;
      longitudeDelta := ZERO_F64;
      latitudeDelta := ZERO_F64;
      zoomLevel := SEVENTEEN_F64;
      rotation := 0;
      tilt := 0;
      mapType := 4;
      plan := Plan([RECORDING_4K_30FPS], [], []);
    }

    /** The two assignments of `from_csv` and `from_bin`: title and uuid become `t`. */
    method Retitle(t: string)
      modifies this
      ensures title == t && uuid == t && plan == old(plan)
    {
      title := t;
      uuid := t;
    }
  }
}

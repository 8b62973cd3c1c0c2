/** The Litchi waypoint action shared by the binary and the CSV readers (src/litchi/mod.rs). */
module Litchi {

  import opened Wire

  datatype Action =
    | StayFor(ms: usize)
    | TakePhoto
    | StartRecording
    | StopRecording
    | RotateAircraft(rotation: u16)
    | TiltCamera(tilt: i16)
}

/** What the face detector reports for one face: the top-left corner and
    size of its box in preview coordinates, the three head angles in degrees
    and three probabilities. */
module Faces {
  datatype Face = Face(
    x: real, y: real, width: real, height: real,
    eulerX: real,       // pitch
    eulerY: real,       // yaw
    eulerZ: real,       // roll
    leftEyeOpen: real, rightEyeOpen: real, smiling: real)
}

/** The corrective actions the app can show on its bar of icons: the face
    actions (FaceActions and FacePosition, plus TOO_MANY_FACES) and the
    background actions. */
module Actions {
  datatype Action =
    | RotateLeft | RotateRight
    | FaceUp | FaceDown
    | StraightenFromLeft | StraightenFromRight
    | LeftEyeOpen | RightEyeOpen
    | NeutralMouth
    | TooManyFaces
    | NotUniform | TooDark
}

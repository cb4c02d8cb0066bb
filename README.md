# PassportPhotoCreator: the decision logic behind the passport-photo checks

PassportPhotoCreator is an Android app that guides a person through taking
a passport photo. While the camera runs, it checks each frame and shows
corrective icons on a bar over the preview. The checks are the head pose, the eyes, the mouth
and whether the background is plain and bright. Once a photo is taken, the app crops it to a
35:45 portrait, pads and unpads images for the segmentation network, and
tiles copies onto a printable sheet.

This Dafny project models the integer- and rational-valued logic of those
steps. Pixel processing by OpenCV and TFLite stays outside. Its results enter
as plain values: contour areas and perimeters, Canny edge counts, `meanStdDev`
spreads, hue histograms, mean hues, and the colour sums of a sample.

The model is built from these parts:

- **Java semantics** (`java_semantics.dfy`). The `(int)` cast truncates toward zero. `int` division
  is Java's. The `(byte)` narrowing wraps.
- **Geometry** (`geometry.dfy`, `images.dfy`, `ppc_utils.dfy`). Android and OpenCV rectangles,
  Mats as rows of pixels with submats, and the `PPCUtlis` conversions.
- **Face boxes** (`face_utils.dfy`). A tracked face's box becomes a 35:45 crop. The
  processing variant uses a 9/16 : 7/16 vertical split. The detectors variant
  uses a 1.3× width and a 13/24 : 11/24 split.
- **Image geometry** (`image_utils.dfy`):
  - the final-size constants;
  - the bounds check;
  - both crops;
  - padding to a square and back;
  - the print-sheet layout.
- **Pose and expression rules** (`face.dfy`, `face_tracker.dfy`). These are the two face trackers. Each
  maps the three head angles and the eye and smile probabilities to an ordered
  list of corrections, with at most one per axis. The processing tracker puts
  the icons onto the shared action map. The detectors tracker keeps them in its
  own face graphic (detectors/face/FaceGraphic.java), which has its own paint.
- **The icon bar** (`graphic.dfy`). `Graphic`'s static sorted map from drawable id to the
  owning graphic class. Each graphic clears its own entries and inserts new
  ones. A graphic is drawn as valid exactly when the whole map is empty.
- **Background checks** (`background_*.dfy`, `color_blob.dfy`). These cover:
  - the candidate-pixel scans;
  - the luma-weighted brightness;
  - the colour-blob detectors' bookkeeping;
  - the area, edge and colour rules;
  - the 2-of-3 vote;
  - the two histogram scans;
  - the three property records;
  - the validators' `BackgroundProcessing`;
  - the alpha paste of `enhance`.
- **NV21 encoder** (`yuv.dfy`). The buffer-filling encoder of the instrumented tests, proved
  to write the Y plane and the interleaved V/U plane exactly.

Where the source updates state in place, the model does too. The trackers,
graphics, overlay, property records, blob detectors, `BackgroundProcessing`
and the encoder's byte array are classes and arrays with `modifies` frames.
Their loops are `while` loops with invariants. Pure arithmetic is made of
functions and lemmas.

Where a written description of the app and its code disagree, the model follows the code:

- A graphic that sets its icons through the camera `Graphic` is valid exactly
  when the shared action map is empty. There is no ranking of severities. The
  detectors' face graphic keeps its own icon list and is valid exactly when
  its own face asks for nothing.
- A background is too dark unless its brightness is strictly above 0.5, so a
  brightness of exactly 0.5 shows TOO_DARK.
- The source mixes revisions that do not fit together. The model follows each
  file as written:
  - processing/background/BackgroundUtils.java passes booleans to the int
    setters of its property record; the model stores them as 1 and 0;
  - detectors/background/BackgroundUtils.java calls a `ColorBlobDetector(Mat, Point)`
    constructor that its detector class lacks; the model creates a detector
    and calls `process` once;
  - detectors/face/FaceTracker.java passes a `List<Action>` to
    `FaceGraphic.setBarActions(List<FacePosition>, Context)`; the model takes
    the positions as the same actions, looked up in the graphic's own icon
    table.

## Model

| member | source | states |
|---|---|---|
| JavaSemantics.Trunc | app/src/main/java/org/joanna/thesis/passportphotocreator/utils/PPCUtlis.java:34-36 | the `(int)` cast rounds toward zero: below x by less than one for x >= 0, above it by less than one for x < 0 |
| JavaSemantics.TruncNear | app/src/main/java/org/joanna/thesis/passportphotocreator/utils/PPCUtlis.java:34-36 | a truncated edge lies strictly within one of the double it came from |
| JavaSemantics.TruncMonotone | app/src/main/java/org/joanna/thesis/passportphotocreator/processing/face/FaceUtils.java:53-56 | truncation keeps the order of two edges |
| JavaSemantics.TruncOfInt | app/src/main/java/org/joanna/thesis/passportphotocreator/utils/PPCUtlis.java:34-36 | an integral value survives the cast unchanged |
| JavaSemantics.TruncDifference | app/src/main/java/org/joanna/thesis/passportphotocreator/processing/face/FaceUtils.java:53-56 | for two same-sign edges, the distance of the truncated edges is within one of the real distance |
| JavaSemantics.JavaDiv | app/src/main/java/org/joanna/thesis/passportphotocreator/utils/ImageUtils.java:262-265 | Java `int` division truncates toward zero: Euclidean quotient for a >= 0, negated quotient of -a otherwise |
| JavaSemantics.ToByte | app/src/androidTest/java/org/joanna/thesis/passportphotocreator/utils/TestUtils.java:76-79 | the `(byte)` narrowing keeps the value modulo 256, maps [0,128) to itself and [128,256) to v - 256 |
| JavaSemantics.ToByteRoundTrip | app/src/androidTest/java/org/joanna/thesis/passportphotocreator/utils/TestUtils.java:76-79 | a byte written for a value in [0,255] masks back to that value, so the encoder loses nothing |
| Geometry.Edges.Truncated | app/src/main/java/org/joanna/thesis/passportphotocreator/processing/face/FaceUtils.java:53-56 | the Rect built from double edges has each edge within one of its double |
| Images.MatEquality | app/src/main/java/org/joanna/thesis/passportphotocreator/utils/ImageUtils.java:282-287 | two well-formed Mats of one shape with the same pixels are the same Mat |
| Images.ScalarOf | app/src/main/java/org/joanna/thesis/passportphotocreator/processing/background/verification/ColorBlobDetector.java:165-181 | a Scalar built from a double[] has four values: the given ones, then zeros, extras dropped |
| Images.Submat | app/src/main/java/org/joanna/thesis/passportphotocreator/utils/ImageUtils.java:282-287 | a submat has the size of its row and column ranges and shows the parent's pixels shifted by the range starts |
| PPCUtils.MultiplyRect | app/src/main/java/org/joanna/thesis/passportphotocreator/utils/PPCUtlis.java:14-21 | every edge is multiplied by the scale, so width and height scale by the same factor |
| PPCUtils.MultiplyRectByOne | app/src/main/java/org/joanna/thesis/passportphotocreator/utils/PPCUtlis.java:14-21 | scaling by one gives the same Rect back |
| PPCUtils.MultiplyRectComposes | app/src/main/java/org/joanna/thesis/passportphotocreator/utils/PPCUtlis.java:14-21 | scaling by b then a is scaling by a*b |
| PPCUtils.AndroidRectToOpenCVRect | app/src/main/java/org/joanna/thesis/passportphotocreator/utils/PPCUtlis.java:23-29 | x = left, y = top, and x + width = right, y + height = bottom |
| PPCUtils.TranslateY | app/src/main/java/org/joanna/thesis/passportphotocreator/utils/PPCUtlis.java:31-38 | left and right kept; top and bottom within one of the shifted doubles |
| PPCUtils.TranslateYByIntegerKeepsSize | app/src/main/java/org/joanna/thesis/passportphotocreator/utils/PPCUtlis.java:31-38 | an integral shift moves the box by exactly v and keeps width and height |
| ProcessingFaceUtils.EdgeRatios | app/src/main/java/org/joanna/thesis/passportphotocreator/processing/face/FaceUtils.java:47-50 | the upper edge ratio is 9/16, the lower 7/16, and they sum to one |
| ProcessingFaceUtils.HeightFor | app/src/main/java/org/joanna/thesis/passportphotocreator/processing/face/FaceUtils.java:43-44 | the box height is the width divided by 35/45, i.e. height·35 = width·45 |
| ProcessingFaceUtils.BoxEdges | app/src/main/java/org/joanna/thesis/passportphotocreator/processing/face/FaceUtils.java:39-56 | before the casts, left and right lie half the width either side of the centre; top is 9/16 and bottom 7/16 of the height away from it; bottom − top is the height |
| ProcessingFaceUtils.BoundingBoxNotInverted | app/src/main/java/org/joanna/thesis/passportphotocreator/processing/face/FaceUtils.java:39-59 | for a non-negative width the private getFaceBoundingBox gives left ≤ right and top ≤ bottom |
| ProcessingFaceUtils.OverlayBoundingBox | app/src/main/java/org/joanna/thesis/passportphotocreator/processing/face/FaceUtils.java:17-28 | getFaceBoundingBox(face, graphic): for a face of non-negative width and a non-negative horizontal scale the overlay box is not inverted |
| ProcessingFaceUtils.BoundingBox | app/src/main/java/org/joanna/thesis/passportphotocreator/processing/face/FaceUtils.java:39-59 | the private getFaceBoundingBox: the edges of BoxEdges truncated toward zero; its properties are BoundingBoxNotInverted, BoundingBoxContainsCentre and BoundingBoxSize |
| ProcessingFaceUtils.BoundingBoxContainsCentre | app/src/main/java/org/joanna/thesis/passportphotocreator/processing/face/FaceUtils.java:53-58 | for a positive width, top ≤ (int)centerY ≤ bottom and left ≤ (int)centerX ≤ right |
| ProcessingFaceUtils.BoundingBoxSize | app/src/main/java/org/joanna/thesis/passportphotocreator/processing/face/FaceUtils.java:53-58 | width and height of the truncated box are within two of the requested ones, and the width within one when the box starts at or right of column 0 |
| ProcessingFaceUtils.OverlayFrontMirrorsBack | app/src/main/java/org/joanna/thesis/passportphotocreator/processing/face/FaceUtils.java:17-28 | with the front camera the overlay box is the back-camera box mirrored about the overlay width |
| ProcessingFaceUtils.OverlayIdentityView | app/src/main/java/org/joanna/thesis/passportphotocreator/processing/face/FaceUtils.java:17-28 | with a back camera and unit scale factors the overlay box is the face's own box, 1.2 times its width |
| ProcessingFaceUtils.IntegralBoxWidthExact | app/src/main/java/org/joanna/thesis/passportphotocreator/processing/face/FaceUtils.java:30-58 | with an integral centre and width the box is exactly as wide as asked when it starts at or right of column 0, odd widths included |
| ProcessingFaceUtils.FaceOnlyWidthExact | app/src/main/java/org/joanna/thesis/passportphotocreator/processing/face/FaceUtils.java:30-37 | the face-only overload, which truncates centre and width first, yields a box of exactly (int)(width·1.2) columns when it starts inside the picture |
| DetectorFaceUtils.EdgeRatios | app/src/main/java/org/joanna/thesis/passportphotocreator/detectors/face/FaceUtils.java:23-25 | the upper ratio is 13/24, the lower 11/24, and they sum to one |
| DetectorFaceUtils.HeightFor | app/src/main/java/org/joanna/thesis/passportphotocreator/detectors/face/FaceUtils.java:29 | height = width / 3.5 · 4.5, the 35:45 shape |
| DetectorFaceUtils.BoxEdges | app/src/main/java/org/joanna/thesis/passportphotocreator/detectors/face/FaceUtils.java:14-34 | left and right lie half of 1.3 times the scaled width either side of the centre; top is 13/24 and bottom 11/24 of the height away from it |
| DetectorFaceUtils.BoundingBox | app/src/main/java/org/joanna/thesis/passportphotocreator/detectors/face/FaceUtils.java:14-37 | getFaceBoundingBox(face, graphic): for a non-negative enlarged width left ≤ right and top ≤ bottom |
| DetectorFaceUtils.BoundingBoxContainsCentre | app/src/main/java/org/joanna/thesis/passportphotocreator/detectors/face/FaceUtils.java:31-36 | for a positive width, top < centerY < bottom before the casts, and top ≤ (int)centerY ≤ bottom after them |
| ImageUtils.FinalImageHeight | app/src/main/java/org/joanna/thesis/passportphotocreator/utils/ImageUtils.java:51-63 | FINAL_IMAGE_HEIGHT_PX = (int)(827·45/35) = 1063 |
| ImageUtils.ResizeHeight | app/src/main/java/org/joanna/thesis/passportphotocreator/utils/ImageUtils.java:160-163 | resizeMat(src, w) targets the height (int)(w·45/35): below w·45/35 by less than one |
| ImageUtils.FinalSizeIsResizeAtFinalWidth | app/src/main/java/org/joanna/thesis/passportphotocreator/utils/ImageUtils.java:160-167 | resizeMatToFinalSize is resizeMat at the final width 827 |
| ImageUtils.Ceil | app/src/main/java/org/joanna/thesis/passportphotocreator/processing/background/BackgroundUtils.java:46-52 | Math.ceil: the least integer at or above x |
| ImageUtils.SegmentationSizes | app/src/main/java/org/joanna/thesis/passportphotocreator/processing/background/BackgroundUtils.java:46-52 | the crop resized for segmentation is ceil(448·35/45) = 349 wide and exactly 448 high |
| ImageUtils.VerifyBoundingBox | app/src/main/java/org/joanna/thesis/passportphotocreator/utils/ImageUtils.java:289-297 | an accepted cut has a positive width no larger than the canvas, a top at or below row 0 and a bottom at or above the canvas height |
| ImageUtils.VerifiedBoxInsideCanvas | app/src/main/java/org/joanna/thesis/passportphotocreator/utils/ImageUtils.java:289-303 | a box verifyBoundingBox accepts has 0 ≤ left < right ≤ width and 0 ≤ top, and bottom ≤ height |
| ImageUtils.VerifyAcceptsInvertedBox | app/src/main/java/org/joanna/thesis/passportphotocreator/utils/ImageUtils.java:289-297 | bottom is never compared with top: the box (0,5,1,3) has negative height and is accepted |
| ImageUtils.FaceCropRect | app/src/main/java/org/joanna/thesis/passportphotocreator/utils/ImageUtils.java:190-214 | null unless there is one face with a box and the cut passes verifyBoundingBox, iff; the accepted cut lies in the picture and its height is (int)(width·45/35) |
| ImageUtils.CropMatToFaceBoundingBox | app/src/main/java/org/joanna/thesis/passportphotocreator/utils/ImageUtils.java:190-214 | a Mat exactly when the crop rectangle exists, with that rectangle's width and height |
| ImageUtils.FaceOnlyRect | app/src/main/java/org/joanna/thesis/passportphotocreator/utils/ImageUtils.java:216-247 | the same guard, iff; the accepted cut is a non-empty square inside the picture, since width and height both use 0.57 times the box width times the picture width |
| ImageUtils.CropMatToGetFaceOnly | app/src/main/java/org/joanna/thesis/passportphotocreator/utils/ImageUtils.java:216-247 | a Mat exactly when the face-only rectangle exists, and it is square |
| ImageUtils.SquarePadding | app/src/main/java/org/joanna/thesis/passportphotocreator/utils/ImageUtils.java:260-265 | top + h + bottom = borderSize and left + w + right = borderSize; inside the square the pads are non-negative and bottom − top, right − left are 0 or 1 |
| ImageUtils.CopyMakeBorder | app/src/main/java/org/joanna/thesis/passportphotocreator/utils/ImageUtils.java:266-278 | the bordered Mat is the source's size plus the pads, and holds every source pixel shifted by (top, left) |
| ImageUtils.PadMatToSquare | app/src/main/java/org/joanna/thesis/passportphotocreator/utils/ImageUtils.java:260-269 | the replicate-padded Mat is borderSize × borderSize with the source's channels |
| ImageUtils.OpaqueBlack | app/src/main/java/org/joanna/thesis/passportphotocreator/utils/ImageUtils.java:277-278 | Scalar(0,0,0,255) cut to the image's channels |
| ImageUtils.PadMatToSquareBlack | app/src/main/java/org/joanna/thesis/passportphotocreator/utils/ImageUtils.java:271-280 | the black-padded Mat is borderSize × borderSize with the source's channels |
| ImageUtils.UnpadMatFromSquare | app/src/main/java/org/joanna/thesis/passportphotocreator/utils/ImageUtils.java:282-287 | all rows and imgWidth columns are kept |
| ImageUtils.UnpadUndoesBorder | app/src/main/java/org/joanna/thesis/passportphotocreator/utils/ImageUtils.java:260-287 | unpadding a padded image at its own width gives back its columns: every source pixel shifted down by the top pad, and the image itself when it is as high as the square |
| ImageUtils.UnpadKeepsSource | app/src/main/java/org/joanna/thesis/passportphotocreator/utils/ImageUtils.java:283-285 | the middle src.cols columns of an image holding src after left pad p.left, with a right pad of p.left or one more, are src's columns |
| ImageUtils.UnpadUndoesPad | app/src/main/java/org/joanna/thesis/passportphotocreator/utils/ImageUtils.java:260-287 | round trip of padMatToSquare and unpadMatFromSquare: width restored, and the image itself for a full-height source |
| ImageUtils.UnpadUndoesPadBlack | app/src/main/java/org/joanna/thesis/passportphotocreator/utils/ImageUtils.java:271-287 | the same round trip for padMatToSquareBlack |
| ImageUtils.FaceRegionFromPictureTaken | app/src/main/java/org/joanna/thesis/passportphotocreator/utils/ImageUtils.java:387-411 | null for a null face or a scaled box failing the bounds check, iff; otherwise the roi lies inside the rotated picture |
| ImageUtils.FaceBoxHeightNonNegative | app/src/main/java/org/joanna/thesis/passportphotocreator/processing/face/FaceUtils.java:30-58 | a face-only box that is wider than zero is not upside down |
| ImageUtils.Layout | app/src/main/java/org/joanna/thesis/passportphotocreator/utils/ImageUtils.java:363-366 | the intended layout: hCount·w + (hCount+1)·hSpace ≤ cols and vCount·h + (vCount+1)·vSpace ≤ rows |
| ImageUtils.LayoutAsWritten | app/src/main/java/org/joanna/thesis/passportphotocreator/utils/ImageUtils.java:363-366 | the written layout: the counts and the horizontal gap agree with the intended layout, while the vertical gap is (cols % w) / (rows / h + 1) |
| ImageUtils.TileInsideSheet | app/src/main/java/org/joanna/thesis/passportphotocreator/utils/ImageUtils.java:368-375 | every photo of the intended layout lies on the sheet |
| ImageUtils.TileSpanInside | app/src/main/java/org/joanna/thesis/passportphotocreator/utils/ImageUtils.java:370-374 | tile k of count tiles with count + 1 gaps that fit the extent starts at or after 0 and ends inside |
| ImageUtils.AsWrittenTileColumnsInsideSheet | app/src/main/java/org/joanna/thesis/passportphotocreator/utils/ImageUtils.java:363-375 | the written layout places every photo within the sheet's width and below its top edge |
| ImageUtils.TilesDoNotOverlap | app/src/main/java/org/joanna/thesis/passportphotocreator/utils/ImageUtils.java:370-374 | a photo further right or further down starts after the earlier one ends plus the gap |
| ImageUtils.AsWrittenTileLeavesSheet | app/src/main/java/org/joanna/thesis/passportphotocreator/utils/ImageUtils.java:366-372 | as written, one 100×100 photo on a 100-row, 199-column sheet gets vSpace 49 and runs off the bottom; the intended layout keeps it on |
| ImageUtils.AppSheetLayoutsAgree | app/src/main/java/org/joanna/thesis/passportphotocreator/utils/ImageUtils.java:363-366 | on the 10 × 15 cm sheet at 600 dpi (2362 × 3543) PhotoPreviewFragment prints with the 827×1063 photo both layouts are (4, 47, 2, 78) |
| ImageUtils.PlaceTiles | app/src/main/java/org/joanna/thesis/passportphotocreator/utils/ImageUtils.java:368-377 | the nested loops: vCount rows of hCount rects, rect (i, j) at i·w + (i+1)·hSpace, j·h + (j+1)·vSpace |
| ImageUtils.GetMultiplePhotosOnOnePaper | app/src/main/java/org/joanna/thesis/passportphotocreator/utils/ImageUtils.java:359-377 | the rois of the layout as written, vSpace from cols % w; every roi lies within the sheet's width and below its top (AsWrittenTileLeavesSheet shows one can end past the bottom) |
| ImageUtils.GetMultiplePhotosOnOnePaperCorrected | app/src/main/java/org/joanna/thesis/passportphotocreator/utils/ImageUtils.java:359-377 | the rois of the intended layout, vSpace from rows % h; every roi lies on the sheet |
| FaceRules.AxisCorrection | app/src/main/java/org/joanna/thesis/passportphotocreator/processing/face/FaceTracker.java:55-59 | one axis adds at most one correction, and only one of its own two |
| FaceRules.Flag | app/src/main/java/org/joanna/thesis/passportphotocreator/processing/face/FaceTracker.java:70-78 | an eye or mouth check adds at most its own correction |
| FaceRules.CorrectionsMembership | app/src/main/java/org/joanna/thesis/passportphotocreator/processing/face/FaceTracker.java:54-78 | a correction is in the list iff one of the six checks adds it |
| FaceRules.AxisCorrectionIff | app/src/main/java/org/joanna/thesis/passportphotocreator/processing/face/FaceTracker.java:55-59 | with a non-negative threshold, below iff angle < −threshold, above iff angle > threshold, never both |
| FaceRules.CorrectionsAngleIff | app/src/main/java/org/joanna/thesis/passportphotocreator/processing/face/FaceTracker.java:55-69 | ROTATE_LEFT/RIGHT iff yaw < −4 / > 4, FACE_UP/DOWN iff pitch beyond the pitch threshold, STRAIGHTEN_FROM_LEFT/RIGHT iff roll beyond 4, and never both of one axis |
| FaceRules.CorrectionsFlagIff | app/src/main/java/org/joanna/thesis/passportphotocreator/processing/face/FaceTracker.java:70-78 | LEFT_EYE_OPEN iff left eye < 0.7, RIGHT_EYE_OPEN iff right eye < 0.7, NEUTRAL_MOUTH iff smiling above the threshold, independently; no TOO_MANY_FACES or background action |
| FaceRules.PoseCorrections | app/src/main/java/org/joanna/thesis/passportphotocreator/processing/face/FaceTracker.java:54-78 | the positions list the checks append is Corrections(face, thresholds) |
| FaceRules.AppendAxis | app/src/main/java/org/joanna/thesis/passportphotocreator/processing/face/FaceTracker.java:55-59 | one if / else-if angle check appends that axis's correction |
| FaceRules.AppendFlag | app/src/main/java/org/joanna/thesis/passportphotocreator/processing/face/FaceTracker.java:70-72 | one eye or mouth check appends its correction when the condition holds |
| FaceRules.AppendRanked | app/src/main/java/org/joanna/thesis/passportphotocreator/processing/face/FaceTracker.java:54-78 | appending at most one correction of a later place keeps the list strictly ordered |
| FaceRules.CorrectionsOrdered | app/src/main/java/org/joanna/thesis/passportphotocreator/processing/face/FaceTracker.java:54-79 | corrections come in the fixed order yaw, pitch, roll, left eye, right eye, mouth, at most one per place, so at most six |
| FaceRules.PiecesRanked | app/src/main/java/org/joanna/thesis/passportphotocreator/processing/face/FaceTracker.java:54-78 | six pieces of at most one correction, piece k of place k, join to a strictly ordered list |
| FaceRules.TrackerThresholdsValid | app/src/main/java/org/joanna/thesis/passportphotocreator/processing/face/FaceTracker.java:18-21 | both trackers' angle thresholds are non-negative; pitch allows 8 degrees in the processing tracker and 4 in the detectors tracker |
| FaceRules.CorrectionsHaveIcons | app/src/main/java/org/joanna/thesis/passportphotocreator/camera/Graphic.java:85-92 | every correction has an icon in a table covering the face actions |
| ProcessingFaceTracker.FaceTracker.constructor | app/src/main/java/org/joanna/thesis/passportphotocreator/processing/face/FaceTracker.java:27-34 | no faces yet, and a fresh face graphic on the overlay's registry |
| ProcessingFaceTracker.FaceTracker.ProcessFaces | app/src/main/java/org/joanna/thesis/passportphotocreator/processing/face/FaceTracker.java:36-80 | mFaces is the list; no face: graphic removed and its actions cleared; several: the bar shows only TOO_MANY_FACES; one: the bar shows its corrections and the paint follows emptiness of the whole map |
| ProcessingFaceTracker.FaceTracker.GetFaces | app/src/main/java/org/joanna/thesis/passportphotocreator/processing/face/FaceTracker.java:82-84 | the list of the latest processFaces |
| ProcessingFaceTracker.FaceTracker.Clear | app/src/main/java/org/joanna/thesis/passportphotocreator/processing/face/FaceTracker.java:86-90 | the graphic leaves the overlay and its classes' icons leave the bar |
| ProcessingFaceTracker.ClearedOfIdempotent | app/src/main/java/org/joanna/thesis/passportphotocreator/processing/face/FaceTracker.java:47-50 | clearing a class twice, as the several-faces branch does, is clearing it once |
| ProcessingFaceTracker.NeutralFaceIsValid | app/src/main/java/org/joanna/thesis/passportphotocreator/processing/face/FaceTracker.java:54-79 | a level face with open eyes and no smile asks for nothing, and the graphic is valid iff no other graphic shows an icon |
| DetectorFaceTracker.FaceGraphic.constructor | app/src/main/java/org/joanna/thesis/passportphotocreator/detectors/face/FaceGraphic.java:54-60 | a fresh graphic painted invalid, with no face and no icon list yet |
| DetectorFaceTracker.FaceGraphic.UpdateFace | app/src/main/java/org/joanna/thesis/passportphotocreator/detectors/face/FaceGraphic.java:62-65 | mFace becomes the face; icons and paint are kept |
| DetectorFaceTracker.FaceGraphic.SetBarActions | app/src/main/java/org/joanna/thesis/passportphotocreator/detectors/face/FaceGraphic.java:123-133 | headActions becomes the icon of each position, in order; paint and face are kept, and the shared action map is not touched |
| DetectorFaceTracker.FaceGraphic.SetIsValid | app/src/main/java/org/joanna/thesis/passportphotocreator/detectors/face/FaceGraphic.java:143-145 | the graphic's own paint is VALID_COLOR iff valid; icons and face are kept |
| DetectorFaceTracker.FaceTracker.constructor | app/src/main/java/org/joanna/thesis/passportphotocreator/detectors/face/FaceTracker.java:29-36 | no face yet, and a fresh face graphic painted invalid |
| DetectorFaceTracker.FaceTracker.OnUpdate | app/src/main/java/org/joanna/thesis/passportphotocreator/detectors/face/FaceTracker.java:38-74 | mFace and the graphic's face are the face; the graphic joins the overlay; its own icon list holds the icons of its corrections (all angles 4, smile 0.4); it is painted valid iff it asks for nothing, whatever other graphics show; the shared action map is unchanged |
| DetectorFaceTracker.ValidIffWithinThresholds | app/src/main/java/org/joanna/thesis/passportphotocreator/detectors/face/FaceTracker.java:44-71 | the detectors' face graphic is painted valid exactly when every angle is within 4 degrees, both eyes are open with probability at least 0.7 and the smile is at most 0.4 |
| DetectorFaceTracker.FaceTracker.OnMissing | app/src/main/java/org/joanna/thesis/passportphotocreator/detectors/face/FaceTracker.java:76-79 | the graphic leaves the overlay; its icon list is kept |
| DetectorFaceTracker.FaceTracker.OnDone | app/src/main/java/org/joanna/thesis/passportphotocreator/detectors/face/FaceTracker.java:81-84 | the graphic leaves the overlay |
| DetectorFaceTracker.FaceTracker.GetFaceBoundingBox | app/src/main/java/org/joanna/thesis/passportphotocreator/detectors/face/FaceTracker.java:86-91 | null iff no face was seen, otherwise the box of the last face |
| Graphics.ViewTransform.TranslateX | app/src/main/java/org/joanna/thesis/passportphotocreator/camera/Graphic.java:47-53 | with a front camera the translated and the scaled coordinate add up to the overlay width; otherwise it is the scaled coordinate |
| Graphics.Overlay.constructor | app/src/main/java/org/joanna/thesis/passportphotocreator/camera/GraphicOverlay.java:32-45 | an overlay starts with no graphics |
| Graphics.Overlay.Add | app/src/main/java/org/joanna/thesis/passportphotocreator/camera/GraphicOverlay.java:32-37 | the graphic joins the set of drawn graphics and nothing else changes |
| Graphics.Overlay.Remove | app/src/main/java/org/joanna/thesis/passportphotocreator/camera/GraphicOverlay.java:39-45 | the graphic leaves the set of drawn graphics and nothing else changes |
| Graphics.CompareTo | app/src/main/java/org/joanna/thesis/passportphotocreator/camera/Graphic.java:129-132 | keys compare by id only: zero iff the ids are equal, negative iff this id is smaller |
| Graphics.CompareToAntisymmetric | app/src/main/java/org/joanna/thesis/passportphotocreator/camera/Graphic.java:129-132 | compareTo(a, b) = −compareTo(b, a), as Comparable requires |
| Graphics.ClearedOf | app/src/main/java/org/joanna/thesis/passportphotocreator/camera/Graphic.java:96-104 | exactly the entries of other classes remain, with their classes |
| Graphics.PutEntry | app/src/main/java/org/joanna/thesis/passportphotocreator/camera/Graphic.java:87-91 | TreeMap.put adds the id; every old entry keeps its class, and a new id gets the given class |
| Graphics.IconIds | app/src/main/java/org/joanna/thesis/passportphotocreator/camera/Graphic.java:86-91 | one drawable id per position, the one actionsMap gives it |
| Graphics.PutAllContents | app/src/main/java/org/joanna/thesis/passportphotocreator/camera/Graphic.java:86-92 | after the puts the map holds the old ids and the inserted ids and nothing else; an old id keeps its class, a new one gets aClass |
| Graphics.BarActions | app/src/main/java/org/joanna/thesis/passportphotocreator/camera/Graphic.java:85-93 | after setBarActions the map holds the entries of other classes and the inserted ids and nothing else; an entry of another class keeps it, every other id gets aClass |
| Graphics.BarActionsEmptyIff | app/src/main/java/org/joanna/thesis/passportphotocreator/camera/Graphic.java:85-93 | after setBarActions the map is empty, so the graphic is valid, iff it asked for no icon and every icon already shown was of its own class |
| Graphics.BarActionsIdempotent | app/src/main/java/org/joanna/thesis/passportphotocreator/camera/Graphic.java:81-94 | with aClass = getClass(), calling setBarActions twice with the same positions leaves the map as one call does |
| Graphics.SharedIconCollapses | app/src/main/java/org/joanna/thesis/passportphotocreator/camera/Graphic.java:24 | two actions with one drawable id, like the two eyes, give one entry |
| Graphics.OtherOwnerKeepsIcon | app/src/main/java/org/joanna/thesis/passportphotocreator/camera/Graphic.java:87-88 | an icon shown for another class keeps that class when this graphic also puts it, so this graphic's next clearActions leaves it |
| Graphics.IconRect | app/src/main/java/org/joanna/thesis/passportphotocreator/camera/Graphic.java:66-75 | icon i is canvasWidth/12 square, at the padding of a fifth of an icon from the top |
| Graphics.IconsDoNotOverlap | app/src/main/java/org/joanna/thesis/passportphotocreator/camera/Graphic.java:71-75 | an icon later in the bar starts at least a padding right of where an earlier one ends |
| Graphics.BarSpacing | app/src/main/java/org/joanna/thesis/passportphotocreator/camera/Graphic.java:72-74 | with icon size s and padding p, icon j starts at least one padding after icon i ends |
| Graphics.MulSplit | app/src/main/java/org/joanna/thesis/passportphotocreator/camera/Graphic.java:72-74 | multiplication distributes over the sum of the signed counts |
| Graphics.MulNonNegative | app/src/main/java/org/joanna/thesis/passportphotocreator/camera/Graphic.java:72-74 | a product of two counts is non-negative |
| Graphics.ActionRegistry.constructor | app/src/main/java/org/joanna/thesis/passportphotocreator/camera/Graphic.java:24 | the static map starts empty |
| Graphics.Graphic.constructor | app/src/main/java/org/joanna/thesis/passportphotocreator/camera/Graphic.java:29-35 | the new graphic is painted invalid |
| Graphics.Graphic.ClearActions | app/src/main/java/org/joanna/thesis/passportphotocreator/camera/Graphic.java:96-104 | the iterator walk removes exactly the entries of class k: the map becomes ClearedOf(old map, k) |
| Graphics.Graphic.SetIsValid | app/src/main/java/org/joanna/thesis/passportphotocreator/camera/Graphic.java:110-112 | the paint is VALID_COLOR iff valid |
| Graphics.Graphic.SetBarActions | app/src/main/java/org/joanna/thesis/passportphotocreator/camera/Graphic.java:81-94 | the map is the old map cleared of getClass(), then one put per position tagged aClass; the paint is valid iff the whole map is empty |
| Graphics.Graphic.DrawActionsToBePerformed | app/src/main/java/org/joanna/thesis/passportphotocreator/camera/Graphic.java:63-79 | every id of the map is drawn once, in ascending order, the i-th at IconRect(i) |
| Graphics.AscendingIds | app/src/main/java/org/joanna/thesis/passportphotocreator/camera/Graphic.java:24-68 | the TreeMap's key order: every key once, strictly ascending |
| Graphics.AscendingStep | app/src/main/java/org/joanna/thesis/passportphotocreator/camera/Graphic.java:68 | moving the least remaining key to the end keeps the listed prefix ascending and complete |
| Graphics.LeastOf | app/src/main/java/org/joanna/thesis/passportphotocreator/camera/Graphic.java:68 | the least remaining id |
| BackgroundPixels.GetBrightness | app/src/main/java/org/joanna/thesis/passportphotocreator/utils/BackgroundUtils.java:105-110 | fewer than three channels give -1 |
| BackgroundPixels.IsBright | app/src/main/java/org/joanna/thesis/passportphotocreator/processing/background/BackgroundUtils.java:314-316 | bright iff the brightness is strictly above 0.5, so 0.5 itself is too dark |
| BackgroundPixels.BrightnessOfGrey | app/src/main/java/org/joanna/thesis/passportphotocreator/utils/BackgroundUtils.java:105-120 | the weights sum to one: a grey of level g has brightness g/255, white is bright and black is not |
| BackgroundPixels.BrightnessRange | app/src/main/java/org/joanna/thesis/passportphotocreator/utils/BackgroundUtils.java:105-110 | channels in [0, 255] give a brightness in [0, 1] |
| BackgroundPixels.BrightnessZeroIffBlack | app/src/main/java/org/joanna/thesis/passportphotocreator/utils/BackgroundUtils.java:72-84 | with non-negative channels the brightness findPixel compares with 0 is zero exactly for a black pixel |
| BackgroundPixels.FirstMatch | app/src/main/java/org/joanna/thesis/passportphotocreator/utils/BackgroundUtils.java:72-84 | no result exactly when no candidate matches; otherwise the integer-snapped first matching candidate, all earlier ones failing |
| BackgroundPixels.FindPixel | app/src/main/java/org/joanna/thesis/passportphotocreator/utils/BackgroundUtils.java:72-84 | the scan loop returns the first match of the candidate list, or null |
| BackgroundPixels.TruncInside | app/src/main/java/org/joanna/thesis/passportphotocreator/utils/BackgroundUtils.java:76-77 | a non-negative coordinate below n casts to an index in [0, n) |
| BackgroundPixels.CandidatesInImage | app/src/main/java/org/joanna/thesis/passportphotocreator/utils/BackgroundUtils.java:42-70 | on an image more than ten pixels wide and high every left, right, person and detector candidate lies inside the image |
| BackgroundPixels.ColorAverage | app/src/main/java/org/joanna/thesis/passportphotocreator/processing/background/BackgroundUtils.java:144-152 | the average is a four-valued Scalar |
| BackgroundPixels.ColorAverageProperties | app/src/main/java/org/joanna/thesis/passportphotocreator/processing/background/BackgroundUtils.java:144-152 | the mean of a Scalar with itself is that Scalar; the mean is symmetric in its two colours |
| BackgroundPixels.ComputeColorAverage | app/src/main/java/org/joanna/thesis/passportphotocreator/processing/background/BackgroundUtils.java:144-152 | the loop computes the componentwise mean over the shorter colour |
| BackgroundPixels.AverageTwoColors | app/src/main/java/org/joanna/thesis/passportphotocreator/utils/BackgroundUtils.java:159-174 | null exactly when the channels are not four and three; otherwise three channels |
| BackgroundPixels.BlendTwoColors | app/src/main/java/org/joanna/thesis/passportphotocreator/utils/BackgroundUtils.java:159-174 | the loop over the output array gives the alpha blend, or null on the channel check |
| BackgroundPixels.BlendProperties | app/src/main/java/org/joanna/thesis/passportphotocreator/utils/BackgroundUtils.java:169-172 | alpha 0 keeps the background, alpha 255 gives the foreground, alpha in between lies between the two in every channel |
| BackgroundPixels.BetweenEnds | app/src/main/java/org/joanna/thesis/passportphotocreator/utils/BackgroundUtils.java:171 | a convex combination lies between its ends |
| BackgroundPixels.Pasted | app/src/main/java/org/joanna/thesis/passportphotocreator/utils/BackgroundUtils.java:144-156 | same size and channels as the background; every pixel is blended where alpha > 0 and the background's elsewhere |
| BackgroundPixels.Paste | app/src/main/java/org/joanna/thesis/passportphotocreator/utils/BackgroundUtils.java:131-157 | the background itself unless same-size RGBA onto RGB, otherwise the pixel-by-pixel paste |
| BackgroundPixels.PastedPixels | app/src/main/java/org/joanna/thesis/passportphotocreator/utils/BackgroundUtils.java:143-153 | a transparent pixel keeps the background, an opaque one takes the foreground colour |
| ProcessingBackgroundProperties.Score | app/src/main/java/org/joanna/thesis/passportphotocreator/processing/background/BackgroundUtils.java:137-140 | the stored score is non-zero exactly for a true verdict, and is 0 or 1 |
| ProcessingBackgroundProperties.BackgroundProperties.constructor | app/src/main/java/org/joanna/thesis/passportphotocreator/processing/background/verification/BackgroundProperties.java:11-15 | every int field starts at zero and isBright at true |
| ProcessingBackgroundProperties.BackgroundProperties.SetBgColorRgba | app/src/main/java/org/joanna/thesis/passportphotocreator/processing/background/verification/BackgroundProperties.java:17-20 | isBright becomes whether the colour's brightness exceeds one half; nothing else changes |
| ProcessingBackgroundProperties.BackgroundProperties.GetPersonContourLen | app/src/main/java/org/joanna/thesis/passportphotocreator/processing/background/verification/BackgroundProperties.java:22-24 | returns the stored contour length |
| ProcessingBackgroundProperties.BackgroundProperties.SetPersonContourLen | app/src/main/java/org/joanna/thesis/passportphotocreator/processing/background/verification/BackgroundProperties.java:26-28 | stores the length; the other fields are kept |
| ProcessingBackgroundProperties.BackgroundProperties.SetUniform | app/src/main/java/org/joanna/thesis/passportphotocreator/processing/background/verification/BackgroundProperties.java:34-36 | stores the uniformity score; the other fields are kept |
| ProcessingBackgroundProperties.BackgroundProperties.SetEdgesFree | app/src/main/java/org/joanna/thesis/passportphotocreator/processing/background/verification/BackgroundProperties.java:46-48 | stores the edge score; the other fields are kept |
| ProcessingBackgroundProperties.BackgroundProperties.SetUncolorful | app/src/main/java/org/joanna/thesis/passportphotocreator/processing/background/verification/BackgroundProperties.java:54-56 | stores the colour score; the other fields are kept |
| ProcessingBackgroundProperties.PersonContourLenRoundTrip | app/src/main/java/org/joanna/thesis/passportphotocreator/processing/background/verification/BackgroundProperties.java:22-36 | the getter returns what the setter stored, even after another field was set |
| FlagBackgroundProperties.BackgroundProperties.constructor | app/src/main/java/org/joanna/thesis/passportphotocreator/detectors/background/BackgroundProperties.java:10-14 | the contour length starts at zero and every flag at true |
| FlagBackgroundProperties.BackgroundProperties.SetBgColor | app/src/main/java/org/joanna/thesis/passportphotocreator/detectors/background/BackgroundProperties.java:16-19 | isBright becomes whether the colour's brightness exceeds one half; nothing else changes |
| FlagBackgroundProperties.BackgroundProperties.GetPersonContourLen | app/src/main/java/org/joanna/thesis/passportphotocreator/detectors/background/BackgroundProperties.java:21-23 | returns the stored contour length |
| FlagBackgroundProperties.BackgroundProperties.SetPersonContourLen | app/src/main/java/org/joanna/thesis/passportphotocreator/detectors/background/BackgroundProperties.java:25-27 | stores the length; the other fields are kept |
| FlagBackgroundProperties.BackgroundProperties.SetUniform | app/src/main/java/org/joanna/thesis/passportphotocreator/detectors/background/BackgroundProperties.java:33-35 | stores the flag; the other fields are kept |
| FlagBackgroundProperties.BackgroundProperties.IsUniform | app/src/main/java/org/joanna/thesis/passportphotocreator/detectors/background/BackgroundProperties.java:29-31 | returns the stored flag |
| FlagBackgroundProperties.BackgroundProperties.SetEdgesFree | app/src/main/java/org/joanna/thesis/passportphotocreator/validators/background/BackgroundProperties.java:46-48 | stores the flag; the other fields are kept |
| FlagBackgroundProperties.BackgroundProperties.SetUncolorful | app/src/main/java/org/joanna/thesis/passportphotocreator/validators/background/BackgroundProperties.java:54-56 | stores the flag; the other fields are kept |
| BackgroundRules.Majority | app/src/main/java/org/joanna/thesis/passportphotocreator/processing/background/BackgroundUtils.java:36-40 | isUniform's conditional: uniform ? (edgesFree or uncolorful) : (edgesFree and uncolorful); MajorityIsTwoOfThree gives its meaning |
| BackgroundRules.UniformByArea | app/src/main/java/org/joanna/thesis/passportphotocreator/processing/background/BackgroundUtils.java:131-141 | not uniform iff both uncovered areas exceed a tenth of the image (integer division); UniformByAreaIff gives the closed form |
| BackgroundRules.MajorityIsTwoOfThree | app/src/main/java/org/joanna/thesis/passportphotocreator/processing/background/BackgroundUtils.java:36-40 | the conditional vote is true exactly when at least two of the three flags are, whichever flag it tests first |
| BackgroundRules.UniformByAreaIff | app/src/main/java/org/joanna/thesis/passportphotocreator/processing/background/BackgroundUtils.java:131-141 | the area rule says uniform exactly when the person plus the larger background blob cover all but a tenth of the image |
| BackgroundRules.UniformByAreaMonotone | app/src/main/java/org/joanna/thesis/passportphotocreator/processing/background/BackgroundUtils.java:131-141 | larger background blobs never turn a uniform verdict into a non-uniform one |
| BackgroundRules.UniformBySingleArea | app/src/main/java/org/joanna/thesis/passportphotocreator/detectors/background/BackgroundUtils.java:62-68 | the detectors' one-sided rule: not uniform iff the area neither the person nor the background blob covers exceeds a tenth of the image |
| BackgroundRules.UniformBySingleAreaIff | app/src/main/java/org/joanna/thesis/passportphotocreator/detectors/background/BackgroundUtils.java:62-68 | uniform exactly when the person and the background blob cover all but at most a tenth of the image |
| BackgroundRules.EdgesFree | app/src/main/java/org/joanna/thesis/passportphotocreator/processing/background/BackgroundUtils.java:161-173 | edge-free unless the Canny count minus the person's contour length exceeds the allowance; EdgesFreeIff gives the closed form |
| BackgroundRules.EdgesFreeIff | app/src/main/java/org/joanna/thesis/passportphotocreator/processing/background/BackgroundUtils.java:161-173 | edge-free exactly when the Canny count is at most the person's contour length plus the allowance; a longer contour only helps |
| BackgroundRules.UncolorfulBySpread | app/src/main/java/org/joanna/thesis/passportphotocreator/processing/background/BackgroundUtils.java:203-210 | uncolorful unless the hue spread exceeds 25 or the value spread exceeds 50 |
| BackgroundRules.Abs | app/src/main/java/org/joanna/thesis/passportphotocreator/validators/background/BackgroundProcessing.java:277 | Math.abs: non-negative and equal to x or -x |
| BackgroundRules.BackgroundCorrections | app/src/main/java/org/joanna/thesis/passportphotocreator/validators/background/BackgroundProcessing.java:82-97 | NOT_UNIFORM is listed exactly when the 2-of-3 vote fails, TOO_DARK exactly when the colour is not bright, in that order and nothing else |
| BackgroundRules.FirstOverHalf | app/src/main/java/org/joanna/thesis/passportphotocreator/validators/background/BackgroundProcessing.java:306-312 | the bin found is the first one from the start whose cumulative count exceeds half; none means no bin below 60 does |
| BackgroundRules.CumulativeMonotone | app/src/main/java/org/joanna/thesis/passportphotocreator/validators/background/BackgroundProcessing.java:306-308 | with non-negative bins the running count never decreases |
| BackgroundRules.MedianBinSplitsHalf | app/src/main/java/org/joanna/thesis/passportphotocreator/validators/background/BackgroundProcessing.java:296-314 | the bin found is the median bin: the bins before it count at most half, from it on more than half; the value is 3k + 1 |
| BackgroundRules.GetMedianChannelValue | app/src/main/java/org/joanna/thesis/passportphotocreator/validators/background/BackgroundProcessing.java:296-314 | the loop with its early break returns 3i + 1 for the first bin passing half of the non-black pixels, 0 if none |
| BackgroundRules.FirstFullBin | app/src/main/java/org/joanna/thesis/passportphotocreator/detectors/background/BackgroundUtils.java:148-153 | the first bin holding at least 90 pixels, all earlier bins holding fewer; none means no bin does |
| BackgroundRules.ScanHistogram | app/src/main/java/org/joanna/thesis/passportphotocreator/detectors/background/BackgroundUtils.java:147-153 | the loop returns the count of the first full bin, -1 if there is none |
| BackgroundRules.TwoSidedBlob | app/src/main/java/org/joanna/thesis/passportphotocreator/validators/background/BackgroundProcessing.java:150-162 | the blob check is skipped exactly when no person pixel is found or neither background pixel is |
| BackgroundRules.FoundSeedInRange | app/src/main/java/org/joanna/thesis/passportphotocreator/detectors/background/BackgroundUtils.java:200-212 | a pixel the scan returns lies inside the image |
| BackgroundRules.CandidateSamplesFit | app/src/main/java/org/joanna/thesis/passportphotocreator/processing/background/verification/ColorBlobDetector.java:121-129 | on an image at least 16 wide and 14 high every candidate of every scan is at least 4 pixels from each edge, so its 8 x 8 colour sample fits |
| BackgroundRules.FoundSeedSampleInside | app/src/main/java/org/joanna/thesis/passportphotocreator/processing/background/verification/ColorBlobDetector.java:89-90 | a seed found among such candidates has its getColorRect sample inside the image, so submat does not throw |
| ProcessingBackgroundUtils.ProcessBackgroundColorBlobDetection | app/src/main/java/org/joanna/thesis/passportphotocreator/processing/background/BackgroundUtils.java:93-142 | without seeds nothing changes; otherwise the brightness of the mean colour, the truncated longest person contour and the area rule's score are stored, the other scores kept |
| ProcessingBackgroundUtils.ProcessEdgeDetection | app/src/main/java/org/joanna/thesis/passportphotocreator/processing/background/BackgroundUtils.java:158-174 | stores the score of the edge rule with the 1/150 allowance; the other fields are kept |
| ProcessingBackgroundUtils.ProcessColorsDetection | app/src/main/java/org/joanna/thesis/passportphotocreator/processing/background/BackgroundUtils.java:183-213 | stores the score of hue spread at most 25 and value spread at most 50; the other fields are kept |
| ProcessingBackgroundUtils.IsUniform | app/src/main/java/org/joanna/thesis/passportphotocreator/processing/background/BackgroundUtils.java:25-41 | after the three checks, returns the 2-of-3 vote on the stored scores, which are those of the three rules |
| DetectorBackgroundUtils.OneSidedBlob | app/src/main/java/org/joanna/thesis/passportphotocreator/detectors/background/BackgroundUtils.java:37-49 | the blob check is skipped exactly when the person pixel or the background pixel is not found |
| DetectorBackgroundUtils.ProcessBackgroundColorBlobDetection | app/src/main/java/org/joanna/thesis/passportphotocreator/detectors/background/BackgroundUtils.java:37-71 | without seeds nothing changes; otherwise the background brightness, the truncated person contour and the one-sided area rule are stored |
| DetectorBackgroundUtils.ProcessEdgeDetection | app/src/main/java/org/joanna/thesis/passportphotocreator/detectors/background/BackgroundUtils.java:80-103 | edge-free when the count is at most 1000 beyond the person's contour; the other flags are kept |
| DetectorBackgroundUtils.ProcessColorsDetection | app/src/main/java/org/joanna/thesis/passportphotocreator/detectors/background/BackgroundUtils.java:115-166 | uncolorful when the scanned value is within 10 of the mean hue; the other flags are kept |
| DetectorBackgroundUtils.NoFullBin | app/src/main/java/org/joanna/thesis/passportphotocreator/detectors/background/BackgroundUtils.java:147-159 | without a full bin the value is -1, so the check passes only for a mean hue in [-11, 9] |
| BackgroundProcessing.BackgroundProcessing.constructor | app/src/main/java/org/joanna/thesis/passportphotocreator/validators/background/BackgroundProcessing.java:47-55 | a segmentor is present, the graphic and the property record are fresh, every flag starts true |
| BackgroundProcessing.BackgroundProcessing.Verify | app/src/main/java/org/joanna/thesis/passportphotocreator/validators/background/BackgroundProcessing.java:62-102 | without a segmentor nothing changes; otherwise the graphic joins the overlay, and on a segmented background the flags are those of the three checks and the bar shows their corrections |
| BackgroundProcessing.BackgroundProcessing.Corrections | app/src/main/java/org/joanna/thesis/passportphotocreator/validators/background/BackgroundProcessing.java:82-97 | the positions list equals the background corrections of the stored flags |
| BackgroundProcessing.BackgroundProcessing.ProcessBackgroundColorBlobDetection | app/src/main/java/org/joanna/thesis/passportphotocreator/validators/background/BackgroundProcessing.java:150-198 | without seeds the flags are kept; otherwise brightness, contour length and the two-sided area verdict are stored |
| BackgroundProcessing.BackgroundProcessing.ProcessEdgeDetection | app/src/main/java/org/joanna/thesis/passportphotocreator/validators/background/BackgroundProcessing.java:214-229 | stores the edge rule with the 1/150 allowance; the other flags are kept |
| BackgroundProcessing.BackgroundProcessing.ProcessColorsDetection | app/src/main/java/org/joanna/thesis/passportphotocreator/validators/background/BackgroundProcessing.java:237-284 | stores whether the histogram median is within 3.6 of the mean hue; the other flags are kept |
| BackgroundProcessing.BackgroundProcessing.Enhance | app/src/main/java/org/joanna/thesis/passportphotocreator/validators/background/BackgroundProcessing.java:316-336 | null without a segmentor, otherwise the person pasted onto the blurred frame |
| BackgroundProcessing.AllPassingFlagsClearTheBar | app/src/main/java/org/joanna/thesis/passportphotocreator/validators/background/BackgroundProcessing.java:82-100 | when every flag passes and no other graphic shows icons, the bar ends up empty |
| ContourFolds.Areas | app/src/main/java/org/joanna/thesis/passportphotocreator/processing/background/verification/ColorBlobDetector.java:50 | one contourArea per contour, in order |
| ContourFolds.Perimeters | app/src/main/java/org/joanna/thesis/passportphotocreator/processing/background/verification/ColorBlobDetector.java:71-72 | one arcLength per contour, in order |
| ContourFolds.Max0 | app/src/main/java/org/joanna/thesis/passportphotocreator/processing/background/verification/ColorBlobDetector.java:46-56 | the fold from 0 is non-negative, bounds every element and is 0 or one of them |
| ContourFolds.MaxAtMostSum | app/src/main/java/org/joanna/thesis/passportphotocreator/processing/background/verification/ColorBlobDetector.java:46-65 | with non-negative areas the largest is at most the total, which is non-negative |
| ContourFolds.MaxFold | app/src/main/java/org/joanna/thesis/passportphotocreator/processing/background/verification/ColorBlobDetector.java:46-56 | the loop computes the max fold from 0 |
| ContourFolds.SumFold | app/src/main/java/org/joanna/thesis/passportphotocreator/processing/background/verification/ColorBlobDetector.java:58-65 | the loop computes the total |
| ContourFolds.Filtered | app/src/main/java/org/joanna/thesis/passportphotocreator/processing/background/verification/ColorBlobDetector.java:131-145 | the kept list is no longer than the found one |
| ContourFolds.FilteredMembers | app/src/main/java/org/joanna/thesis/passportphotocreator/processing/background/verification/ColorBlobDetector.java:131-145 | every contour above the fraction of the largest area is kept, scaled; every kept contour is a scaled contour above it |
| ContourFolds.KeptWhenAbove | app/src/main/java/org/joanna/thesis/passportphotocreator/processing/background/verification/ColorBlobDetector.java:140-142 | a contour above the threshold is kept, scaled by imgScale |
| ContourFolds.LargestKept | app/src/main/java/org/joanna/thesis/passportphotocreator/processing/background/verification/ColorBlobDetector.java:117-118 | with a positive largest area and a fraction below one, the largest contour is always kept |
| ContourFolds.ColorRect | app/src/main/java/org/joanna/thesis/passportphotocreator/processing/background/verification/ColorBlobDetector.java:121-129 | the sample rectangle is 8 by 8 |
| ContourFolds.MeanColor | app/src/main/java/org/joanna/thesis/passportphotocreator/processing/background/verification/ColorBlobDetector.java:94-98 | one mean per channel of the sample sum |
| ContourFolds.HsvBounds | app/src/main/java/org/joanna/thesis/passportphotocreator/processing/background/verification/ColorBlobDetector.java:165-181 | both bounds have four channels |
| ContourFolds.HsvBoundsClamp | app/src/main/java/org/joanna/thesis/passportphotocreator/processing/background/verification/ColorBlobDetector.java:165-181 | for a hue in [0, 255] the hue range contains it, stays in [0, 255] and is the radius wide where that fits; saturation and value are plus or minus the radius; alpha is [0, 255] |
| ContourFolds.SummaryBounds | app/src/main/java/org/joanna/thesis/passportphotocreator/processing/background/verification/ColorBlobDetector.java:80-119 | a processed seed's largest area is at most its total area, all non-negative; a rejected seed leaves the defaults |
| ProcessingColorBlob.ColorBlobDetector.constructor | app/src/main/java/org/joanna/thesis/passportphotocreator/processing/background/verification/ColorBlobDetector.java:28-36 | radius (25, 50, 50, 0), blob colour Scalar(255), imgScale 1, no contours |
| ProcessingColorBlob.ColorBlobDetector.Process | app/src/main/java/org/joanna/thesis/passportphotocreator/processing/background/verification/ColorBlobDetector.java:80-119 | a null or out-of-range seed changes nothing; otherwise the blob colour, the HSV range of the sample mean, imgScale times four and the contours above a tenth of the largest; imgScale stays 4^n after n completed calls |
| ProcessingColorBlob.ColorBlobDetector.ProcessSeed | app/src/main/java/org/joanna/thesis/passportphotocreator/processing/background/verification/ColorBlobDetector.java:87-118 | the body past the seed check leaves exactly that state |
| ProcessingColorBlob.ColorBlobDetector.SetHsvColor | app/src/main/java/org/joanna/thesis/passportphotocreator/processing/background/verification/ColorBlobDetector.java:165-181 | the bounds become the HSV range of the colour; nothing else changes |
| ProcessingColorBlob.ColorBlobDetector.DownsizeMat | app/src/main/java/org/joanna/thesis/passportphotocreator/processing/background/verification/ColorBlobDetector.java:147-150 | imgScale doubles; nothing else changes |
| ProcessingColorBlob.ColorBlobDetector.FillContoursList | app/src/main/java/org/joanna/thesis/passportphotocreator/processing/background/verification/ColorBlobDetector.java:131-145 | the list is replaced by the contours above the threshold, scaled by imgScale |
| ProcessingColorBlob.ColorBlobDetector.GetContoursMaxArea | app/src/main/java/org/joanna/thesis/passportphotocreator/processing/background/verification/ColorBlobDetector.java:38-56 | the max fold of the kept areas |
| ProcessingColorBlob.ColorBlobDetector.GetContoursTotalArea | app/src/main/java/org/joanna/thesis/passportphotocreator/processing/background/verification/ColorBlobDetector.java:42-65 | the total of the kept areas |
| ProcessingColorBlob.ColorBlobDetector.GetContoursMaxPerimeter | app/src/main/java/org/joanna/thesis/passportphotocreator/processing/background/verification/ColorBlobDetector.java:67-78 | the max fold of the kept perimeters |
| ProcessingColorBlob.Detect | app/src/main/java/org/joanna/thesis/passportphotocreator/processing/background/verification/ColorBlobDetector.java:80-119 | a fresh detector run on one seed reports the fresh summary of that seed |
| DetectorColorBlob.MinContourArea.constructor | app/src/main/java/org/joanna/thesis/passportphotocreator/detectors/background/ColorBlobDetector.java:20 | the shared minimum area starts at 0.1 |
| DetectorColorBlob.ColorBlobDetector.constructor | app/src/main/java/org/joanna/thesis/passportphotocreator/detectors/background/ColorBlobDetector.java:28-37 | radius (25, 50, 50, 0), both blob colours Scalar(255), imgScale 1, no contours, on the shared minimum area |
| DetectorColorBlob.ColorBlobDetector.Process | app/src/main/java/org/joanna/thesis/passportphotocreator/detectors/background/ColorBlobDetector.java:72-111 | an out-of-range seed changes nothing; otherwise the mean HSV colour, the blob colour, its HSV range, imgScale times four and the contours above the shared fraction; imgScale stays 4^n after n completed calls |
| DetectorColorBlob.ColorBlobDetector.ProcessSeed | app/src/main/java/org/joanna/thesis/passportphotocreator/detectors/background/ColorBlobDetector.java:79-110 | the body past the seed check leaves exactly that state |
| DetectorColorBlob.ColorBlobDetector.SetHsvColor | app/src/main/java/org/joanna/thesis/passportphotocreator/detectors/background/ColorBlobDetector.java:165-181 | the bounds become the HSV range of the colour; nothing else changes |
| DetectorColorBlob.ColorBlobDetector.DownsizeMat | app/src/main/java/org/joanna/thesis/passportphotocreator/detectors/background/ColorBlobDetector.java:139-142 | imgScale doubles; nothing else changes |
| DetectorColorBlob.ColorBlobDetector.FillContoursList | app/src/main/java/org/joanna/thesis/passportphotocreator/detectors/background/ColorBlobDetector.java:123-137 | the list is replaced by the contours above the shared threshold, scaled |
| DetectorColorBlob.ColorBlobDetector.SetColorRadius | app/src/main/java/org/joanna/thesis/passportphotocreator/detectors/background/ColorBlobDetector.java:194-196 | stores the radius; nothing else changes |
| DetectorColorBlob.ColorBlobDetector.SetMinContourArea | app/src/main/java/org/joanna/thesis/passportphotocreator/detectors/background/ColorBlobDetector.java:198-200 | writes the shared static field |
| DetectorColorBlob.ColorBlobDetector.GetContours | app/src/main/java/org/joanna/thesis/passportphotocreator/detectors/background/ColorBlobDetector.java:153-155 | returns the kept list |
| DetectorColorBlob.ColorBlobDetector.GetContoursMaxArea | app/src/main/java/org/joanna/thesis/passportphotocreator/detectors/background/ColorBlobDetector.java:39-55 | the max fold of the kept areas |
| DetectorColorBlob.ColorBlobDetector.GetContoursMaxPerimeter | app/src/main/java/org/joanna/thesis/passportphotocreator/detectors/background/ColorBlobDetector.java:57-70 | the max fold of the kept perimeters |
| DetectorColorBlob.Detect | app/src/main/java/org/joanna/thesis/passportphotocreator/detectors/background/ColorBlobDetector.java:72-111 | a fresh detector on the shared minimum area run on one seed reports that seed's fresh summary |
| DetectorColorBlob.SharedMinArea | app/src/main/java/org/joanna/thesis/passportphotocreator/detectors/background/ColorBlobDetector.java:20-200 | a minimum area set through one detector is the one another detector on the same static field uses |
| Nv21Encoding.Shr8 | app/src/androidTest/java/org/joanna/thesis/passportphotocreator/utils/TestUtils.java:69-71 | the arithmetic shift rounds toward minus infinity, also for a negative sum |
| Nv21Encoding.Red | app/src/androidTest/java/org/joanna/thesis/passportphotocreator/utils/TestUtils.java:64 | the red byte is in [0, 255] |
| Nv21Encoding.Green | app/src/androidTest/java/org/joanna/thesis/passportphotocreator/utils/TestUtils.java:65 | the green byte is in [0, 255] |
| Nv21Encoding.Blue | app/src/androidTest/java/org/joanna/thesis/passportphotocreator/utils/TestUtils.java:66 | the blue byte is in [0, 255] |
| Nv21Encoding.PackArgb | app/src/androidTest/java/org/joanna/thesis/passportphotocreator/utils/TestUtils.java:63-66 | the packed colour is a 32-bit int equal to the channel bits modulo 2^32 |
| Nv21Encoding.UnpackPacked | app/src/androidTest/java/org/joanna/thesis/passportphotocreator/utils/TestUtils.java:63-66 | unpacking a packed colour gives back its red, green and blue bytes, whatever the alpha |
| Nv21Encoding.Luma | app/src/androidTest/java/org/joanna/thesis/passportphotocreator/utils/TestUtils.java:69 | Y = ((66R + 129G + 25B + 128) >> 8) + 16; LumaRange bounds it |
| Nv21Encoding.ChromaU | app/src/androidTest/java/org/joanna/thesis/passportphotocreator/utils/TestUtils.java:70 | U = ((−38R − 74G + 112B + 128) >> 8) + 128; ChromaRange bounds it |
| Nv21Encoding.ChromaV | app/src/androidTest/java/org/joanna/thesis/passportphotocreator/utils/TestUtils.java:71 | V = ((112R − 94G − 18B + 128) >> 8) + 128; ChromaRange bounds it |
| Nv21Encoding.Clamp | app/src/androidTest/java/org/joanna/thesis/passportphotocreator/utils/TestUtils.java:76-79 | the clamp lands in [0, 255], keeps values already there and sends the rest to the nearer end |
| Nv21Encoding.YByte | app/src/androidTest/java/org/joanna/thesis/passportphotocreator/utils/TestUtils.java:76 | the Y byte of a pixel: the clamped luma narrowed to a Java byte |
| Nv21Encoding.LumaRange | app/src/androidTest/java/org/joanna/thesis/passportphotocreator/utils/TestUtils.java:69 | for 8-bit channels Y is in [16, 235], so its clamp changes nothing |
| Nv21Encoding.ChromaRange | app/src/androidTest/java/org/joanna/thesis/passportphotocreator/utils/TestUtils.java:70-71 | for 8-bit channels U and V are in [16, 240], so their clamps change nothing |
| Nv21Encoding.GreyChroma | app/src/androidTest/java/org/joanna/thesis/passportphotocreator/utils/TestUtils.java:70-71 | a grey pixel has U = V = 128 |
| Nv21Encoding.ProductIsMul | app/src/androidTest/java/org/joanna/thesis/passportphotocreator/utils/TestUtils.java:53 | the row-by-row pixel count is width * height |
| Nv21Encoding.ChromaPos | app/src/androidTest/java/org/joanna/thesis/passportphotocreator/utils/TestUtils.java:77-80 | the V byte of an even pixel of an even row has an even slot, and its pair fits inside the chroma plane |
| Nv21Encoding.ChromaRow | app/src/androidTest/java/org/joanna/thesis/passportphotocreator/utils/TestUtils.java:77 | every chroma byte belongs to an even row inside the frame |
| Nv21Encoding.ChromaCol | app/src/androidTest/java/org/joanna/thesis/passportphotocreator/utils/TestUtils.java:77 | every chroma byte belongs to an even column inside the frame |
| Nv21Encoding.ChromaPosDecodes | app/src/androidTest/java/org/joanna/thesis/passportphotocreator/utils/TestUtils.java:77-80 | both bytes of an even pixel's pair decode back to that pixel |
| Nv21Encoding.ChromaDecodeEncodes | app/src/androidTest/java/org/joanna/thesis/passportphotocreator/utils/TestUtils.java:77-80 | every chroma byte sits at the slot of the pixel it decodes to: the pairs fill the plane without a gap |
| Nv21Encoding.ChromaOfEvenPixel | app/src/androidTest/java/org/joanna/thesis/passportphotocreator/utils/TestUtils.java:77-80 | the chroma plane holds V then U of each even pixel of each even row |
| Nv21Encoding.EvenRowParity | app/src/androidTest/java/org/joanna/thesis/passportphotocreator/utils/TestUtils.java:77 | on an even row the flat index has the column's parity, so index % 2 selects the even columns |
| Nv21Encoding.ChromaBytesStep | app/src/androidTest/java/org/joanna/thesis/passportphotocreator/utils/TestUtils.java:60-80 | an even row adds two bytes per even column, an odd row none |
| Nv21Encoding.PairsDetermineChroma | app/src/androidTest/java/org/joanna/thesis/passportphotocreator/utils/TestUtils.java:77-80 | a plane holding every pair in place holds the chroma byte at every position |
| Nv21Encoding.BufferEncodes | app/src/androidTest/java/org/joanna/thesis/passportphotocreator/utils/TestUtils.java:52-85 | a buffer of luma plane, chroma plane and untouched tail is the NV21 encoding of the pixels |
| Nv21Encoding.EncodeYuv420sp | app/src/androidTest/java/org/joanna/thesis/passportphotocreator/utils/TestUtils.java:52-85 | the Y byte of every pixel in row-major order, then V/U of every even pixel of every even row, and nothing past them changes |
| Nv21Encoding.EncodeRow | app/src/androidTest/java/org/joanna/thesis/passportphotocreator/utils/TestUtils.java:61-83 | one row writes its width of Y bytes and, on an even row, one pair per even column |
| Nv21Encoding.EncodePixel | app/src/androidTest/java/org/joanna/thesis/passportphotocreator/utils/TestUtils.java:63-82 | one pixel writes its Y byte and, at an even index of an even row, its V/U pair |
| Nv21Encoding.StoreLuma | app/src/androidTest/java/org/joanna/thesis/passportphotocreator/utils/TestUtils.java:76 | the Y write extends the luma prefix and keeps the rest |
| Nv21Encoding.StoreChroma | app/src/androidTest/java/org/joanna/thesis/passportphotocreator/utils/TestUtils.java:78-79 | the two chroma writes extend the chroma plane by one pair and keep the rest |
| Nv21Encoding.YuvBufferAsWritten | app/src/androidTest/java/org/joanna/thesis/passportphotocreator/utils/TestUtils.java:92 | the buffer size as written, w·h·3/2 with integer division |
| Nv21Encoding.EvenFrameFillsBuffer | app/src/androidTest/java/org/joanna/thesis/passportphotocreator/utils/TestUtils.java:92 | with even width and height the buffer of three halves is exactly what the encoder writes |
| Nv21Encoding.AsWrittenBufferTooSmall | app/src/androidTest/java/org/joanna/thesis/passportphotocreator/utils/TestUtils.java:92 | with an odd width or height the buffer is shorter than what the encoder writes |
| Nv21Encoding.SinglePixelOverflows | app/src/androidTest/java/org/joanna/thesis/passportphotocreator/utils/TestUtils.java:92 | for a 1 x 1 frame the buffer holds 1 byte and the encoder writes 3 |
| Nv21Encoding.GetYuvBytes | app/src/androidTest/java/org/joanna/thesis/passportphotocreator/utils/TestUtils.java:87-97 | a fresh buffer of the size the encoder writes, holding the NV21 encoding of the pixels |

## Left out

- OpenCV and TFLite image operations are not modelled. Their results are parameters of the model. These operations are segmentation (`getBackground`, `getPersonMask`, `getMaskedPerson`), `cvtColor`, `Canny` and `countNonZero`, `meanStdDev`, `calcHist`, `Core.mean`, `findContours`, `inRange`, `dilate`, `pyrDown`, `blur`, `resize`, `rotate` and the HSV-to-RGBA conversion of a blob colour.
- Floating point is modelled as exact reals, so the rounding of `float` constants such as `1.2f`, `1.3f` and `35f / 45f` is not modelled.
- Integers are unbounded, so a 32-bit overflow of `width * height` on huge images is not modelled. The `int8` byte and the packed ARGB `int` are modelled exactly.
- Drawing is left out: `FaceGraphic.draw`, canvas and paint calls, the bitmap icons themselves, and the setHsvColor spectrum Mat (it is only drawn). The icon table of each graphic subclass is a constructor argument.
- `GraphicOverlay`'s lock, `postInvalidate` throttling and view plumbing are left out. The overlay is a set of graphics with `add` and `remove`.
- Logging, `Mat.release`, `clone`, `isContinuous` and `close()` have no effect on the modelled state and are left out.
- I/O is left out: `saveImage`, bitmap decoding, file reading, the `IOException` of model loading, and `getPixels` of a rotated bitmap (its pixels are an input of `GetYuvBytes`).
- The pixel copy of `getMultiplePhotosOnOnePaper` into the sheet Mat is left out. The model computes the roi of every copy.
- ImageUtils.GetMultiplePhotosOnOnePaper: returns every roi of the written layout, including one that runs past the bottom of the sheet. There `bigMat.submat(roi)` throws in the source, and the model does not stop at that roi.
- BackgroundPixels.Pasted: keeps the blended colour as exact reals. `output.put(y, x, point)` stores it into the 8-bit clone of the background, which rounds each channel to an integer and saturates it; that store is not modelled.
- BackgroundPixels.Paste: the same, for the same store.
- validators/background/ColorBlobDetector.java, the detector of the validators package, is not part of this model. validators/background/BackgroundProcessing.java calls that detector. The model substitutes the processing package's detector in its place. It assumes, without proof, that the two detectors compute the same areas, perimeters and colours.
- The `a` (alpha) value unpacked by the NV21 encoder is never used, so it is left out.
- BackgroundPixels.FirstMatch: requires every candidate to lie inside the image, because outside it `Mat.get` returns null and `getBrigtness` then throws.
- BackgroundPixels.FindPixel: the same precondition, for the same reason.
- BackgroundRules.TwoSidedBlob: requires the seed candidates to be readable, for the same reason. `CandidatesInImage` shows this holds on every image more than ten pixels wide and high.
- DetectorBackgroundUtils.OneSidedBlob: the same precondition, for the same reason.
- ContourFolds.HsvBounds: is defined for four-valued Scalars only, which every OpenCV Scalar is.
- ProcessingColorBlob.ColorBlobDetector.Process: requires a four-valued sample sum and blob colour (`WellFormed`), as OpenCV always returns them.
- ProcessingColorBlob.ColorBlobDetector.Process: does not model the throw of `src.submat(colorRect)` when the 8 x 8 sample at p − 4 leaves the image. A seed the range check lets through within 4 pixels of an edge gets a processed summary in the model. `FoundSeedSampleInside` and `CandidateSamplesFit` show that the seeds the background checks pass never come that close on images of at least 16 x 14 pixels.
- DetectorColorBlob.ColorBlobDetector.Process: requires a four-valued sample sum and blob colour too (`WellFormed`).
- DetectorColorBlob.ColorBlobDetector.Process: does not model the same throw, for the same reason.
- Graphics.Graphic.SetBarActions: requires every position to have an icon. For a missing one, Java unboxes null and throws. `CorrectionsHaveIcons` shows that the tracker's tables cover every correction.
- Nv21Encoding.EncodeYuv420sp: requires an `argb` array of at least `width * height` pixels and a buffer of at least `RequiredYuvSize` bytes. With less, Java throws `ArrayIndexOutOfBoundsException`. The finding below shows that `getYuvBytes` as written allocates less for odd sizes.
- ImageUtils.PadMatToSquare: requires the image to fit in the square. For a larger one the borders would be negative and OpenCV throws.
- ImageUtils.PadMatToSquareBlack: the same precondition, for the same reason.
- BackgroundProcessing.BackgroundProcessing.Verify: the frame's segmentation is an input (`None` when `getBackground` gives null). The detections and histogram are inputs too.
- BackgroundProcessing.BackgroundProcessing.Enhance: the person cut-out and the blurred, brightened frame are inputs. Only the guard and the paste are modelled.

## Findings

| source | as written | input that shows it | evidently intended | confidence | as-written member | corrected member |
|---|---|---|---|---|---|---|
| app/src/main/java/org/joanna/thesis/passportphotocreator/utils/ImageUtils.java:366 | the vertical gap between photos is computed from the leftover columns `cols % w` | a 100 × 100 photo on a sheet of 100 rows and 199 columns gets a vertical gap of 49 and ends at row 149, past the sheet | the vertical gap comes from the leftover rows `rows % h`, so every photo lies on the sheet | not executed | ImageUtils.AsWrittenTileLeavesSheet | ImageUtils.GetMultiplePhotosOnOnePaperCorrected |
| app/src/androidTest/java/org/joanna/thesis/passportphotocreator/utils/TestUtils.java:92 | the NV21 buffer holds `w * h * 3 / 2` bytes | a 1 × 1 bitmap gets a 1-byte buffer, but the encoder writes 3 bytes, so it throws | the buffer holds the Y plane plus two bytes per even pixel of every even row (`RequiredYuvSize`) | not executed | Nv21Encoding.AsWrittenBufferTooSmall | Nv21Encoding.GetYuvBytes |

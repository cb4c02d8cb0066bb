/** utils/ImageUtils.java: the passport-photo geometry. A 35:45 crop is cut
    around the face, checked against the picture, padded to the square the
    segmentation model expects and unpadded afterwards, and the final photo
    is tiled on a print sheet. */
module ImageUtils {
  import opened JavaSemantics
  import opened Geometry
  import opened Images
  import opened Faces
  import PPCUtils
  import ProcessingFaceUtils

  const FINAL_IMAGE_WIDTH_FACTOR: real := 35.0
  const FINAL_IMAGE_HEIGHT_FACTOR: real := 45.0
  const FINAL_IMAGE_H_TO_W_RATIO: real := FINAL_IMAGE_HEIGHT_FACTOR / FINAL_IMAGE_WIDTH_FACTOR
  const FINAL_IMAGE_W_TO_H_RATIO: real := FINAL_IMAGE_WIDTH_FACTOR / FINAL_IMAGE_HEIGHT_FACTOR
  /** 3.5 cm at 600 pixels per inch. */
  const FINAL_IMAGE_WIDTH_PX: int := 827
  const FINAL_IMAGE_HEIGHT_PX: int := Trunc(FINAL_IMAGE_WIDTH_PX as real * FINAL_IMAGE_H_TO_W_RATIO)
  /** How much larger the taken picture is than the preview the face was
      detected on. */
  const PICTURE_PROCESS_SCALE: int := 8
  /** ImageSegmentor.PROCESS_IMG_SIZE: the square side the model works on. */
  const PROCESS_IMG_SIZE: int := 448

  /** The final photo is 827 x 1063 pixels. */
  lemma FinalImageHeight()
    ensures FINAL_IMAGE_HEIGHT_PX == 1063
  {
    assert 1063.0 <= 827.0 * (45.0 / 35.0) < 1064.0;
  }

  /** resizeMat(src, width): the height that keeps the 35:45 shape. */
  function ResizeHeight(width: int): (h: int)
    ensures width >= 0 ==> h as real <= width as real * 45.0 / 35.0 < h as real + 1.0
  {
    Trunc(width as real * FINAL_IMAGE_H_TO_W_RATIO)
  }

  /** resizeMatToFinalSize is resizeMat at the final width. */
  lemma FinalSizeIsResizeAtFinalWidth()
    ensures ResizeHeight(FINAL_IMAGE_WIDTH_PX) == FINAL_IMAGE_HEIGHT_PX
  {
  }

  /** Math.ceil. */
  function Ceil(x: real): (c: int)
    ensures c as real - 1.0 < x <= c as real
  {
    -((-x).Floor)
  }

  /** The width the background code resizes to before segmentation,
      ceil(448 * 35 / 45). */
  function SegmentationWidth(): int
  {
    Ceil(PROCESS_IMG_SIZE as real * FINAL_IMAGE_W_TO_H_RATIO)
  }

  /** The crop resized for segmentation is 349 wide and exactly 448 high, so
      padding it to the 448 square adds columns only. */
  lemma SegmentationSizes()
    ensures SegmentationWidth() == 349
    ensures ResizeHeight(SegmentationWidth()) == PROCESS_IMG_SIZE
  {
    assert 348.0 < 448.0 * (35.0 / 45.0) <= 349.0;
    assert 448.0 <= 349.0 * (45.0 / 35.0) < 449.0;
  }

  // ---------------------------------------------------------------------
  // Bounds check

  /** verifyBoundingBox(cutLeft, cutTop, cutRight, cutBottom, canvasSize). */
  function VerifyBoundingBox(cutLeft: int, cutTop: int, cutRight: int, cutBottom: int, width: int, height: int): (ok: bool)
    ensures ok ==> 0 < cutRight - cutLeft <= width && 0 <= cutTop && cutBottom <= height
  {
    cutLeft >= 0 && cutTop >= 0 && cutRight > cutLeft && cutRight <= width && cutBottom <= height
  }

  /** verifyBoundingBox(rect, canvasSize). */
  function VerifyRect(r: Rect, width: int, height: int): bool
  {
    VerifyBoundingBox(r.left, r.top, r.right, r.bottom, width, height)
  }

  /** An accepted box lies inside the canvas and is not empty horizontally;
      when its bottom is not above its top it is a legal submat. */
  lemma VerifiedBoxInsideCanvas(r: Rect, width: int, height: int)
    requires VerifyRect(r, width, height)
    ensures 0 <= r.left < r.right <= width && 0 <= r.top
    ensures r.bottom >= r.top ==> r.bottom <= height && r.top <= height
  {
  }

  /** The check never compares bottom with top: an upside-down box passes. */
  lemma VerifyAcceptsInvertedBox()
    ensures VerifyRect(Rect(0, 5, 1, 3), 10, 10)
    ensures Rect(0, 5, 1, 3).Height() < 0
  {
  }

  // ---------------------------------------------------------------------
  // Crops around the face shown on the overlay

  /** What the crops read from the FaceGraphic on the overlay: whether it
      tracks exactly one face, whether it has a box, and the box as
      proportions of the preview. */
  datatype FaceGraphicView = FaceGraphicView(
    oneFace: bool, hasBoundingBox: bool,
    bbProportionLeft: real, bbProportionTop: real, bbProportionWidth: real,
    bbProportionCenterX: real, bbProportionCenterY: real)

  predicate CropAllowed(g: Option<FaceGraphicView>)
  {
    g.Some? && g.value.oneFace && g.value.hasBoundingBox
  }

  /** The rectangle cropMatToFaceBoundingBox cuts before its bounds check. */
  function FaceCropCandidate(g: FaceGraphicView, matWidth: int, matHeight: int): (r: Rect)
  {
    var cutWidth := Trunc(g.bbProportionWidth * matWidth as real);
    var cutHeight := Trunc(cutWidth as real * FINAL_IMAGE_H_TO_W_RATIO);
    var cutLeft := Trunc(g.bbProportionLeft * matWidth as real);
    var cutTop := Trunc(g.bbProportionTop * matHeight as real);
    Rect(cutLeft, cutTop, cutLeft + cutWidth, cutTop + cutHeight)
  }

  /** cropMatToFaceBoundingBox as a rectangle: None (null) unless the overlay
      shows one face with a box and the 35:45 cut fits the picture. */
  function FaceCropRect(g: Option<FaceGraphicView>, matWidth: int, matHeight: int): (r: Option<Rect>)
    ensures r.Some? <==> CropAllowed(g) && VerifyRect(FaceCropCandidate(g.value, matWidth, matHeight), matWidth, matHeight)
    ensures r.Some? ==> 0 <= r.value.left < r.value.right <= matWidth
    ensures r.Some? ==> 0 <= r.value.top <= r.value.bottom <= matHeight
    ensures r.Some? ==> r.value.Height() == Trunc(r.value.Width() as real * 45.0 / 35.0)
  {
    if !CropAllowed(g) then None
    else
      var c := FaceCropCandidate(g.value, matWidth, matHeight);
      if !VerifyRect(c, matWidth, matHeight) then None
      else
        assert c.Height() >= 0 by {
          assert c.Width() > 0;
          TruncMonotone(0.0, c.Width() as real * FINAL_IMAGE_H_TO_W_RATIO);
        }
        Some(c)
  }

  /** cropMatToFaceBoundingBox. */
  function CropMatToFaceBoundingBox(src: Mat, g: Option<FaceGraphicView>): (m: Option<Mat>)
    requires src.Valid()
    ensures m.Some? <==> FaceCropRect(g, src.cols, src.rows).Some?
    ensures m.Some? ==> m.value.Valid() && m.value.cols == FaceCropRect(g, src.cols, src.rows).value.Width()
                        && m.value.rows == FaceCropRect(g, src.cols, src.rows).value.Height()
  {
    match FaceCropRect(g, src.cols, src.rows)
    case None => None
    case Some(r) => Some(Submat(src, r.top, r.bottom, r.left, r.right))
  }

  /** The rectangle cropMatToGetFaceOnly cuts: 0.57 of the face box width,
      centred horizontally and starting a fifth of its height above the
      centre; width and height are both scaled by the picture width. */
  function FaceOnlyCandidate(g: FaceGraphicView, matWidth: int, matHeight: int): (r: Rect)
  {
    var faceWidthProp := g.bbProportionWidth * 0.57;
    var faceHeightProp := g.bbProportionWidth * 0.57;
    var leftProp := g.bbProportionCenterX - faceWidthProp / 2.0;
    var topProp := g.bbProportionCenterY - faceHeightProp * 0.2;
    var cutWidth := Trunc(faceWidthProp * matWidth as real);
    var cutHeight := Trunc(faceHeightProp * matWidth as real);
    var cutLeft := Trunc(leftProp * matWidth as real);
    var cutTop := Trunc(topProp * matHeight as real);
    Rect(cutLeft, cutTop, cutLeft + cutWidth, cutTop + cutHeight)
  }

  /** cropMatToGetFaceOnly as a rectangle: the same guard, and the cut is
      always a square inside the picture. */
  function FaceOnlyRect(g: Option<FaceGraphicView>, matWidth: int, matHeight: int): (r: Option<Rect>)
    ensures r.Some? <==> CropAllowed(g) && VerifyRect(FaceOnlyCandidate(g.value, matWidth, matHeight), matWidth, matHeight)
    ensures r.Some? ==> r.value.Width() == r.value.Height() > 0
    ensures r.Some? ==> 0 <= r.value.left && r.value.right <= matWidth && 0 <= r.value.top && r.value.bottom <= matHeight
  {
    if !CropAllowed(g) then None
    else
      var c := FaceOnlyCandidate(g.value, matWidth, matHeight);
      if !VerifyRect(c, matWidth, matHeight) then None else Some(c)
  }

  /** cropMatToGetFaceOnly. */
  function CropMatToGetFaceOnly(src: Mat, g: Option<FaceGraphicView>): (m: Option<Mat>)
    requires src.Valid()
    ensures m.Some? <==> FaceOnlyRect(g, src.cols, src.rows).Some?
    ensures m.Some? ==> m.value.Valid() && m.value.rows == m.value.cols
  {
    match FaceOnlyRect(g, src.cols, src.rows)
    case None => None
    case Some(r) => Some(Submat(src, r.top, r.bottom, r.left, r.right))
  }

  // ---------------------------------------------------------------------
  // Square padding for the segmentation model

  datatype Padding = Padding(top: int, bottom: int, left: int, right: int)

  /** The borders padMatToSquare and padMatToSquareBlack add: half of the
      missing rows and columns before the image, the rest after it. */
  function SquarePadding(height: int, width: int, borderSize: int): (p: Padding)
    ensures p.top + height + p.bottom == borderSize
    ensures p.left + width + p.right == borderSize
    ensures height <= borderSize ==> 0 <= p.top && 0 <= p.bottom - p.top <= 1
    ensures width <= borderSize ==> 0 <= p.left && 0 <= p.right - p.left <= 1
  {
    var top := JavaDiv(borderSize - height, 2);
    var left := JavaDiv(borderSize - width, 2);
    Padding(top, borderSize - top - height, left, borderSize - left - width)
  }

  datatype Border = Replicate | Constant(value: Pixel)

  function Clamp(x: int, hi: int): int
    requires 0 <= hi
  {
    if x < 0 then 0 else if x > hi then hi else x
  }

  /** The pixel of Core.copyMakeBorder at (r, c): the source pixel inside,
      the nearest edge pixel (replicate) or the constant outside. */
  function BorderPixel(src: Mat, p: Padding, border: Border, r: int, c: int): Pixel
    requires src.Valid()
    requires border.Replicate? ==> src.rows > 0 && src.cols > 0
  {
    var sr := r - p.top;
    var sc := c - p.left;
    if 0 <= sr < src.rows && 0 <= sc < src.cols then src.px[sr][sc]
    else match border
      case Replicate => src.px[Clamp(sr, src.rows - 1)][Clamp(sc, src.cols - 1)]
      case Constant(v) => v
  }

  /** Core.copyMakeBorder(src, dst, top, bottom, left, right, type, value). */
  function CopyMakeBorder(src: Mat, p: Padding, border: Border): (dst: Mat)
    requires src.Valid()
    requires p.top >= 0 && p.bottom >= 0 && p.left >= 0 && p.right >= 0
    requires border.Replicate? ==> src.rows > 0 && src.cols > 0
    requires border.Constant? ==> |border.value| == src.channels
    ensures dst.Valid() && dst.channels == src.channels
    ensures dst.rows == p.top + src.rows + p.bottom && dst.cols == p.left + src.cols + p.right
    ensures forall r, c :: 0 <= r < src.rows && 0 <= c < src.cols ==> dst.px[p.top + r][p.left + c] == src.px[r][c]
  {
    var rows := p.top + src.rows + p.bottom;
    var cols := p.left + src.cols + p.right;
    var dst := Mat(rows, cols, src.channels,
                   seq(rows, r requires 0 <= r < rows =>
                     seq(cols, c requires 0 <= c < cols => BorderPixel(src, p, border, r, c))));
    dst
  }

  /** padMatToSquare: replicate the edge pixels out to the square. The
      source must fit the square and be non-empty. */
  function PadMatToSquare(src: Mat, borderSize: int): (dst: Mat)
    requires src.Valid() && 0 < src.rows <= borderSize && 0 < src.cols <= borderSize
    ensures dst.Valid() && dst.rows == borderSize && dst.cols == borderSize && dst.channels == src.channels
  {
    CopyMakeBorder(src, SquarePadding(src.rows, src.cols, borderSize), Replicate)
  }

  /** The border colour of padMatToSquareBlack, Scalar(0, 0, 0, 255), cut to
      the image's channels. */
  function OpaqueBlack(channels: nat): (v: Pixel)
    requires channels <= 4
    ensures |v| == channels
  {
    ScalarOf([0.0, 0.0, 0.0, 255.0])[..channels]
  }

  /** padMatToSquareBlack: the same borders filled with opaque black. */
  function PadMatToSquareBlack(src: Mat, borderSize: int): (dst: Mat)
    requires src.Valid() && src.rows <= borderSize && src.cols <= borderSize && src.channels <= 4
    ensures dst.Valid() && dst.rows == borderSize && dst.cols == borderSize && dst.channels == src.channels
  {
    CopyMakeBorder(src, SquarePadding(src.rows, src.cols, borderSize), Constant(OpaqueBlack(src.channels)))
  }

  /** unpadMatFromSquare: all rows, and the imgWidth columns in the middle. */
  function UnpadMatFromSquare(src: Mat, imgWidth: int): (dst: Mat)
    requires src.Valid() && 0 <= imgWidth <= src.cols
    ensures dst.Valid() && dst.rows == src.rows && dst.cols == imgWidth && dst.channels == src.channels
  {
    var left := JavaDiv(src.cols - imgWidth, 2);
    Submat(src, 0, src.rows, left, left + imgWidth)
  }

  /** Unpadding an image padded by SquarePadding at its own width gives back
      its columns: every source pixel is where it was, shifted down by the
      top border; an image as high as the square comes back unchanged. */
  lemma {:induction false} UnpadUndoesBorder(src: Mat, borderSize: int, border: Border)
    requires src.Valid() && 0 < src.rows <= borderSize && 0 < src.cols <= borderSize
    requires border.Constant? ==> |border.value| == src.channels
    ensures var padded := CopyMakeBorder(src, SquarePadding(src.rows, src.cols, borderSize), border);
            var back := UnpadMatFromSquare(padded, src.cols);
            var top := SquarePadding(src.rows, src.cols, borderSize).top;
            back.rows == borderSize && back.cols == src.cols &&
            (forall r, c :: 0 <= r < src.rows && 0 <= c < src.cols ==> back.px[top + r][c] == src.px[r][c]) &&
            (src.rows == borderSize ==> back == src)
  {
    var p := SquarePadding(src.rows, src.cols, borderSize);
    var padded := CopyMakeBorder(src, p, border);
    UnpadKeepsSource(src, padded, p);
    if src.rows == borderSize {
      assert p.top == 0;
      MatEquality(UnpadMatFromSquare(padded, src.cols), src);
    }
  }

  /** Cutting the src.cols middle columns out of an image that holds src
      with `p.left` columns before it and as many or one more after it
      gives back src's columns, shifted down by `p.top`. */
  lemma UnpadKeepsSource(src: Mat, padded: Mat, p: Padding)
    requires src.Valid() && padded.Valid() && 0 <= p.top && 0 <= p.bottom && 0 <= p.left && 0 <= p.right - p.left <= 1
    requires padded.rows == p.top + src.rows + p.bottom && padded.cols == p.left + src.cols + p.right
    requires forall r, c :: 0 <= r < src.rows && 0 <= c < src.cols ==> padded.px[p.top + r][p.left + c] == src.px[r][c]
    ensures forall r, c :: 0 <= r < src.rows && 0 <= c < src.cols ==>
              UnpadMatFromSquare(padded, src.cols).px[p.top + r][c] == src.px[r][c]
  {
    assert JavaDiv(padded.cols - src.cols, 2) == p.left;
    var back := UnpadMatFromSquare(padded, src.cols);
    forall r, c | 0 <= r < src.rows && 0 <= c < src.cols
      ensures back.px[p.top + r][c] == src.px[r][c]
    {
      assert back.px[p.top + r][c] == padded.px[p.top + r][p.left + c];
    }
  }

  /** The round trip for padMatToSquare. */
  lemma UnpadUndoesPad(src: Mat, borderSize: int)
    requires src.Valid() && 0 < src.rows <= borderSize && 0 < src.cols <= borderSize
    ensures UnpadMatFromSquare(PadMatToSquare(src, borderSize), src.cols).cols == src.cols
    ensures src.rows == borderSize ==> UnpadMatFromSquare(PadMatToSquare(src, borderSize), src.cols) == src
  {
    UnpadUndoesBorder(src, borderSize, Replicate);
  }

  /** The round trip for padMatToSquareBlack. */
  lemma UnpadUndoesPadBlack(src: Mat, borderSize: int)
    requires src.Valid() && 0 < src.rows <= borderSize && 0 < src.cols <= borderSize && src.channels <= 4
    ensures UnpadMatFromSquare(PadMatToSquareBlack(src, borderSize), src.cols).cols == src.cols
    ensures src.rows == borderSize ==> UnpadMatFromSquare(PadMatToSquareBlack(src, borderSize), src.cols) == src
  {
    UnpadUndoesBorder(src, borderSize, Constant(OpaqueBlack(src.channels)));
  }

  // ---------------------------------------------------------------------
  // The photo taken

  /** getFaceMatFromPictureTaken before its final resize: the bitmap is
      turned a quarter (its width becomes the row count), the preview face
      box is scaled up by PICTURE_PROCESS_SCALE and, if it fits, is the
      region that is cut out and resized to 827 x 1063. */
  function FaceRegionFromPictureTaken(face: Option<Face>, bitmapWidth: nat, bitmapHeight: nat): (roi: Option<CvRect>)
    ensures roi.Some? <==> (face.Some? &&
              VerifyRect(PPCUtils.MultiplyRect(PICTURE_PROCESS_SCALE, ProcessingFaceUtils.FaceOnlyBoundingBox(face.value)),
                         bitmapHeight, bitmapWidth))
    ensures roi.Some? ==> 0 <= roi.value.x && 0 < roi.value.width && roi.value.x + roi.value.width <= bitmapHeight
    ensures roi.Some? ==> 0 <= roi.value.y && 0 <= roi.value.height && roi.value.y + roi.value.height <= bitmapWidth
  {
    if face.None? then None
    else
      var rows := bitmapWidth;
      var cols := bitmapHeight;
      var small := ProcessingFaceUtils.FaceOnlyBoundingBox(face.value);
      var box := PPCUtils.MultiplyRect(PICTURE_PROCESS_SCALE, small);
      if !VerifyRect(box, cols, rows) then None
      else
        FaceBoxHeightNonNegative(face.value);
        Some(PPCUtils.AndroidRectToOpenCVRect(box))
  }

  /** A face box that is wider than zero is not upside down. */
  lemma {:induction false} FaceBoxHeightNonNegative(face: Face)
    requires ProcessingFaceUtils.FaceOnlyBoundingBox(face).Width() > 0
    ensures ProcessingFaceUtils.FaceOnlyBoundingBox(face).Height() >= 0
  {
    var cx := Trunc(face.x + face.width / 2.0) as real;
    var cy := Trunc(face.y + face.height / 2.0) as real;
    var w := Trunc(face.width * ProcessingFaceUtils.BB_SCALING) as real;
    var e := ProcessingFaceUtils.BoxEdges(cx, cy, w);
    if w < 0.0 {
      TruncMonotone(e.right, e.left);
      assert false;
    }
    assert ProcessingFaceUtils.HeightFor(w) >= 0.0;
    TruncMonotone(e.top, e.bottom);
  }

  // ---------------------------------------------------------------------
  // Several photos on one print sheet

  datatype TileLayout = TileLayout(hCount: int, hSpace: int, vCount: int, vSpace: int)

  /** The layout of getMultiplePhotosOnOnePaper as written: the vertical
      gap is computed from the leftover columns, not the leftover rows. */
  function LayoutAsWritten(rows: nat, cols: nat, w: nat, h: nat): (l: TileLayout)
    requires w > 0 && h > 0
    ensures l.hCount == Layout(rows, cols, w, h).hCount && l.hSpace == Layout(rows, cols, w, h).hSpace
    ensures l.vCount == Layout(rows, cols, w, h).vCount && l.vSpace >= 0
    ensures l.vSpace == (cols % w) / (rows / h + 1)
  {
    var hCount := cols / w;
    var vCount := rows / h;
    TileLayout(hCount, (cols % w) / (hCount + 1), vCount, (cols % w) / (vCount + 1))
  }

  /** The intended layout: as many photos as fit each way, the leftover
      space shared equally between the gaps of that direction. */
  function Layout(rows: nat, cols: nat, w: nat, h: nat): (l: TileLayout)
    requires w > 0 && h > 0
    ensures l.hCount * w + (l.hCount + 1) * l.hSpace <= cols
    ensures l.vCount * h + (l.vCount + 1) * l.vSpace <= rows
    ensures l.hCount >= 0 && l.hSpace >= 0 && l.vCount >= 0 && l.vSpace >= 0
  {
    var hCount := cols / w;
    var vCount := rows / h;
    var l := TileLayout(hCount, (cols % w) / (hCount + 1), vCount, (rows % h) / (vCount + 1));
    assert (hCount + 1) * l.hSpace <= cols % w;
    assert (vCount + 1) * l.vSpace <= rows % h;
    l
  }

  /** The roi of photo (i, j): column i, row j. */
  function TileRect(l: TileLayout, i: int, j: int, w: int, h: int): CvRect
  {
    CvRect(i * w + (i + 1) * l.hSpace, j * h + (j + 1) * l.vSpace, w, h)
  }

  lemma MulLeft(a: int, b: int, c: int)
    requires a <= b && c >= 0
    ensures a * c <= b * c
  {
  }

  /** Every photo of the intended layout lies on the sheet. */
  lemma {:induction false} TileInsideSheet(rows: nat, cols: nat, w: nat, h: nat, i: int, j: int)
    requires w > 0 && h > 0
    requires 0 <= i < Layout(rows, cols, w, h).hCount && 0 <= j < Layout(rows, cols, w, h).vCount
    ensures var t := TileRect(Layout(rows, cols, w, h), i, j, w, h);
            0 <= t.x && t.x + t.width <= cols && 0 <= t.y && t.y + t.height <= rows
  {
    var l := Layout(rows, cols, w, h);
    TileSpanInside(l.hCount, w, l.hSpace, cols, i);
    TileSpanInside(l.vCount, h, l.vSpace, rows, j);
  }

  /** Along one direction: count tiles of `size` with count + 1 gaps of
      `space` fit in `extent`, so tile k starts at or after 0 and ends
      inside. */
  lemma TileSpanInside(count: int, size: nat, space: nat, extent: int, k: int)
    requires 0 <= k < count && count * size + (count + 1) * space <= extent
    ensures 0 <= k * size + (k + 1) * space && k * size + (k + 1) * space + size <= extent
  {
    assert k * size + (k + 1) * space + size == (k + 1) * (size + space);
    MulLeft(k + 1, count, size + space);
    assert count * (size + space) == count * size + count * space;
  }

  /** The bug is vertical only: the written layout has the intended columns,
      so every photo it places lies within the sheet's width. */
  lemma {:induction false} AsWrittenTileColumnsInsideSheet(rows: nat, cols: nat, w: nat, h: nat, i: int, j: int)
    requires w > 0 && h > 0
    requires 0 <= i < LayoutAsWritten(rows, cols, w, h).hCount && 0 <= j < LayoutAsWritten(rows, cols, w, h).vCount
    ensures var t := TileRect(LayoutAsWritten(rows, cols, w, h), i, j, w, h);
            0 <= t.x && t.x + t.width <= cols && 0 <= t.y
  {
    var l := LayoutAsWritten(rows, cols, w, h);
    var k := Layout(rows, cols, w, h);
    assert l.hCount == k.hCount && l.hSpace == k.hSpace && l.vCount == k.vCount;
    TileInsideSheet(rows, cols, w, h, i, j);
    assert TileRect(l, i, j, w, h).x == TileRect(k, i, j, w, h).x;
    assert l.vSpace >= 0;
    assert j * h >= 0;
    assert (j + 1) * l.vSpace >= 0;
  }

  /** Photos further right or further down start after the earlier ones end
      (plus the gap), so no two photos overlap. */
  lemma {:induction false} TilesDoNotOverlap(l: TileLayout, w: nat, h: nat, i: int, j: int, i2: int, j2: int)
    requires l.hSpace >= 0 && l.vSpace >= 0
    ensures i < i2 ==> TileRect(l, i, j, w, h).x + w + l.hSpace <= TileRect(l, i2, j2, w, h).x
    ensures j < j2 ==> TileRect(l, i, j, w, h).y + h + l.vSpace <= TileRect(l, i2, j2, w, h).y
  {
    if i < i2 {
      assert TileRect(l, i2, j2, w, h).x - TileRect(l, i, j, w, h).x == (i2 - i) * (w + l.hSpace);
      MulLeft(1, i2 - i, w + l.hSpace);
    }
    if j < j2 {
      assert TileRect(l, i2, j2, w, h).y - TileRect(l, i, j, w, h).y == (j2 - j) * (h + l.vSpace);
      MulLeft(1, j2 - j, h + l.vSpace);
    }
  }

  /** As written, a photo can run off the bottom of the sheet: one 100 x 100
      photo on a 100 x 199 sheet gets a vertical gap of 49. */
  lemma AsWrittenTileLeavesSheet()
    ensures var l := LayoutAsWritten(100, 199, 100, 100);
            l.vCount == 1 && TileRect(l, 0, 0, 100, 100).y + 100 > 100
    ensures var l := Layout(100, 199, 100, 100);
            TileRect(l, 0, 0, 100, 100).y + 100 <= 100
  {
    assert 199 / 100 == 1 && 199 % 100 == 99 && 100 / 100 == 1 && 100 % 100 == 0;
    assert LayoutAsWritten(100, 199, 100, 100) == TileLayout(1, 49, 1, 49);
    assert Layout(100, 199, 100, 100) == TileLayout(1, 49, 1, 0);
  }

  /** On the sheet the app prints (10 x 15 cm at 600 dpi, 2362 x 3543) with
      the final 827 x 1063 photo both layouts coincide. */
  lemma AppSheetLayoutsAgree()
    ensures LayoutAsWritten(2362, 3543, 827, 1063) == Layout(2362, 3543, 827, 1063)
    ensures Layout(2362, 3543, 827, 1063) == TileLayout(4, 47, 2, 78)
  {
  }

  /** The nested loops of getMultiplePhotosOnOnePaper: the roi each copy of
      the photo is pasted into, tiles[j][i] for row j and column i. */
  method PlaceTiles(l: TileLayout, w: nat, h: nat) returns (tiles: seq<seq<CvRect>>)
    requires l.hCount >= 0 && l.vCount >= 0
    ensures |tiles| == l.vCount
    ensures forall j :: 0 <= j < l.vCount ==>
              |tiles[j]| == l.hCount && forall i :: 0 <= i < l.hCount ==> tiles[j][i] == TileRect(l, i, j, w, h)
  {
    tiles := [];
    var j := 0;
    while j < l.vCount
      invariant 0 <= j <= l.vCount
      invariant |tiles| == j
      invariant forall jj :: 0 <= jj < j ==>
                  |tiles[jj]| == l.hCount && forall i :: 0 <= i < l.hCount ==> tiles[jj][i] == TileRect(l, i, jj, w, h)
    {
      var row := [];
      var i := 0;
      while i < l.hCount
        invariant 0 <= i <= l.hCount
        invariant |row| == i
        invariant forall ii :: 0 <= ii < i ==> row[ii] == TileRect(l, ii, j, w, h)
      {
        row := row + [CvRect(i * w + (i + 1) * l.hSpace, j * h + (j + 1) * l.vSpace, w, h)];
        i := i + 1;
      }
      tiles := tiles + [row];
      j := j + 1;
    }
  }

  /** getMultiplePhotosOnOnePaper as written: the rois of the written
      layout. They stay within the sheet's width and start below its top,
      but AsWrittenTileLeavesSheet shows one can end past its bottom, where
      the source's submat throws. */
  method GetMultiplePhotosOnOnePaper(rows: nat, cols: nat, w: nat, h: nat) returns (tiles: seq<seq<CvRect>>)
    requires w > 0 && h > 0
    ensures var l := LayoutAsWritten(rows, cols, w, h);
            |tiles| == l.vCount &&
            forall j :: 0 <= j < l.vCount ==>
              |tiles[j]| == l.hCount && forall i :: 0 <= i < l.hCount ==> tiles[j][i] == TileRect(l, i, j, w, h)
    ensures forall j, i :: 0 <= j < |tiles| && 0 <= i < |tiles[j]| ==>
              0 <= tiles[j][i].x && tiles[j][i].x + tiles[j][i].width <= cols && 0 <= tiles[j][i].y
  {
    var hCountPictures := cols / w;
    var hSpace := (cols % w) / (hCountPictures + 1);
    var vCountPictures := rows / h;
    var vSpace := (cols % w) / (vCountPictures + 1);
    var l := TileLayout(hCountPictures, hSpace, vCountPictures, vSpace);
    assert l == LayoutAsWritten(rows, cols, w, h);
    tiles := PlaceTiles(l, w, h);
    forall j, i | 0 <= j < |tiles| && 0 <= i < |tiles[j]|
      ensures 0 <= tiles[j][i].x && tiles[j][i].x + tiles[j][i].width <= cols && 0 <= tiles[j][i].y
    {
      AsWrittenTileColumnsInsideSheet(rows, cols, w, h, i, j);
    }
  }

  /** getMultiplePhotosOnOnePaper with the vertical gap taken from the
      leftover rows: every roi lies on the sheet. */
  method GetMultiplePhotosOnOnePaperCorrected(rows: nat, cols: nat, w: nat, h: nat) returns (tiles: seq<seq<CvRect>>)
    requires w > 0 && h > 0
    ensures var l := Layout(rows, cols, w, h);
            |tiles| == l.vCount &&
            forall j :: 0 <= j < l.vCount ==>
              |tiles[j]| == l.hCount && forall i :: 0 <= i < l.hCount ==> tiles[j][i] == TileRect(l, i, j, w, h)
    ensures forall j, i :: 0 <= j < |tiles| && 0 <= i < |tiles[j]| ==>
              0 <= tiles[j][i].x && tiles[j][i].x + tiles[j][i].width <= cols &&
              0 <= tiles[j][i].y && tiles[j][i].y + tiles[j][i].height <= rows
  {
    var hCountPictures := cols / w;
    var hSpace := (cols % w) / (hCountPictures + 1);
    var vCountPictures := rows / h;
    var vSpace := (rows % h) / (vCountPictures + 1);
    var l := TileLayout(hCountPictures, hSpace, vCountPictures, vSpace);
    assert l == Layout(rows, cols, w, h);
    tiles := PlaceTiles(l, w, h);
    forall j, i | 0 <= j < |tiles| && 0 <= i < |tiles[j]|
      ensures 0 <= tiles[j][i].x && tiles[j][i].x + tiles[j][i].width <= cols &&
              0 <= tiles[j][i].y && tiles[j][i].y + tiles[j][i].height <= rows
    {
      TileInsideSheet(rows, cols, w, h, i, j);
    }
  }
}

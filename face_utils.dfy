/** processing/face/FaceUtils.java: turns a detected face into the box of a
    35:45 passport crop around it, placed 9/16 above and 7/16 below the face
    centre. */
module ProcessingFaceUtils {
  import opened JavaSemantics
  import opened Geometry
  import opened Faces
  import Graphics

  /** BB_SCALING: the crop is 1.2 times as wide as the face. */
  const BB_SCALING: real := 1.2

  /** ImageUtils.FINAL_IMAGE_W_TO_H_RATIO, 35/45. */
  const W_TO_H_RATIO: real := 35.0 / 45.0

  const RATIO_DIVISOR: int := 16

  /** upperEdgeRatio = (16 / 2 + 1) / 16 and lowerEdgeRatio = 1 - upper. */
  function UpperEdgeRatio(): real { (RATIO_DIVISOR as real / 2.0 + 1.0) / RATIO_DIVISOR as real }
  function LowerEdgeRatio(): real { 1.0 - UpperEdgeRatio() }

  /** The vertical split is 9/16 above the centre and 7/16 below it. */
  lemma EdgeRatios()
    ensures UpperEdgeRatio() == 9.0 / 16.0 && LowerEdgeRatio() == 7.0 / 16.0
    ensures UpperEdgeRatio() + LowerEdgeRatio() == 1.0
  {
  }

  /** heightWithOffset = widthWithOffset / (35/45). */
  function HeightFor(widthWithOffset: real): (h: real)
    ensures h * 35.0 == widthWithOffset * 45.0
  {
    widthWithOffset / W_TO_H_RATIO
  }

  /** The private builder before its `(int)` casts. */
  function BoxEdges(centerX: real, centerY: real, widthWithOffset: real): (e: Edges)
    ensures centerX - e.left == e.right - centerX == widthWithOffset / 2.0
    ensures centerY - e.top == HeightFor(widthWithOffset) * 9.0 / 16.0
    ensures e.bottom - centerY == HeightFor(widthWithOffset) * 7.0 / 16.0
    ensures e.bottom - e.top == HeightFor(widthWithOffset)
  {
    var h := HeightFor(widthWithOffset);
    Edges(centerX - widthWithOffset * 0.5, centerY - h * UpperEdgeRatio(),
          centerX + widthWithOffset * 0.5, centerY + h * LowerEdgeRatio())
  }

  /** The private getFaceBoundingBox(centerX, centerY, widthWithOffset). */
  function BoundingBox(centerX: real, centerY: real, widthWithOffset: real): Rect
  {
    BoxEdges(centerX, centerY, widthWithOffset).Truncated()
  }

  /** For a non-negative width the box is never inverted. */
  lemma {:induction false} BoundingBoxNotInverted(centerX: real, centerY: real, widthWithOffset: real)
    ensures widthWithOffset >= 0.0 ==>
              BoundingBox(centerX, centerY, widthWithOffset).left <= BoundingBox(centerX, centerY, widthWithOffset).right &&
              BoundingBox(centerX, centerY, widthWithOffset).top <= BoundingBox(centerX, centerY, widthWithOffset).bottom
  {
    var e := BoxEdges(centerX, centerY, widthWithOffset);
    TruncKeepsOrder(e.left, e.right);
    TruncKeepsOrder(e.top, e.bottom);
  }

  /** A box of positive size contains its centre row: the truncated centre
      lies between the top and bottom edge, and between left and right. */
  lemma {:induction false} BoundingBoxContainsCentre(centerX: real, centerY: real, widthWithOffset: real)
    requires widthWithOffset > 0.0
    ensures BoundingBox(centerX, centerY, widthWithOffset).top <= Trunc(centerY) <= BoundingBox(centerX, centerY, widthWithOffset).bottom
    ensures BoundingBox(centerX, centerY, widthWithOffset).left <= Trunc(centerX) <= BoundingBox(centerX, centerY, widthWithOffset).right
  {
    var e := BoxEdges(centerX, centerY, widthWithOffset);
    assert HeightFor(widthWithOffset) > 0.0;
    TruncMonotone(e.top, centerY);
    TruncMonotone(centerY, e.bottom);
    TruncMonotone(e.left, centerX);
    TruncMonotone(centerX, e.right);
  }

  /** Truncation moves each edge by less than one, so the width and height
      are within two of the requested ones; when the box starts at or right
      of column 0 the width is within one. */
  lemma {:induction false} BoundingBoxSize(centerX: real, centerY: real, widthWithOffset: real)
    requires widthWithOffset >= 0.0
    ensures -2.0 < BoundingBox(centerX, centerY, widthWithOffset).Width() as real - widthWithOffset < 2.0
    ensures -2.0 < BoundingBox(centerX, centerY, widthWithOffset).Height() as real - HeightFor(widthWithOffset) < 2.0
    ensures centerX - widthWithOffset / 2.0 >= 0.0 ==>
              -1.0 < BoundingBox(centerX, centerY, widthWithOffset).Width() as real - widthWithOffset < 1.0
  {
    var e := BoxEdges(centerX, centerY, widthWithOffset);
    if e.left >= 0.0 {
      TruncDifference(e.left, e.right);
    }
  }

  /** getFaceBoundingBox(face, graphic): the face centre and width mapped to
      overlay coordinates, the width enlarged by BB_SCALING. */
  function OverlayBoxEdges(face: Face, view: Graphics.ViewTransform): Edges
  {
    var centerX := view.TranslateX(face.x + face.width / 2.0);
    var centerY := view.TranslateY(face.y + face.height / 2.0);
    var widthWithOffset := view.ScaleX(face.width) * BB_SCALING;
    BoxEdges(centerX, centerY, widthWithOffset)
  }

  /** For a face of non-negative width and a non-negative horizontal scale
      the overlay box is never inverted. */
  function OverlayBoundingBox(face: Face, view: Graphics.ViewTransform): (r: Rect)
    ensures face.width >= 0.0 && view.widthScale >= 0.0 ==> r.left <= r.right && r.top <= r.bottom
  {
    var centerX := view.TranslateX(face.x + face.width / 2.0);
    var centerY := view.TranslateY(face.y + face.height / 2.0);
    var widthWithOffset := view.ScaleX(face.width) * BB_SCALING;
    assert OverlayBoxEdges(face, view) == BoxEdges(centerX, centerY, widthWithOffset);
    BoundingBoxNotInverted(centerX, centerY, widthWithOffset);
    BoundingBox(centerX, centerY, widthWithOffset)
  }

  /** With the front camera the box is the back-camera box mirrored about
      the overlay width: left and right swap roles, top and bottom stay. */
  lemma OverlayFrontMirrorsBack(face: Face, w: int, sx: real, sy: real)
    ensures var front := OverlayBoxEdges(face, Graphics.ViewTransform(w, sx, sy, true));
            var back := OverlayBoxEdges(face, Graphics.ViewTransform(w, sx, sy, false));
            front.left == w as real - back.right && front.right == w as real - back.left &&
            front.top == back.top && front.bottom == back.bottom
  {
  }

  /** With a back camera and unit scale factors the overlay box is the box of
      the face in its own coordinates: the overlay mapping is the identity. */
  lemma OverlayIdentityView(face: Face, w: int)
    ensures OverlayBoundingBox(face, Graphics.ViewTransform(w, 1.0, 1.0, false))
         == BoundingBox(face.x + face.width / 2.0, face.y + face.height / 2.0, face.width * BB_SCALING)
  {
  }

  /** getFaceBoundingBox(face): centre and enlarged width are first
      truncated to `int`, then the box is built. */
  function FaceOnlyBoundingBox(face: Face): Rect
  {
    var centerX := Trunc(face.x + face.width / 2.0);
    var centerY := Trunc(face.y + face.height / 2.0);
    var widthWithOffset := Trunc(face.width * BB_SCALING);
    BoundingBox(centerX as real, centerY as real, widthWithOffset as real)
  }

  /** With an integral centre and width the box is exactly as wide as asked
      whenever it starts at or right of column 0 (both halves truncate the
      same way, even for an odd width). */
  lemma {:induction false} IntegralBoxWidthExact(cx: int, cy: int, w: int)
    requires 0 <= w <= 2 * cx
    ensures BoundingBox(cx as real, cy as real, w as real).Width() == w
  {
    var e := BoxEdges(cx as real, cy as real, w as real);
    var l := Trunc(e.left);
    var r := Trunc(e.right);
    if w % 2 == 0 {
      assert e.left == (cx - w / 2) as real;
      assert e.right == (cx + w / 2) as real;
      TruncOfInt(cx - w / 2);
      TruncOfInt(cx + w / 2);
    } else {
      assert e.left == (cx - w / 2 - 1) as real + 0.5;
      assert e.right == (cx + w / 2) as real + 0.5;
      assert l == cx - w / 2 - 1;
      assert r == cx + w / 2;
    }
  }

  /** The face-only overload yields an exact-width box for a face whose
      enlarged box starts inside the picture. */
  lemma FaceOnlyWidthExact(face: Face)
    requires 0 <= Trunc(face.width * BB_SCALING) <= 2 * Trunc(face.x + face.width / 2.0)
    ensures FaceOnlyBoundingBox(face).Width() == Trunc(face.width * BB_SCALING)
  {
    var cx := Trunc(face.x + face.width / 2.0);
    var cy := Trunc(face.y + face.height / 2.0);
    var w := Trunc(face.width * BB_SCALING);
    IntegralBoxWidthExact(cx, cy, w);
    assert FaceOnlyBoundingBox(face) == BoundingBox(cx as real, cy as real, w as real);
  }
}

/** detectors/face/FaceUtils.java: the older box, 1.3 times the face width,
    split 13/24 above and 11/24 below the centre. */
module DetectorFaceUtils {
  import opened JavaSemantics
  import opened Geometry
  import opened Faces
  import Graphics

  const RATIO_DIVISOR: int := 24
  const WIDTH_SCALING: real := 1.3

  function UpperEdgeRatio(): real { (RATIO_DIVISOR as real / 2.0 + 1.0) / RATIO_DIVISOR as real }
  function LowerEdgeRatio(): real { (RATIO_DIVISOR as real / 2.0 - 1.0) / RATIO_DIVISOR as real }

  /** The split is 13/24 above and 11/24 below, which sums to one. */
  lemma EdgeRatios()
    ensures UpperEdgeRatio() == 13.0 / 24.0 && LowerEdgeRatio() == 11.0 / 24.0
    ensures UpperEdgeRatio() + LowerEdgeRatio() == 1.0
  {
  }

  function WidthWithOffset(face: Face, view: Graphics.ViewTransform): real
  {
    view.ScaleX(face.width) * WIDTH_SCALING
  }

  /** heightWithOffset = widthWithOffset / 3.5 * 4.5: the same 35:45 shape
      as the final picture. */
  function HeightFor(widthWithOffset: real): (h: real)
    ensures h * 35.0 == widthWithOffset * 45.0
  {
    widthWithOffset / 3.5 * 4.5
  }

  /** The four edges before the `(int)` casts of the Rect constructor. */
  function BoxEdges(face: Face, view: Graphics.ViewTransform): (e: Edges)
    ensures var cx := view.TranslateX(face.x + face.width / 2.0);
            cx - e.left == e.right - cx == WidthWithOffset(face, view) / 2.0
    ensures var cy := view.TranslateY(face.y + face.height / 2.0);
            cy - e.top == HeightFor(WidthWithOffset(face, view)) * 13.0 / 24.0 &&
            e.bottom - cy == HeightFor(WidthWithOffset(face, view)) * 11.0 / 24.0
  {
    var centerX := view.TranslateX(face.x + face.width / 2.0);
    var centerY := view.TranslateY(face.y + face.height / 2.0);
    var w := WidthWithOffset(face, view);
    var h := HeightFor(w);
    Edges(centerX - w * 0.5, centerY - h * UpperEdgeRatio(), centerX + w * 0.5, centerY + h * LowerEdgeRatio())
  }

  /** getFaceBoundingBox(face, graphic): for a non-negative enlarged width
      the box is never inverted. */
  function BoundingBox(face: Face, view: Graphics.ViewTransform): (r: Rect)
    ensures WidthWithOffset(face, view) >= 0.0 ==> r.left <= r.right && r.top <= r.bottom
  {
    var e := BoxEdges(face, view);
    TruncKeepsOrder(e.left, e.right);
    TruncKeepsOrder(e.top, e.bottom);
    e.Truncated()
  }

  /** For a positive width the centre lies strictly inside the box before
      truncation and between its edges after it. */
  lemma {:induction false} BoundingBoxContainsCentre(face: Face, view: Graphics.ViewTransform)
    requires WidthWithOffset(face, view) > 0.0
    ensures var e := BoxEdges(face, view);
            var cy := view.TranslateY(face.y + face.height / 2.0);
            e.top < cy < e.bottom
    ensures var cy := view.TranslateY(face.y + face.height / 2.0);
            BoundingBox(face, view).top <= Trunc(cy) <= BoundingBox(face, view).bottom
  {
    var e := BoxEdges(face, view);
    var cy := view.TranslateY(face.y + face.height / 2.0);
    assert HeightFor(WidthWithOffset(face, view)) > 0.0;
    TruncMonotone(e.top, cy);
    TruncMonotone(cy, e.bottom);
  }
}

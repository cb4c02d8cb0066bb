/** Value types shared by the geometry code: Android's edge-based `Rect`,
    OpenCV's origin-and-size `Rect`, OpenCV's `Point` and a box whose edges
    are still doubles. */
module Geometry {
  import opened JavaSemantics

  /** android.graphics.Rect: integer edges. */
  datatype Rect = Rect(left: int, top: int, right: int, bottom: int) {
    function Width(): int { right - left }
    function Height(): int { bottom - top }
  }

  /** org.opencv.core.Rect: top-left corner plus size. */
  datatype CvRect = CvRect(x: int, y: int, width: int, height: int)

  /** org.opencv.core.Point: double coordinates. */
  datatype Point = Point(x: real, y: real)

  /** A box whose edges are doubles, before Java's `(int)` casts; the Rect
      built from it truncates each edge toward zero. */
  datatype Edges = Edges(left: real, top: real, right: real, bottom: real) {
    function Truncated(): (r: Rect)
      ensures -1.0 < r.left as real - left < 1.0 && -1.0 < r.right as real - right < 1.0
      ensures -1.0 < r.top as real - top < 1.0 && -1.0 < r.bottom as real - bottom < 1.0
    {
      TruncNear(left); TruncNear(top); TruncNear(right); TruncNear(bottom);
      Rect(Trunc(left), Trunc(top), Trunc(right), Trunc(bottom))
    }
  }
}

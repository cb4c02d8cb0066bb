/** Rectangle helpers of utils/PPCUtlis.java: scaling a preview-sized box up
    to the full picture, converting between Android and OpenCV rectangles and
    shifting a box vertically on the overlay. */
module PPCUtils {
  import opened JavaSemantics
  import opened Geometry

  /** multiplyRect: every edge is multiplied by the scale. */
  function MultiplyRect(scale: int, small: Rect): (big: Rect)
    ensures big.Width() == scale * small.Width()
    ensures big.Height() == scale * small.Height()
    ensures big.left == scale * small.left && big.top == scale * small.top
  {
    Rect(small.left * scale, small.top * scale, small.right * scale, small.bottom * scale)
  }

  /** Scaling by one gives the same rectangle back. */
  lemma MultiplyRectByOne(r: Rect)
    ensures MultiplyRect(1, r) == r
  {
  }

  /** Scaling twice is scaling once by the product. */
  lemma MultiplyRectComposes(a: int, b: int, r: Rect)
    ensures MultiplyRect(a, MultiplyRect(b, r)) == MultiplyRect(a * b, r)
  {
    assert r.left * b * a == r.left * (a * b);
    assert r.top * b * a == r.top * (a * b);
    assert r.right * b * a == r.right * (a * b);
    assert r.bottom * b * a == r.bottom * (a * b);
  }

  /** AndroidRectToOpenCVRect: the corner is kept and width and height are
      the edge differences, so the opposite corner is recovered exactly. */
  function AndroidRectToOpenCVRect(r: Rect): (cv: CvRect)
    ensures cv.x == r.left && cv.y == r.top
    ensures cv.x + cv.width == r.right && cv.y + cv.height == r.bottom
  {
    CvRect(r.left, r.top, r.Width(), r.Height())
  }

  /** translateY: left and right are kept; top and bottom move by v and are
      truncated toward zero. */
  function TranslateY(r: Rect, v: real): (t: Rect)
    ensures t.left == r.left && t.right == r.right
    ensures -1.0 < t.top as real - (r.top as real + v) < 1.0
    ensures -1.0 < t.bottom as real - (r.bottom as real + v) < 1.0
  {
    TruncNear(r.top as real + v);
    TruncNear(r.bottom as real + v);
    Rect(r.left, Trunc(r.top as real + v), r.right, Trunc(r.bottom as real + v))
  }

  /** An integral shift moves the box rigidly: its width and height survive. */
  lemma {:induction false} TranslateYByIntegerKeepsSize(r: Rect, n: int)
    ensures TranslateY(r, n as real).Width() == r.Width()
    ensures TranslateY(r, n as real).Height() == r.Height()
    ensures TranslateY(r, n as real).top == r.top + n
  {
    TruncOfInt(r.top + n);
    TruncOfInt(r.bottom + n);
    assert r.top as real + n as real == (r.top + n) as real;
    assert r.bottom as real + n as real == (r.bottom + n) as real;
  }
}

/** OpenCV's Mat as a value: rows of pixels, each pixel a vector of channel
    values (what Mat.get returns), plus the few Mat operations the core
    relies on. */
module Images {
  type Pixel = seq<real>

  datatype Mat = Mat(rows: nat, cols: nat, channels: nat, px: seq<seq<Pixel>>) {
    /** The pixel grid has the declared shape. */
    predicate Valid()
    {
      |px| == rows &&
      (forall r :: 0 <= r < rows ==> |px[r]| == cols) &&
      (forall r, c :: 0 <= r < rows && 0 <= c < cols ==> |px[r][c]| == channels)
    }

    /** cols() * rows(): the pixel count the checks use as image area. */
    function Area(): nat
    {
      cols * rows
    }
  }

  /** Two well-formed images of one shape with the same pixels are equal. */
  lemma MatEquality(a: Mat, b: Mat)
    requires a.Valid() && b.Valid()
    requires a.rows == b.rows && a.cols == b.cols && a.channels == b.channels
    requires forall r, c :: 0 <= r < a.rows && 0 <= c < a.cols ==> a.px[r][c] == b.px[r][c]
    ensures a == b
  {
    forall r | 0 <= r < a.rows
      ensures a.px[r] == b.px[r]
    {
    }
  }

  /** org.opencv.core.Scalar built from a double[]: always four values, the
      missing ones zero and the extra ones dropped. */
  function ScalarOf(v: seq<real>): (s: seq<real>)
    ensures |s| == 4
    ensures forall i :: 0 <= i < 4 ==> s[i] == if i < |v| then v[i] else 0.0
  {
    seq(4, i requires 0 <= i < 4 => if i < |v| then v[i] else 0.0)
  }

  /** Mat.submat(rowStart, rowEnd, colStart, colEnd): the view of the given
      row and column ranges, with the same channels. */
  function Submat(m: Mat, rowStart: nat, rowEnd: nat, colStart: nat, colEnd: nat): (s: Mat)
    requires m.Valid() && rowStart <= rowEnd <= m.rows && colStart <= colEnd <= m.cols
    ensures s.Valid()
    ensures s.rows == rowEnd - rowStart && s.cols == colEnd - colStart && s.channels == m.channels
    ensures forall r, c :: 0 <= r < s.rows && 0 <= c < s.cols ==> s.px[r][c] == m.px[rowStart + r][colStart + c]
  {
    Mat(rowEnd - rowStart, colEnd - colStart, m.channels,
        seq(rowEnd - rowStart, r requires 0 <= r < rowEnd - rowStart => m.px[rowStart + r][colStart..colEnd]))
  }
}

/** The pixel-level helpers of the background checks, in
    utils/BackgroundUtils.java (processing/background/BackgroundUtils.java
    and detectors/background/BackgroundUtils.java carry copies of the same
    code): the brightness of a colour, the scan over fixed candidate pixels,
    the mean of two colours and the alpha paste of a person onto a
    background. */
module BackgroundPixels {
  import opened JavaSemantics
  import opened Geometry
  import opened Images

  /** getBrigtness(double[]): -1 for fewer than three channels, otherwise
      the luma-weighted sum of red, green and blue scaled to [0, 1]. */
  function GetBrightness(p: seq<real>): (b: real)
    ensures |p| < 3 ==> b == -1.0
  {
    if |p| < 3 then -1.0 else (p[0] * 0.3 + p[1] * 0.59 + p[2] * 0.11) / 255.0
  }

  /** isBright: strictly brighter than one half. */
  predicate IsBright(brightness: real)
  {
    brightness > 0.5
  }

  /** The weights sum to one: a grey of level g has brightness g / 255, so
      white is 1 and black is 0. */
  lemma BrightnessOfGrey(p: seq<real>, g: real)
    requires |p| >= 3 && p[0] == g && p[1] == g && p[2] == g
    ensures GetBrightness(p) == g / 255.0
    ensures g == 255.0 ==> GetBrightness(p) == 1.0 && IsBright(GetBrightness(p))
    ensures g == 0.0 ==> GetBrightness(p) == 0.0 && !IsBright(GetBrightness(p))
  {
  }

  /** Channels in [0, 255] give a brightness in [0, 1]. */
  lemma BrightnessRange(p: seq<real>)
    requires |p| >= 3 && forall i :: 0 <= i < 3 ==> 0.0 <= p[i] <= 255.0
    ensures 0.0 <= GetBrightness(p) <= 1.0
  {
  }

  /** With non-negative channels the brightness is zero exactly for black,
      which is what the person and background scans look for. */
  lemma BrightnessZeroIffBlack(p: seq<real>)
    requires |p| >= 3 && forall i :: 0 <= i < 3 ==> 0.0 <= p[i]
    ensures GetBrightness(p) == 0.0 <==> p[0] == 0.0 && p[1] == 0.0 && p[2] == 0.0
  {
  }

  /** The pixel findPixel reads for a candidate: both coordinates cast to
      `int`. */
  function Snapped(c: Point): Point
  {
    Point(Trunc(c.x) as real, Trunc(c.y) as real)
  }

  /** Mat.get(y, x) returns null outside the image and getBrigtness would
      then throw: every candidate must lie inside. */
  predicate InImage(img: Mat, c: Point)
  {
    0 <= Trunc(c.x) < img.cols && 0 <= Trunc(c.y) < img.rows
  }

  predicate AllInImage(img: Mat, cands: seq<Point>)
  {
    forall i :: 0 <= i < |cands| ==> InImage(img, cands[i])
  }

  /** A candidate matches when its pixel is black exactly if black is
      asked for. */
  predicate Matches(img: Mat, c: Point, black: bool)
    requires img.Valid() && InImage(img, c)
  {
    (GetBrightness(img.px[Trunc(c.y)][Trunc(c.x)]) == 0.0) == black
  }

  /** The first matching candidate, snapped to integer coordinates. */
  function FirstMatch(img: Mat, cands: seq<Point>, black: bool): (r: Option<Point>)
    requires img.Valid() && AllInImage(img, cands)
    ensures r.None? <==> forall i :: 0 <= i < |cands| ==> !Matches(img, cands[i], black)
    ensures r.Some? ==> exists i :: 0 <= i < |cands| && Matches(img, cands[i], black) &&
                          r.value == Snapped(cands[i]) &&
                          forall j :: 0 <= j < i ==> !Matches(img, cands[j], black)
  {
    if cands == [] then None
    else if Matches(img, cands[0], black) then Some(Snapped(cands[0]))
    else
      var rest := FirstMatch(img, cands[1..], black);
      assert forall i :: 1 <= i < |cands| ==> cands[1..][i - 1] == cands[i];
      rest
  }

  /** findPixel: the loop that returns at the first match. */
  method FindPixel(img: Mat, cands: seq<Point>, black: bool) returns (r: Option<Point>)
    requires img.Valid() && AllInImage(img, cands)
    ensures r == FirstMatch(img, cands, black)
  {
    var i := 0;
    while i < |cands|
      invariant 0 <= i <= |cands|
      invariant FirstMatch(img, cands, black) == FirstMatch(img, cands[i..], black)
    {
      assert cands[i..][1..] == cands[i + 1..];
      var x := Trunc(cands[i].x);
      var y := Trunc(cands[i].y);
      var brightness := GetBrightness(img.px[y][x]);
      if (brightness == 0.0) == black {
        return Some(Point(x as real, y as real));
      }
      i := i + 1;
    }
    r := None;
  }

  /** findNonPersonPixel(src, true): near the top-left corner, then a
      quarter across; src.size().width is a double. */
  function LeftCandidates(width: real): seq<Point>
  {
    [Point(10.0, 10.0), Point(width / 4.0, 10.0)]
  }

  /** findNonPersonPixel(src, false): near the top-right corner, then three
      quarters across. */
  function RightCandidates(width: real): seq<Point>
  {
    [Point(width - 10.0, 10.0), Point(width / 4.0 * 3.0, 10.0)]
  }

  /** findPersonPixel: the middle column near the bottom, at half and at
      three quarters of the height; src.height() is an `int`, so the row
      divisions are integer ones. */
  function PersonCandidates(width: real, height: nat): seq<Point>
  {
    [Point(width / 2.0, (height - 10) as real),
     Point(width / 2.0, (height / 2) as real),
     Point(width / 2.0, (height * 3 / 4) as real)]
  }

  /** detectors findNonPersonPixel: top-left, top-right, then top-middle. */
  function DetectorBackgroundCandidates(width: real): seq<Point>
  {
    [Point(10.0, 10.0), Point(width - 10.0, 10.0), Point(width / 2.0, 10.0)]
  }

  lemma {:induction false} TruncInside(x: real, n: int)
    requires 0.0 <= x < n as real
    ensures 0 <= Trunc(x) < n
  {
  }

  /** On an image more than ten pixels wide and high every candidate of
      every scan lies inside, so the scans never read outside the image. */
  lemma {:induction false} CandidatesInImage(img: Mat)
    requires img.cols > 10 && img.rows > 10
    ensures AllInImage(img, LeftCandidates(img.cols as real))
    ensures AllInImage(img, RightCandidates(img.cols as real))
    ensures AllInImage(img, PersonCandidates(img.cols as real, img.rows))
    ensures AllInImage(img, DetectorBackgroundCandidates(img.cols as real))
  {
    var w := img.cols as real;
    var h := img.rows;
    TruncInside(10.0, img.cols);
    TruncInside(10.0, img.rows);
    TruncInside(w / 4.0, img.cols);
    TruncInside(w - 10.0, img.cols);
    TruncInside(w / 4.0 * 3.0, img.cols);
    TruncInside(w / 2.0, img.cols);
    TruncInside((h - 10) as real, img.rows);
    TruncInside((h / 2) as real, img.rows);
    TruncInside((h * 3 / 4) as real, img.rows);
  }

  /** computeColorAverage: the componentwise mean over the shorter of the
      two colours, wrapped in a (four-valued) Scalar. */
  function ColorAverage(c1: seq<real>, c2: seq<real>): (r: seq<real>)
    ensures |r| == 4
  {
    var n := if |c1| <= |c2| then |c1| else |c2|;
    ScalarOf(seq(n, i requires 0 <= i < n => (c1[i] + c2[i]) / 2.0))
  }

  /** The mean of a Scalar with itself is that Scalar, and the mean does
      not depend on the order of the two colours. */
  lemma ColorAverageProperties(c1: seq<real>, c2: seq<real>)
    ensures |c1| == 4 ==> ColorAverage(c1, c1) == c1
    ensures ColorAverage(c1, c2) == ColorAverage(c2, c1)
  {
  }

  /** The loop of computeColorAverage over the output array. */
  method ComputeColorAverage(c1: seq<real>, c2: seq<real>) returns (r: seq<real>)
    ensures r == ColorAverage(c1, c2)
  {
    var n := if |c1| <= |c2| then |c1| else |c2|;
    var colorOut := new real[n];
    var i := 0;
    while i < n
      invariant 0 <= i <= n
      invariant forall k :: 0 <= k < i ==> colorOut[k] == (c1[k] + c2[k]) / 2.0
    {
      colorOut[i] := (c1[i] + c2[i]) / 2.0;
      i := i + 1;
    }
    assert colorOut[..] == seq(n, k requires 0 <= k < n => (c1[k] + c2[k]) / 2.0);
    r := ScalarOf(colorOut[..]);
  }

  /** averageTwoColors after its channel check: each colour channel moves
      from the background towards the foreground by alpha / 255. */
  function Blend(rgba: seq<real>, rgb: seq<real>): (out: seq<real>)
    requires |rgba| == 4 && |rgb| == 3
    ensures |out| == 3
  {
    var alpha := rgba[3] / 255.0;
    seq(3, i requires 0 <= i < 3 => rgb[i] * (1.0 - alpha) + rgba[i] * alpha)
  }

  /** averageTwoColors: null unless the colours have four and three
      channels. */
  function AverageTwoColors(rgba: seq<real>, rgb: seq<real>): (r: Option<seq<real>>)
    ensures r.Some? <==> |rgba| == 4 && |rgb| == 3
    ensures r.Some? ==> |r.value| == 3
  {
    if |rgba| == 4 && |rgb| == 3 then Some(Blend(rgba, rgb)) else None
  }

  /** The loop of averageTwoColors over the output array. */
  method BlendTwoColors(rgba: seq<real>, rgb: seq<real>) returns (r: Option<seq<real>>)
    ensures r == AverageTwoColors(rgba, rgb)
  {
    if !(|rgba| == 4 && |rgb| == 3) {
      return None;
    }
    var out := new real[|rgb|];
    var alpha := rgba[3] / 255.0;
    ghost var b := Blend(rgba, rgb);
    var i := 0;
    while i < |rgb|
      invariant 0 <= i <= |rgb|
      invariant forall k :: 0 <= k < i ==> out[k] == b[k]
    {
      out[i] := rgb[i] * (1.0 - alpha) + rgba[i] * alpha;
      i := i + 1;
    }
    assert out[..] == b;
    r := Some(out[..]);
  }

  /** Alpha 0 keeps the background colour, alpha 255 gives the foreground
      colour, and any alpha in between gives a colour between the two in
      every channel. */
  lemma BlendProperties(rgba: seq<real>, rgb: seq<real>)
    requires |rgba| == 4 && |rgb| == 3
    ensures rgba[3] == 0.0 ==> Blend(rgba, rgb) == rgb
    ensures rgba[3] == 255.0 ==> Blend(rgba, rgb) == rgba[..3]
    ensures 0.0 <= rgba[3] <= 255.0 ==>
              forall i :: 0 <= i < 3 ==>
                (rgb[i] <= rgba[i] ==> rgb[i] <= Blend(rgba, rgb)[i] <= rgba[i]) &&
                (rgba[i] <= rgb[i] ==> rgba[i] <= Blend(rgba, rgb)[i] <= rgb[i])
  {
    var out := Blend(rgba, rgb);
    var alpha := rgba[3] / 255.0;
    if 0.0 <= rgba[3] <= 255.0 {
      forall i | 0 <= i < 3
        ensures rgb[i] <= rgba[i] ==> rgb[i] <= out[i] <= rgba[i]
        ensures rgba[i] <= rgb[i] ==> rgba[i] <= out[i] <= rgb[i]
      {
        BetweenEnds(rgb[i], rgba[i], alpha, out[i]);
      }
    }
  }

  /** A convex combination lies between its two ends. */
  lemma {:induction false} BetweenEnds(a: real, b: real, t: real, v: real)
    requires 0.0 <= t <= 1.0 && v == a * (1.0 - t) + b * t
    ensures a <= b ==> a <= v <= b
    ensures b <= a ==> b <= v <= a
  {
    assert v == a + (b - a) * t;
    if a <= b {
      ProductNonNegative(b - a, t);
      ProductNonNegative(b - a, 1.0 - t);
      assert (b - a) * t + (b - a) * (1.0 - t) == b - a;
    } else {
      ProductNonNegative(a - b, t);
      ProductNonNegative(a - b, 1.0 - t);
      assert (a - b) * t + (a - b) * (1.0 - t) == a - b;
    }
  }

  lemma {:induction false} ProductNonNegative(x: real, y: real)
    requires 0.0 <= x && 0.0 <= y
    ensures 0.0 <= x * y
  {
  }

  /** The check at the start of paste: same size, RGBA onto RGB. */
  predicate PasteGuard(fg: Mat, bg: Mat)
  {
    fg.cols == bg.cols && fg.rows == bg.rows && fg.channels == 4 && bg.channels == 3
  }

  /** A pixel of the pasted image: blended where the foreground is not
      fully transparent, the background elsewhere. */
  function PastedPixel(fg: Mat, bg: Mat, r: nat, c: nat): Pixel
    requires fg.Valid() && bg.Valid() && PasteGuard(fg, bg) && r < bg.rows && c < bg.cols
  {
    if fg.px[r][c][3] > 0.0 then Blend(fg.px[r][c], bg.px[r][c]) else bg.px[r][c]
  }

  function PastedRow(fg: Mat, bg: Mat, r: nat): seq<Pixel>
    requires fg.Valid() && bg.Valid() && PasteGuard(fg, bg) && r < bg.rows
  {
    seq(bg.cols, c requires 0 <= c < bg.cols => PastedPixel(fg, bg, r, c))
  }

  /** The image paste builds when its check passes. */
  function Pasted(fg: Mat, bg: Mat): (m: Mat)
    requires fg.Valid() && bg.Valid() && PasteGuard(fg, bg)
    ensures m.Valid() && m.rows == bg.rows && m.cols == bg.cols && m.channels == bg.channels
    ensures forall r, c :: 0 <= r < m.rows && 0 <= c < m.cols ==> m.px[r][c] == PastedPixel(fg, bg, r, c)
  {
    Mat(bg.rows, bg.cols, bg.channels, seq(bg.rows, r requires 0 <= r < bg.rows => PastedRow(fg, bg, r)))
  }

  /** paste: the background itself when the check fails, otherwise a copy
      of it with the foreground pasted in pixel by pixel. */
  method Paste(fg: Mat, bg: Mat) returns (out: Mat)
    requires fg.Valid() && bg.Valid()
    ensures out == if PasteGuard(fg, bg) then Pasted(fg, bg) else bg
  {
    if !(fg.cols == bg.cols && fg.rows == bg.rows && fg.channels == 4 && bg.channels == 3) {
      return bg;
    }
    var grid := bg.px;
    var y := 0;
    while y < bg.rows
      invariant 0 <= y <= bg.rows && |grid| == bg.rows
      invariant forall r :: 0 <= r < y ==> grid[r] == PastedRow(fg, bg, r)
      invariant forall r :: y <= r < bg.rows ==> grid[r] == bg.px[r]
    {
      var x := 0;
      while x < bg.cols
        invariant 0 <= x <= bg.cols && |grid| == bg.rows && |grid[y]| == bg.cols
        invariant forall r :: 0 <= r < y ==> grid[r] == PastedRow(fg, bg, r)
        invariant forall r :: y < r < bg.rows ==> grid[r] == bg.px[r]
        invariant forall c :: 0 <= c < x ==> grid[y][c] == PastedPixel(fg, bg, y, c)
        invariant forall c :: x <= c < bg.cols ==> grid[y][c] == bg.px[y][c]
      {
        var alpha := fg.px[y][x][3];
        if alpha > 0.0 {
          var point := BlendTwoColors(fg.px[y][x], grid[y][x]);
          grid := grid[y := grid[y][x := point.value]];
        }
        x := x + 1;
      }
      assert grid[y] == PastedRow(fg, bg, y);
      y := y + 1;
    }
    out := Mat(bg.rows, bg.cols, bg.channels, grid);
    assert grid == Pasted(fg, bg).px;
  }

  /** The pasted image keeps the background's size, keeps the background
      wherever the foreground is transparent and shows the foreground's
      colour wherever it is opaque. */
  lemma PastedPixels(fg: Mat, bg: Mat, r: nat, c: nat)
    requires fg.Valid() && bg.Valid() && PasteGuard(fg, bg) && r < bg.rows && c < bg.cols
    ensures fg.px[r][c][3] <= 0.0 ==> Pasted(fg, bg).px[r][c] == bg.px[r][c]
    ensures fg.px[r][c][3] == 255.0 ==> Pasted(fg, bg).px[r][c] == fg.px[r][c][..3]
  {
    BlendProperties(fg.px[r][c], bg.px[r][c]);
  }
}

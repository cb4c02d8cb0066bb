/** What both ColorBlobDetector classes do with the numbers OpenCV gives
    them: the 8 x 8 colour sample around the seed point, the HSV range built
    around its mean colour, the filtering of the contours found in that range
    and the folds over their areas and perimeters. */
module ContourFolds {
  import opened JavaSemantics
  import opened Geometry

  /** A contour as the detector reads it: Imgproc.contourArea and
      Imgproc.arcLength of its points. */
  datatype Contour = Contour(area: real, perimeter: real)

  /** Core.multiply(contour, Scalar(s, s)): every point is scaled by s, so
      the area grows by s squared and the perimeter by s. */
  function Scaled(c: Contour, s: int): Contour
  {
    Contour(c.area * (s * s) as real, c.perimeter * s as real)
  }

  function Areas(cs: seq<Contour>): (r: seq<real>)
    ensures |r| == |cs| && forall i :: 0 <= i < |cs| ==> r[i] == cs[i].area
  {
    seq(|cs|, i requires 0 <= i < |cs| => cs[i].area)
  }

  function Perimeters(cs: seq<Contour>): (r: seq<real>)
    ensures |r| == |cs| && forall i :: 0 <= i < |cs| ==> r[i] == cs[i].perimeter
  {
    seq(|cs|, i requires 0 <= i < |cs| => cs[i].perimeter)
  }

  /** The max folds of the detector: start at 0 and keep a value only if
      it is strictly larger; 0 on an empty list, otherwise the largest value
      when it is positive. */
  function Max0(xs: seq<real>): (m: real)
    ensures m >= 0.0
    ensures forall i :: 0 <= i < |xs| ==> xs[i] <= m
    ensures m == 0.0 || exists i :: 0 <= i < |xs| && xs[i] == m
  {
    if xs == [] then 0.0
    else
      var m := Max0(xs[..|xs| - 1]);
      var x := xs[|xs| - 1];
      assert forall i :: 0 <= i < |xs| - 1 ==> xs[..|xs| - 1][i] == xs[i];
      if x > m then x else m
  }

  /** The total area fold. */
  function Sum(xs: seq<real>): real
  {
    if xs == [] then 0.0 else Sum(xs[..|xs| - 1]) + xs[|xs| - 1]
  }

  predicate NonNegative(xs: seq<real>)
  {
    forall i :: 0 <= i < |xs| ==> xs[i] >= 0.0
  }

  /** With non-negative areas the largest contour is no larger than all of
      them together. */
  lemma {:induction false} MaxAtMostSum(xs: seq<real>)
    requires NonNegative(xs)
    ensures Max0(xs) <= Sum(xs)
    ensures 0.0 <= Sum(xs)
  {
    if xs != [] {
      var front := xs[..|xs| - 1];
      assert forall i :: 0 <= i < |front| ==> front[i] == xs[i];
      MaxAtMostSum(front);
    }
  }

  /** getContoursMaxArea, getContoursMaxPerimeter: the loop over a list. */
  method MaxFold(xs: seq<real>) returns (m: real)
    ensures m == Max0(xs)
  {
    m := 0.0;
    var i := 0;
    while i < |xs|
      invariant 0 <= i <= |xs|
      invariant m == Max0(xs[..i])
    {
      assert xs[..i + 1][..i] == xs[..i];
      if xs[i] > m {
        m := xs[i];
      }
      i := i + 1;
    }
    assert xs[..|xs|] == xs;
  }

  /** getContoursTotalArea: the summing loop. */
  method SumFold(xs: seq<real>) returns (total: real)
    ensures total == Sum(xs)
  {
    total := 0.0;
    var i := 0;
    while i < |xs|
      invariant 0 <= i <= |xs|
      invariant total == Sum(xs[..i])
    {
      assert xs[..i + 1][..i] == xs[..i];
      total := total + xs[i];
      i := i + 1;
    }
    assert xs[..|xs|] == xs;
  }

  /** fillContoursList: the contours whose area is above the fraction of the
      largest area, in their order, each scaled back to full size. */
  function Filtered(cs: seq<Contour>, minFraction: real, maxArea: real, scale: int): (r: seq<Contour>)
    ensures |r| <= |cs|
  {
    if cs == [] then []
    else
      var front := Filtered(cs[..|cs| - 1], minFraction, maxArea, scale);
      var c := cs[|cs| - 1];
      if c.area > minFraction * maxArea then front + [Scaled(c, scale)] else front
  }

  /** Exactly the contours above the threshold are kept: each one that is
      above it appears (scaled), and everything kept is a scaled contour
      that was above it. */
  lemma {:induction false} FilteredMembers(cs: seq<Contour>, minFraction: real, maxArea: real, scale: int)
    ensures forall k :: 0 <= k < |cs| && cs[k].area > minFraction * maxArea ==>
              Scaled(cs[k], scale) in Filtered(cs, minFraction, maxArea, scale)
    ensures forall x :: x in Filtered(cs, minFraction, maxArea, scale) ==>
              exists k :: 0 <= k < |cs| && cs[k].area > minFraction * maxArea && x == Scaled(cs[k], scale)
  {
    if cs != [] {
      var front := cs[..|cs| - 1];
      FilteredMembers(front, minFraction, maxArea, scale);
      assert forall k :: 0 <= k < |front| ==> front[k] == cs[k];
    }
  }

  /** One contour above the threshold is kept. */
  lemma {:induction false} KeptWhenAbove(cs: seq<Contour>, minFraction: real, maxArea: real, scale: int, k: int)
    requires 0 <= k < |cs| && cs[k].area > minFraction * maxArea
    ensures Scaled(cs[k], scale) in Filtered(cs, minFraction, maxArea, scale)
  {
    var front := cs[..|cs| - 1];
    if k < |cs| - 1 {
      assert front[k] == cs[k];
      KeptWhenAbove(front, minFraction, maxArea, scale, k);
    }
  }

  /** When the largest area is positive and the fraction below 1, the
      largest contour itself is always kept. */
  lemma {:induction false} LargestKept(cs: seq<Contour>, minFraction: real, k: int, scale: int)
    requires 0 <= k < |cs| && cs[k].area == Max0(Areas(cs)) && cs[k].area > 0.0
    requires minFraction < 1.0
    ensures Scaled(cs[k], scale) in Filtered(cs, minFraction, Max0(Areas(cs)), scale)
  {
    BelowWhole(minFraction, cs[k].area, Max0(Areas(cs)));
    KeptWhenAbove(cs, minFraction, Max0(Areas(cs)), scale, k);
  }

  /** A positive value exceeds any fraction below one of itself. */
  lemma {:induction false} BelowWhole(f: real, a: real, m: real)
    requires f < 1.0 && m > 0.0 && a == m
    ensures a > f * m
  {
    assert m - f * m == (1.0 - f) * m;
  }

  /** The sample rectangle of getColorRect: 8 x 8 pixels with the seed four
      pixels in from its top-left corner. */
  function ColorRect(p: Point): (r: CvRect)
    ensures r.width == 8 && r.height == 8
  {
    CvRect(Trunc(p.x - 4.0), Trunc(p.y - 4.0), 8, 8)
  }

  /** The mean colour: Core.sumElems of the sample divided by the number of
      sample pixels. */
  function MeanColor(sampleSum: seq<real>, rect: CvRect): (c: seq<real>)
    requires rect.width * rect.height != 0
    ensures |c| == |sampleSum|
  {
    seq(|sampleSum|, i requires 0 <= i < |sampleSum| => sampleSum[i] / (rect.width * rect.height) as real)
  }

  /** The default colour radius Scalar(25, 50, 50, 0). */
  const DEFAULT_COLOR_RADIUS: seq<real> := [25.0, 50.0, 50.0, 0.0]

  /** setHsvColor: the hue range is clamped to [0, 255], saturation and
      value are the colour plus or minus the radius, alpha is [0, 255]. */
  function HsvBounds(hsv: seq<real>, radius: seq<real>): (b: (seq<real>, seq<real>))
    requires |hsv| == 4 && |radius| == 4
    ensures |b.0| == 4 && |b.1| == 4
  {
    var minH := if hsv[0] >= radius[0] then hsv[0] - radius[0] else 0.0;
    var maxH := if hsv[0] + radius[0] <= 255.0 then hsv[0] + radius[0] else 255.0;
    ([minH, hsv[1] - radius[1], hsv[2] - radius[2], 0.0],
     [maxH, hsv[1] + radius[1], hsv[2] + radius[2], 255.0])
  }

  /** For a hue in [0, 255] and a non-negative hue radius the hue range
      contains the hue and stays inside [0, 255], and is the radius wide on
      each side where that fits; the other channels are unclamped. */
  lemma HsvBoundsClamp(hsv: seq<real>, radius: seq<real>)
    requires |hsv| == 4 && |radius| == 4
    requires 0.0 <= hsv[0] <= 255.0 && radius[0] >= 0.0
    ensures var (lo, hi) := HsvBounds(hsv, radius);
            0.0 <= lo[0] <= hsv[0] <= hi[0] <= 255.0 &&
            (hsv[0] >= radius[0] ==> lo[0] == hsv[0] - radius[0]) &&
            (hsv[0] + radius[0] <= 255.0 ==> hi[0] == hsv[0] + radius[0]) &&
            lo[1] == hsv[1] - radius[1] && hi[1] == hsv[1] + radius[1] &&
            lo[2] == hsv[2] - radius[2] && hi[2] == hsv[2] + radius[2] &&
            lo[3] == 0.0 && hi[3] == 255.0
  {
  }

  /** The seed check of process: both coordinates non-negative and at most
      the image's columns and rows (both ends included). */
  predicate SeedInRange(p: Point, cols: int, rows: int)
  {
    !(p.x < 0.0 || p.y < 0.0 || p.x > cols as real || p.y > rows as real)
  }

  /** What OpenCV computes in process for one seed: Core.sumElems of the
      HSV sample, the RGBA colour of the mean (COLOR_HSV2RGB_FULL) and the
      external contours of the dilated in-range mask at a quarter size. */
  datatype Detection = Detection(sampleSum: seq<real>, blobRgba: seq<real>, contours: seq<Contour>)

  predicate WellFormed(d: Detection)
  {
    |d.sampleSum| == 4 && |d.blobRgba| == 4
  }

  /** What a fresh detector reports after one process call for a seed:
      blob colour, total area, largest area and largest perimeter. */
  datatype BlobSummary = BlobSummary(color: seq<real>, totalArea: real, maxArea: real, maxPerimeter: real)

  /** The contours a fresh detector keeps for an accepted seed: scale 4
      after the two halvings. */
  function FreshContours(d: Detection, minFraction: real): seq<Contour>
  {
    Filtered(d.contours, minFraction, Max0(Areas(d.contours)), 4)
  }

  /** A fresh detector (imgScale 1, blob colour Scalar(255)) after process
      on a seed, which may be missing or outside the image. */
  function FreshSummary(cols: int, rows: int, p: Option<Point>, d: Detection, minFraction: real): BlobSummary
  {
    if p.Some? && SeedInRange(p.value, cols, rows) then
      var kept := FreshContours(d, minFraction);
      BlobSummary(d.blobRgba, Sum(Areas(kept)), Max0(Areas(kept)), Max0(Perimeters(kept)))
    else
      BlobSummary([255.0, 0.0, 0.0, 0.0], 0.0, 0.0, 0.0)
  }

  /** With non-negative contour areas the largest kept blob is no larger
      than all kept blobs together; a rejected seed reports zero areas and
      the default colour. */
  lemma {:induction false} SummaryBounds(cols: int, rows: int, p: Option<Point>, d: Detection, minFraction: real)
    requires NonNegative(Areas(d.contours))
    ensures var s := FreshSummary(cols, rows, p, d, minFraction);
            0.0 <= s.maxArea <= s.totalArea && 0.0 <= s.maxPerimeter
    ensures !(p.Some? && SeedInRange(p.value, cols, rows)) ==>
              FreshSummary(cols, rows, p, d, minFraction) == BlobSummary([255.0, 0.0, 0.0, 0.0], 0.0, 0.0, 0.0)
  {
    if p.Some? && SeedInRange(p.value, cols, rows) {
      var kept := FreshContours(d, minFraction);
      FilteredMembers(d.contours, minFraction, Max0(Areas(d.contours)), 4);
      forall i | 0 <= i < |kept|
        ensures Areas(kept)[i] >= 0.0
      {
        assert kept[i] in kept;
      }
      MaxAtMostSum(Areas(kept));
    }
  }

  function Pow4(n: nat): int
  {
    if n == 0 then 1 else 4 * Pow4(n - 1)
  }
}

/** processing/background/verification/ColorBlobDetector.java. */
module ProcessingColorBlob {
  import opened JavaSemantics
  import opened Geometry
  import opened ContourFolds

  /** mMinContourArea: static, and never changed in this class. */
  const MIN_CONTOUR_AREA: real := 0.1

  class ColorBlobDetector {
    var lowerBound: seq<real>
    var upperBound: seq<real>
    var colorRadius: seq<real>
    var contours: seq<Contour>
    var blobColorRgba: seq<real>
    var imgScale: int
    /** How many times process ran past its seed check. */
    ghost var processed: nat

    /** Every Scalar holds four values and imgScale has been doubled twice
        per completed process. */
    ghost predicate Valid()
      reads this
    {
      |lowerBound| == 4 && |upperBound| == 4 && |colorRadius| == 4 && |blobColorRgba| == 4 &&
      imgScale == Pow4(processed)
    }

    constructor ()
      ensures Valid() && processed == 0 && imgScale == 1 && contours == []
      ensures colorRadius == DEFAULT_COLOR_RADIUS && blobColorRgba == [255.0, 0.0, 0.0, 0.0]
    {
      lowerBound := [0.0, 0.0, 0.0, 0.0];
      upperBound := [0.0, 0.0, 0.0, 0.0];
      colorRadius := DEFAULT_COLOR_RADIUS;
      contours := [];
      blobColorRgba := [255.0, 0.0, 0.0, 0.0];
      imgScale := 1;
      processed := 0;
    }

    /** process(in, p): nothing happens for a null seed or one outside the
        image; otherwise the blob colour and HSV range come from the sample,
        the image is halved twice (imgScale quadruples) and the contours
        above a tenth of the largest are kept at full size. */
    method Process(cols: int, rows: int, p: Option<Point>, d: Detection)
      requires Valid() && WellFormed(d)
      modifies this
      ensures Valid()
      ensures !(p.Some? && SeedInRange(p.value, cols, rows)) ==>
                lowerBound == old(lowerBound) && upperBound == old(upperBound) && contours == old(contours) &&
                blobColorRgba == old(blobColorRgba) && imgScale == old(imgScale) && processed == old(processed)
      ensures p.Some? && SeedInRange(p.value, cols, rows) ==>
                var mean := MeanColor(d.sampleSum, ColorRect(p.value));
                blobColorRgba == d.blobRgba &&
                (lowerBound, upperBound) == HsvBounds(mean, colorRadius) &&
                imgScale == 4 * old(imgScale) && processed == old(processed) + 1 &&
                contours == Filtered(d.contours, MIN_CONTOUR_AREA, Max0(Areas(d.contours)), imgScale)
      ensures colorRadius == old(colorRadius)
    {
      if p.None? || p.value.x < 0.0 || p.value.y < 0.0 || p.value.x > cols as real || p.value.y > rows as real {
        return;
      }
      ProcessSeed(p.value, d);
    }

    /** The body of process past its seed check. */
    method ProcessSeed(p: Point, d: Detection)
      requires Valid() && WellFormed(d)
      modifies this
      ensures Valid()
      ensures blobColorRgba == d.blobRgba &&
              (lowerBound, upperBound) == HsvBounds(MeanColor(d.sampleSum, ColorRect(p)), colorRadius) &&
              imgScale == 4 * old(imgScale) && processed == old(processed) + 1 &&
              contours == Filtered(d.contours, MIN_CONTOUR_AREA, Max0(Areas(d.contours)), imgScale)
      ensures colorRadius == old(colorRadius)
    {
      var colorRect := ColorRect(p);
      var mean := MeanColor(d.sampleSum, colorRect);
      blobColorRgba := d.blobRgba;
      SetHsvColor(mean);
      DownsizeMat();
      DownsizeMat();
      processed := processed + 1;
      var maxArea := MaxFold(Areas(d.contours));
      FillContoursList(d.contours, maxArea);
    }

    /** setHsvColor: the range checked in HSV space around the colour. */
    method SetHsvColor(hsv: seq<real>)
      requires |hsv| == 4 && |colorRadius| == 4
      modifies this
      ensures colorRadius == old(colorRadius) && contours == old(contours) && blobColorRgba == old(blobColorRgba)
      ensures (lowerBound, upperBound) == HsvBounds(hsv, colorRadius)
      ensures imgScale == old(imgScale) && processed == old(processed)
    {
      var b := HsvBounds(hsv, colorRadius);
      lowerBound := b.0;
      upperBound := b.1;
    }

    /** downsizeMat: Imgproc.pyrDown halves the image, imgScale doubles. */
    method DownsizeMat()
      modifies this
      ensures imgScale == 2 * old(imgScale)
      ensures lowerBound == old(lowerBound) && upperBound == old(upperBound) && colorRadius == old(colorRadius)
      ensures contours == old(contours) && blobColorRgba == old(blobColorRgba) && processed == old(processed)
    {
      imgScale := imgScale * 2;
    }

    /** fillContoursList: clears the list, then appends the contours above
        the threshold, scaled by imgScale. */
    method FillContoursList(found: seq<Contour>, maxArea: real)
      modifies this
      ensures contours == Filtered(found, MIN_CONTOUR_AREA, maxArea, imgScale)
      ensures lowerBound == old(lowerBound) && upperBound == old(upperBound) && colorRadius == old(colorRadius)
      ensures blobColorRgba == old(blobColorRgba) && imgScale == old(imgScale) && processed == old(processed)
    {
      contours := [];
      var i := 0;
      while i < |found|
        invariant 0 <= i <= |found|
        invariant contours == Filtered(found[..i], MIN_CONTOUR_AREA, maxArea, imgScale)
        invariant lowerBound == old(lowerBound) && upperBound == old(upperBound) && colorRadius == old(colorRadius)
        invariant blobColorRgba == old(blobColorRgba) && imgScale == old(imgScale) && processed == old(processed)
      {
        assert found[..i + 1][..i] == found[..i];
        if found[i].area > MIN_CONTOUR_AREA * maxArea {
          contours := contours + [Scaled(found[i], imgScale)];
        }
        i := i + 1;
      }
      assert found[..|found|] == found;
    }

    method GetContoursMaxArea() returns (r: real)
      ensures r == Max0(Areas(contours))
    {
      r := MaxFold(Areas(contours));
    }

    method GetContoursTotalArea() returns (r: real)
      ensures r == Sum(Areas(contours))
    {
      r := SumFold(Areas(contours));
    }

    method GetContoursMaxPerimeter() returns (r: real)
      ensures r == Max0(Perimeters(contours))
    {
      r := MaxFold(Perimeters(contours));
    }
  }

  /** A fresh detector run once on a seed. */
  method Detect(cols: int, rows: int, p: Option<Point>, d: Detection) returns (s: BlobSummary)
    requires WellFormed(d)
    ensures s == FreshSummary(cols, rows, p, d, MIN_CONTOUR_AREA)
  {
    var det := new ColorBlobDetector();
    det.Process(cols, rows, p, d);
    var total := det.GetContoursTotalArea();
    var maxArea := det.GetContoursMaxArea();
    var maxPerimeter := det.GetContoursMaxPerimeter();
    s := BlobSummary(det.blobColorRgba, total, maxArea, maxPerimeter);
  }
}

/** detectors/background/ColorBlobDetector.java: the same detector without
    the null check, with settable colour radius and a static minimum area
    shared by all instances. */
module DetectorColorBlob {
  import opened JavaSemantics
  import opened Geometry
  import opened ContourFolds

  /** The static mMinContourArea, one object shared by every detector. */
  class MinContourArea {
    var value: real

    constructor ()
      ensures value == 0.1
    {
      value := 0.1;
    }
  }

  class ColorBlobDetector {
    var lowerBound: seq<real>
    var upperBound: seq<real>
    var colorRadius: seq<real>
    var contours: seq<Contour>
    var blobColorRgba: seq<real>
    var blobColorHsv: seq<real>
    var imgScale: int
    ghost var processed: nat
    const minArea: MinContourArea

    ghost predicate Valid()
      reads this
    {
      |lowerBound| == 4 && |upperBound| == 4 && |colorRadius| == 4 && |blobColorRgba| == 4 &&
      |blobColorHsv| == 4 && imgScale == Pow4(processed)
    }

    constructor (shared: MinContourArea)
      ensures Valid() && processed == 0 && imgScale == 1 && contours == [] && minArea == shared
      ensures colorRadius == DEFAULT_COLOR_RADIUS && blobColorRgba == [255.0, 0.0, 0.0, 0.0]
    {
      lowerBound := [0.0, 0.0, 0.0, 0.0];
      upperBound := [0.0, 0.0, 0.0, 0.0];
      colorRadius := DEFAULT_COLOR_RADIUS;
      contours := [];
      blobColorRgba := [255.0, 0.0, 0.0, 0.0];
      blobColorHsv := [255.0, 0.0, 0.0, 0.0];
      imgScale := 1;
      processed := 0;
      minArea := shared;
    }

    /** process(in, p) for a non-null seed: nothing happens outside the
        image; otherwise as in the processing detector, with the current
        shared minimum area. */
    method Process(cols: int, rows: int, p: Point, d: Detection)
      requires Valid() && WellFormed(d)
      modifies this
      ensures Valid() && colorRadius == old(colorRadius)
      ensures !SeedInRange(p, cols, rows) ==>
                lowerBound == old(lowerBound) && upperBound == old(upperBound) && contours == old(contours) &&
                blobColorRgba == old(blobColorRgba) && blobColorHsv == old(blobColorHsv) &&
                imgScale == old(imgScale) && processed == old(processed)
      ensures SeedInRange(p, cols, rows) ==>
                blobColorHsv == MeanColor(d.sampleSum, ColorRect(p)) && blobColorRgba == d.blobRgba &&
                (lowerBound, upperBound) == HsvBounds(blobColorHsv, colorRadius) &&
                imgScale == 4 * old(imgScale) && processed == old(processed) + 1 &&
                contours == Filtered(d.contours, minArea.value, Max0(Areas(d.contours)), imgScale)
    {
      if p.x < 0.0 || p.y < 0.0 || p.x > cols as real || p.y > rows as real {
        return;
      }
      ProcessSeed(p, d);
    }

    /** The body of process past its seed check. */
    method ProcessSeed(p: Point, d: Detection)
      requires Valid() && WellFormed(d)
      modifies this
      ensures Valid() && colorRadius == old(colorRadius)
      ensures blobColorHsv == MeanColor(d.sampleSum, ColorRect(p)) && blobColorRgba == d.blobRgba &&
              (lowerBound, upperBound) == HsvBounds(blobColorHsv, colorRadius) &&
              imgScale == 4 * old(imgScale) && processed == old(processed) + 1 &&
              contours == Filtered(d.contours, minArea.value, Max0(Areas(d.contours)), imgScale)
    {
      var colorRect := ColorRect(p);
      blobColorHsv := MeanColor(d.sampleSum, colorRect);
      blobColorRgba := d.blobRgba;
      SetHsvColor(blobColorHsv);
      DownsizeMat();
      DownsizeMat();
      processed := processed + 1;
      var maxArea := MaxFold(Areas(d.contours));
      FillContoursList(d.contours, maxArea);
    }

    method SetHsvColor(hsv: seq<real>)
      requires |hsv| == 4 && |colorRadius| == 4
      modifies this
      ensures colorRadius == old(colorRadius)
      ensures (lowerBound, upperBound) == HsvBounds(hsv, colorRadius)
      ensures contours == old(contours) && blobColorRgba == old(blobColorRgba)
      ensures blobColorHsv == old(blobColorHsv) && imgScale == old(imgScale) && processed == old(processed)
    {
      var b := HsvBounds(hsv, colorRadius);
      lowerBound := b.0;
      upperBound := b.1;
    }

    method DownsizeMat()
      modifies this
      ensures imgScale == 2 * old(imgScale)
      ensures lowerBound == old(lowerBound) && upperBound == old(upperBound) && colorRadius == old(colorRadius)
      ensures contours == old(contours) && blobColorRgba == old(blobColorRgba) && blobColorHsv == old(blobColorHsv)
      ensures processed == old(processed)
    {
      imgScale := imgScale * 2;
    }

    method FillContoursList(found: seq<Contour>, maxArea: real)
      modifies this
      ensures contours == Filtered(found, minArea.value, maxArea, imgScale)
      ensures lowerBound == old(lowerBound) && upperBound == old(upperBound) && colorRadius == old(colorRadius)
      ensures blobColorRgba == old(blobColorRgba) && blobColorHsv == old(blobColorHsv)
      ensures imgScale == old(imgScale) && processed == old(processed)
    {
      contours := [];
      var i := 0;
      while i < |found|
        invariant 0 <= i <= |found|
        invariant contours == Filtered(found[..i], minArea.value, maxArea, imgScale)
        invariant lowerBound == old(lowerBound) && upperBound == old(upperBound) && colorRadius == old(colorRadius)
        invariant blobColorRgba == old(blobColorRgba) && blobColorHsv == old(blobColorHsv)
        invariant imgScale == old(imgScale) && processed == old(processed)
      {
        assert found[..i + 1][..i] == found[..i];
        if found[i].area > minArea.value * maxArea {
          contours := contours + [Scaled(found[i], imgScale)];
        }
        i := i + 1;
      }
      assert found[..|found|] == found;
    }

    /** setColorRadius: a Scalar, so four values. */
    method SetColorRadius(radius: seq<real>)
      requires Valid() && |radius| == 4
      modifies this
      ensures Valid() && colorRadius == radius
      ensures lowerBound == old(lowerBound) && upperBound == old(upperBound) && contours == old(contours)
      ensures blobColorRgba == old(blobColorRgba) && blobColorHsv == old(blobColorHsv)
      ensures imgScale == old(imgScale) && processed == old(processed)
    {
      colorRadius := radius;
    }

    /** setMinContourArea: writes the static field, so every detector that
        shares it filters with the new fraction from then on. */
    method SetMinContourArea(area: real)
      modifies minArea
      ensures minArea.value == area
    {
      minArea.value := area;
    }

    method GetContours() returns (r: seq<Contour>)
      ensures r == contours
    {
      r := contours;
    }

    method GetContoursMaxArea() returns (r: real)
      ensures r == Max0(Areas(contours))
    {
      r := MaxFold(Areas(contours));
    }

    method GetContoursMaxPerimeter() returns (r: real)
      ensures r == Max0(Perimeters(contours))
    {
      r := MaxFold(Perimeters(contours));
    }
  }

  /** new ColorBlobDetector(mat, p): a fresh detector on the shared
      minimum area, processed once on the seed. */
  method Detect(shared: MinContourArea, cols: int, rows: int, p: Point, d: Detection) returns (s: BlobSummary)
    requires WellFormed(d)
    ensures s == FreshSummary(cols, rows, Some(p), d, shared.value)
  {
    var det := new ColorBlobDetector(shared);
    det.Process(cols, rows, p, d);
    var maxArea := det.GetContoursMaxArea();
    var maxPerimeter := det.GetContoursMaxPerimeter();
    var total := SumFold(Areas(det.contours));
    s := BlobSummary(det.blobColorRgba, total, maxArea, maxPerimeter);
  }

  /** A change of the minimum area through one detector is seen by another
      detector built on the same shared field. */
  method SharedMinArea(shared: MinContourArea, area: real) returns (a: ColorBlobDetector, b: ColorBlobDetector)
    modifies shared
    ensures a.minArea == shared && b.minArea == shared && a != b
    ensures b.minArea.value == area
  {
    a := new ColorBlobDetector(shared);
    b := new ColorBlobDetector(shared);
    a.SetMinContourArea(area);
  }
}

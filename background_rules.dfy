/** The verdict rules the background checks share: the 2-of-3 majority,
    the area rule of the colour-blob check, the edge-count rule, the two
    histogram scans and the list of background corrections. */
module BackgroundRules {
  import opened JavaSemantics
  import opened Geometry
  import opened Images
  import opened Actions
  import opened BackgroundPixels
  import opened ContourFolds

  /** isUniform's conditional: uniform ? (edgesFree || uncolorful)
      : (edgesFree && uncolorful). */
  predicate Majority(uniform: bool, edgesFree: bool, uncolorful: bool)
  {
    if uniform then edgesFree || uncolorful else edgesFree && uncolorful
  }

  function Count(b: bool): int { if b then 1 else 0 }

  /** The conditional is the 2-of-3 vote, whichever flag it tests first. */
  lemma MajorityIsTwoOfThree(a: bool, b: bool, c: bool)
    ensures Majority(a, b, c) <==> Count(a) + Count(b) + Count(c) >= 2
    ensures Majority(a, b, c) == Majority(b, a, c) == Majority(c, b, a)
  {
  }

  /** The area rule of the two-sided blob check: the image is not uniform
      iff what neither the person nor the left blob covers, and what
      neither the person nor the right blob covers, both exceed a tenth of
      the image (integer division). */
  predicate UniformByArea(imgArea: nat, areaPerson: real, areaLeft: real, areaRight: real)
  {
    var epsilon := imgArea / 10;
    !((imgArea as real - areaPerson - areaLeft) > epsilon as real &&
      (imgArea as real - areaPerson - areaRight) > epsilon as real)
  }

  /** Equivalently: the person together with the larger of the two
      background blobs covers all but at most a tenth of the image. */
  lemma UniformByAreaIff(imgArea: nat, areaPerson: real, areaLeft: real, areaRight: real)
    ensures UniformByArea(imgArea, areaPerson, areaLeft, areaRight) <==>
            areaPerson + (if areaLeft >= areaRight then areaLeft else areaRight) >= (imgArea - imgArea / 10) as real
  {
  }

  /** Larger blobs never turn a uniform verdict into a non-uniform one. */
  lemma UniformByAreaMonotone(imgArea: nat, areaPerson: real, areaLeft: real, areaRight: real, moreLeft: real, moreRight: real)
    requires areaLeft <= moreLeft && areaRight <= moreRight
    requires UniformByArea(imgArea, areaPerson, areaLeft, areaRight)
    ensures UniformByArea(imgArea, areaPerson, moreLeft, moreRight)
  {
  }

  /** The one-sided rule of the detectors' blob check. */
  predicate UniformBySingleArea(imgArea: nat, areaPerson: real, areaBackground: real)
  {
    !((imgArea as real - areaPerson - areaBackground) > (imgArea / 10) as real)
  }

  /** Equivalently: the person and the background blob together cover all
      but at most a tenth of the image. */
  lemma UniformBySingleAreaIff(imgArea: nat, areaPerson: real, areaBackground: real)
    ensures UniformBySingleArea(imgArea, areaPerson, areaBackground) <==>
            areaPerson + areaBackground >= (imgArea - imgArea / 10) as real
  {
  }

  /** The edge rule: the Canny pixel count minus the person's contour
      length must not exceed the allowance. */
  predicate EdgesFree(whitePixels: int, personContourLen: int, allowed: int)
  {
    !(whitePixels - personContourLen > allowed)
  }

  /** The allowance of the processing and validators checks: 1/150 of the
      image (integer division); the detectors allow 1000 edge pixels. */
  function EdgeAllowance(imgArea: nat): int { imgArea / 150 }
  const DETECTOR_EDGE_ALLOWANCE: int := 1000

  /** The edge rule accepts exactly the counts up to the allowance above
      the person's contour, and a longer person contour only helps. */
  lemma EdgesFreeIff(whitePixels: int, personContourLen: int, allowed: int)
    ensures EdgesFree(whitePixels, personContourLen, allowed) <==> whitePixels <= personContourLen + allowed
    ensures EdgesFree(whitePixels, personContourLen, allowed) ==> EdgesFree(whitePixels, personContourLen + 1, allowed)
  {
  }

  /** The processing check's colour rule on the meanStdDev values of the
      HSV background: hue spread at most 25 and value spread at most 50. */
  predicate UncolorfulBySpread(std: seq<real>)
    requires |std| >= 3
  {
    !(std[0] > 25.0 || std[2] > 50.0)
  }

  function Abs(x: real): (r: real)
    ensures r >= 0.0 && (r == x || r == -x)
  {
    if x < 0.0 then -x else x
  }

  /** The median-based colour rule: the median hue and the mean hue are
      within epsilon of each other. */
  predicate UncolorfulByMedian(median: real, mean: real, epsilon: real)
  {
    !(Abs(median - mean) > epsilon)
  }

  /** The background corrections of verify: NOT_UNIFORM when the majority
      fails, then TOO_DARK when the colour is not bright. */
  function BackgroundCorrections(uniform: bool, edgesFree: bool, uncolorful: bool, bright: bool): (r: seq<Action>)
    ensures NotUniform in r <==> !Majority(uniform, edgesFree, uncolorful)
    ensures TooDark in r <==> !bright
    ensures |r| <= 2 && (|r| == 2 ==> r == [NotUniform, TooDark])
    ensures forall a :: a in r ==> a == NotUniform || a == TooDark
  {
    (if !Majority(uniform, edgesFree, uncolorful) then [NotUniform] else []) + (if !bright then [TooDark] else [])
  }

  /** The number of the 60 hue bins the histograms have. */
  const HUE_BINS: nat := 60

  /** The bins 1..i added up; bin 0 (the masked person) is never counted. */
  function CumulativeBins(hist: seq<real>, i: nat): real
    requires i < |hist|
  {
    if i == 0 then 0.0 else CumulativeBins(hist, i - 1) + hist[i]
  }

  /** The first bin index from `from` on whose cumulative count exceeds
      half, if any below 60. */
  function FirstOverHalf(hist: seq<real>, half: int, from: nat): (k: Option<nat>)
    requires |hist| >= HUE_BINS
    requires from >= 1
    decreases HUE_BINS - from
    ensures k.Some? ==> from <= k.value < HUE_BINS && CumulativeBins(hist, k.value) > half as real &&
                        forall j :: from <= j < k.value ==> CumulativeBins(hist, j) <= half as real
    ensures k.None? ==> forall j :: from <= j < HUE_BINS ==> CumulativeBins(hist, j) <= half as real
  {
    if from >= HUE_BINS then None
    else if CumulativeBins(hist, from) > half as real then Some(from)
    else FirstOverHalf(hist, half, from + 1)
  }

  /** half of getMedianChannelValue: the pixels outside bin 0, halved and
      cast to `int`. */
  function MedianHalf(hist: seq<real>, imgArea: nat): int
    requires |hist| >= 1
  {
    Trunc((imgArea as real - hist[0]) / 2.0)
  }

  /** getMedianChannelValue on the hue channel: i * (180 / 60) + 1 for the
      first bin whose cumulative count passes half, 0 if none does. */
  function MedianChannelValue(hist: seq<real>, imgArea: nat): real
    requires |hist| >= HUE_BINS
  {
    match FirstOverHalf(hist, MedianHalf(hist, imgArea), 1)
    case None => 0.0
    case Some(i) => i as real * (180.0 / HUE_BINS as real) + 1.0
  }

  lemma {:induction false} CumulativeMonotone(hist: seq<real>, i: nat, j: nat)
    requires i <= j < |hist|
    requires forall b :: 0 <= b < |hist| ==> hist[b] >= 0.0
    ensures CumulativeBins(hist, i) <= CumulativeBins(hist, j)
    decreases j - i
  {
    if i < j {
      CumulativeMonotone(hist, i, j - 1);
    }
  }

  /** With non-negative bins the bin found is the median bin: every bin
      before it leaves at most half of the pixels counted, and from it on
      more than half are. */
  lemma MedianBinSplitsHalf(hist: seq<real>, imgArea: nat)
    requires |hist| >= HUE_BINS
    requires forall b :: 0 <= b < |hist| ==> hist[b] >= 0.0
    requires FirstOverHalf(hist, MedianHalf(hist, imgArea), 1).Some?
    ensures var k := FirstOverHalf(hist, MedianHalf(hist, imgArea), 1).value;
            (forall j :: 1 <= j < k ==> CumulativeBins(hist, j) <= MedianHalf(hist, imgArea) as real) &&
            (forall j :: k <= j < HUE_BINS ==> CumulativeBins(hist, j) > MedianHalf(hist, imgArea) as real) &&
            MedianChannelValue(hist, imgArea) == k as real * 3.0 + 1.0
  {
    var half := MedianHalf(hist, imgArea);
    var k := FirstOverHalf(hist, half, 1).value;
    OverHalfFromBin(hist, half, k);
    MedianValueOfBin(hist, imgArea, k);
  }

  /** Once the cumulative count passes half it stays past it. */
  lemma OverHalfFromBin(hist: seq<real>, half: int, k: nat)
    requires |hist| >= HUE_BINS && k < HUE_BINS
    requires forall b :: 0 <= b < |hist| ==> hist[b] >= 0.0
    requires CumulativeBins(hist, k) > half as real
    ensures forall j :: k <= j < HUE_BINS ==> CumulativeBins(hist, j) > half as real
  {
    forall j | k <= j < HUE_BINS
      ensures CumulativeBins(hist, j) > half as real
    {
      CumulativeMonotone(hist, k, j);
    }
  }

  /** The median of bin k is k * 3 + 1. */
  lemma MedianValueOfBin(hist: seq<real>, imgArea: nat, k: nat)
    requires |hist| >= HUE_BINS
    requires FirstOverHalf(hist, MedianHalf(hist, imgArea), 1) == Some(k)
    ensures MedianChannelValue(hist, imgArea) == k as real * 3.0 + 1.0
  {
  }

  /** getMedianChannelValue: the accumulating loop with its early break. */
  method GetMedianChannelValue(hist: seq<real>, imgArea: nat) returns (median: real)
    requires |hist| >= HUE_BINS
    ensures median == MedianChannelValue(hist, imgArea)
  {
    median := 0.0;
    var currentElements := 0.0;
    var half := Trunc((imgArea as real - hist[0]) / 2.0);
    var i := 1;
    while i < 60
      invariant 1 <= i <= HUE_BINS
      invariant currentElements == CumulativeBins(hist, i - 1)
      invariant FirstOverHalf(hist, half, 1) == FirstOverHalf(hist, half, i)
    {
      currentElements := currentElements + hist[i];
      if currentElements > half as real {
        median := i as real * (180.0 / 60.0) + 1.0;
        return;
      }
      i := i + 1;
    }
  }

  /** The detectors' scan: the first of the 60 bins holding at least 90
      pixels (half of the 180 hue range). */
  function FirstFullBin(hist: seq<real>, from: nat): (k: Option<nat>)
    requires |hist| >= HUE_BINS
    decreases HUE_BINS - from
    ensures k.Some? ==> from <= k.value < HUE_BINS && hist[k.value] >= 90.0 &&
                        forall j :: from <= j < k.value ==> hist[j] < 90.0
    ensures k.None? ==> forall j :: from <= j < HUE_BINS ==> hist[j] < 90.0
  {
    if from >= HUE_BINS then None
    else if hist[from] >= 180.0 / 2.0 then Some(from)
    else FirstFullBin(hist, from + 1)
  }

  /** The detectors' "median": the count of that bin, or -1. */
  function DetectorMedianHue(hist: seq<real>): real
    requires |hist| >= HUE_BINS
  {
    match FirstFullBin(hist, 0)
    case None => -1.0
    case Some(i) => hist[i]
  }

  /** The detectors' histogram loop. */
  method ScanHistogram(hist: seq<real>) returns (median: real)
    requires |hist| >= HUE_BINS
    ensures median == DetectorMedianHue(hist)
  {
    median := -1.0;
    var i := 0;
    while i < 60
      invariant 0 <= i <= HUE_BINS
      invariant FirstFullBin(hist, 0) == FirstFullBin(hist, i)
    {
      if hist[i] >= 180.0 / 2.0 {
        median := hist[i];
        return;
      }
      i := i + 1;
    }
  }

  /** The outcome of a completed blob check: the background colour handed
      to the properties, the person's contour length and the verdict. */
  datatype BlobOutcome = BlobOutcome(color: seq<real>, personContourLen: int, uniform: bool)

  /** The seed scans of the two-sided blob check. */
  predicate SeedsReadable(bg: Mat)
  {
    bg.Valid() &&
    AllInImage(bg, LeftCandidates(bg.cols as real)) &&
    AllInImage(bg, RightCandidates(bg.cols as real)) &&
    AllInImage(bg, PersonCandidates(bg.cols as real, bg.rows))
  }

  /** processBackgroundColorBlobDetection of the processing and validators
      checks: nothing unless a person pixel and at least one background
      pixel are found; otherwise three fresh detectors (a missing side's
      detector stays at its defaults), the mean of the two background
      colours, the person's longest contour and the area rule on the total
      background areas and the largest person area. */
  function TwoSidedBlob(bg: Mat, dLeft: Detection, dRight: Detection, dPerson: Detection): (r: Option<BlobOutcome>)
    requires SeedsReadable(bg)
    ensures r.None? <==> FirstMatch(bg, PersonCandidates(bg.cols as real, bg.rows), true).None? ||
                         (FirstMatch(bg, LeftCandidates(bg.cols as real), false).None? &&
                          FirstMatch(bg, RightCandidates(bg.cols as real), false).None?)
  {
    var left := FirstMatch(bg, LeftCandidates(bg.cols as real), false);
    var right := FirstMatch(bg, RightCandidates(bg.cols as real), false);
    var person := FirstMatch(bg, PersonCandidates(bg.cols as real, bg.rows), true);
    if person.None? || (left.None? && right.None?) then None
    else Some(TwoSidedOutcome(bg.cols, bg.rows, left, right, person, dLeft, dRight, dPerson))
  }

  /** The outcome once the seeds are known. */
  function TwoSidedOutcome(cols: nat, rows: nat, left: Option<Point>, right: Option<Point>, person: Option<Point>,
                           dLeft: Detection, dRight: Detection, dPerson: Detection): BlobOutcome
  {
    var sl := FreshSummary(cols, rows, left, dLeft, 0.1);
    var sr := FreshSummary(cols, rows, right, dRight, 0.1);
    var sp := FreshSummary(cols, rows, person, dPerson, 0.1);
    BlobOutcome(ColorAverage(sl.color, sr.color), Trunc(sp.maxPerimeter),
                UniformByArea(cols * rows, sp.maxArea, sl.totalArea, sr.totalArea))
  }

  /** A found pixel lies inside the image (findPixel returns the truncated
      coordinates of a readable candidate), so a seed is never rejected by
      the detector's range check. */
  lemma {:induction false} FoundSeedInRange(bg: Mat, cands: seq<Point>, black: bool)
    requires bg.Valid() && AllInImage(bg, cands)
    requires FirstMatch(bg, cands, black).Some?
    ensures SeedInRange(FirstMatch(bg, cands, black).value, bg.cols, bg.rows)
  {
    var r := FirstMatch(bg, cands, black).value;
    var i :| 0 <= i < |cands| && r == Snapped(cands[i]);
    assert InImage(bg, cands[i]);
  }

  /** The 8 x 8 colour sample getColorRect cuts around a seed lies inside
      the image, so its submat does not throw. */
  predicate SampleInside(p: Point, cols: int, rows: int)
  {
    var r := ColorRect(p);
    0 <= r.x && r.x + r.width <= cols && 0 <= r.y && r.y + r.height <= rows
  }

  /** A candidate at least four pixels from every edge once truncated. */
  predicate SampleFits(img: Mat, c: Point)
  {
    4 <= Trunc(c.x) && Trunc(c.x) + 4 <= img.cols && 4 <= Trunc(c.y) && Trunc(c.y) + 4 <= img.rows
  }

  predicate AllSamplesFit(img: Mat, cands: seq<Point>)
  {
    forall i :: 0 <= i < |cands| ==> SampleFits(img, cands[i])
  }

  /** On an image at least 16 pixels wide and 14 high every candidate of
      every scan is far enough from the edges for its colour sample. */
  lemma {:induction false} CandidateSamplesFit(img: Mat)
    requires img.cols >= 16 && img.rows >= 14
    ensures AllSamplesFit(img, LeftCandidates(img.cols as real))
    ensures AllSamplesFit(img, RightCandidates(img.cols as real))
    ensures AllSamplesFit(img, PersonCandidates(img.cols as real, img.rows))
    ensures AllSamplesFit(img, DetectorBackgroundCandidates(img.cols as real))
  {
    var w := img.cols as real;
    var h := img.rows;
    TruncOfInt(10);
    TruncOfInt(img.cols - 10);
    TruncOfInt(h - 10);
    TruncOfInt(h / 2);
    TruncOfInt(h * 3 / 4);
    assert w - 10.0 == (img.cols - 10) as real;
    assert Trunc(w / 4.0) >= 4 && Trunc(w / 4.0) + 4 <= img.cols;
    assert Trunc(w / 4.0 * 3.0) >= 4 && Trunc(w / 4.0 * 3.0) + 4 <= img.cols;
    assert Trunc(w / 2.0) >= 4 && Trunc(w / 2.0) + 4 <= img.cols;
  }

  /** A seed found among candidates that fit has its colour sample inside
      the image. */
  lemma {:induction false} FoundSeedSampleInside(bg: Mat, cands: seq<Point>, black: bool)
    requires bg.Valid() && AllInImage(bg, cands) && AllSamplesFit(bg, cands)
    requires FirstMatch(bg, cands, black).Some?
    ensures SampleInside(FirstMatch(bg, cands, black).value, bg.cols, bg.rows)
  {
    var r := FirstMatch(bg, cands, black).value;
    var i :| 0 <= i < |cands| && r == Snapped(cands[i]);
    assert SampleFits(bg, cands[i]);
    var x := Trunc(cands[i].x);
    var y := Trunc(cands[i].y);
    TruncOfInt(x - 4);
    TruncOfInt(y - 4);
    assert r == Snapped(cands[i]);
    assert r.x == x as real;
    assert r.x - 4.0 == (x - 4) as real && r.y - 4.0 == (y - 4) as real;
  }
}

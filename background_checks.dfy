/** processing/background/BackgroundUtils.java: the three checks that
    score a segmented background in an int-scored BackgroundProperties, and
    their 2-of-3 vote. What OpenCV computes (the seed detections, the Canny
    pixel count, the meanStdDev spreads) comes in as parameters. */
module ProcessingBackgroundUtils {
  import opened JavaSemantics
  import opened Geometry
  import opened Images
  import opened BackgroundPixels
  import opened ContourFolds
  import opened BackgroundRules
  import ProcessingColorBlob
  import opened ProcessingBackgroundProperties

  /** processBackgroundColorBlobDetection: no change when the seeds are
      missing, otherwise the brightness of the mean background colour, the
      person's contour length and the area verdict (as 1 or 0). */
  method ProcessBackgroundColorBlobDetection(background: Mat, props: BackgroundProperties,
                                             dLeft: Detection, dRight: Detection, dPerson: Detection)
    requires SeedsReadable(background)
    requires WellFormed(dLeft) && WellFormed(dRight) && WellFormed(dPerson)
    modifies props
    ensures TwoSidedBlob(background, dLeft, dRight, dPerson).None? ==>
              props.bright == old(props.bright) && props.personContourLen == old(props.personContourLen) &&
              props.uniform == old(props.uniform)
    ensures TwoSidedBlob(background, dLeft, dRight, dPerson).Some? ==>
              var o := TwoSidedBlob(background, dLeft, dRight, dPerson).value;
              props.bright == IsBright(GetBrightness(o.color)) &&
              props.personContourLen == o.personContourLen && props.uniform == Score(o.uniform)
    ensures props.edgesFree == old(props.edgesFree) && props.uncolorful == old(props.uncolorful)
  {
    var w := background.cols as real;
    var left := FindPixel(background, LeftCandidates(w), false);
    var right := FindPixel(background, RightCandidates(w), false);
    var person := FindPixel(background, PersonCandidates(w, background.rows), true);
    if person.None? || (left.None? && right.None?) {
      return;
    }
    ghost var o := TwoSidedOutcome(background.cols, background.rows, left, right, person, dLeft, dRight, dPerson);
    assert TwoSidedBlob(background, dLeft, dRight, dPerson) == Some(o);
    var sl := ProcessingColorBlob.Detect(background.cols, background.rows, left, dLeft);
    var sr := ProcessingColorBlob.Detect(background.cols, background.rows, right, dRight);
    var rgbAverage := ComputeColorAverage(sl.color, sr.color);
    props.SetBgColorRgba(rgbAverage);
    var sp := ProcessingColorBlob.Detect(background.cols, background.rows, person, dPerson);
    props.SetPersonContourLen(Trunc(sp.maxPerimeter));
    var imgArea := background.Area();
    var epsilon := imgArea / 10;
    if (imgArea as real - sp.maxArea - sl.totalArea) > epsilon as real &&
       (imgArea as real - sp.maxArea - sr.totalArea) > epsilon as real {
      props.SetUniform(Score(false));
    } else {
      props.SetUniform(Score(true));
    }
    assert props.uniform == Score(UniformByArea(imgArea, sp.maxArea, sl.totalArea, sr.totalArea)) == Score(o.uniform);
  }

  /** processEdgeDetection: edge-free unless the Canny count exceeds the
      person's contour by more than 1/150 of the image. */
  method ProcessEdgeDetection(background: Mat, props: BackgroundProperties, whitePixels: int)
    modifies props
    ensures props.edgesFree == Score(EdgesFree(whitePixels, old(props.personContourLen), EdgeAllowance(background.Area())))
    ensures props.personContourLen == old(props.personContourLen) && props.uniform == old(props.uniform)
    ensures props.bright == old(props.bright) && props.uncolorful == old(props.uncolorful)
  {
    var imgArea := background.Area();
    var epsilon := imgArea / 150;
    var len := props.GetPersonContourLen();
    var approxLengthOfEdges := whitePixels - len;
    if approxLengthOfEdges > epsilon {
      props.SetEdgesFree(Score(false));
    } else {
      props.SetEdgesFree(Score(true));
    }
  }

  /** processColorsDetection on the hue, saturation and value spreads. */
  method ProcessColorsDetection(props: BackgroundProperties, standardDeviation: seq<real>)
    requires |standardDeviation| >= 3
    modifies props
    ensures props.uncolorful == Score(UncolorfulBySpread(standardDeviation))
    ensures props.personContourLen == old(props.personContourLen) && props.uniform == old(props.uniform)
    ensures props.bright == old(props.bright) && props.edgesFree == old(props.edgesFree)
  {
    var epsilonHue := 25;
    var epsilonValue := 50;
    if standardDeviation[0] > epsilonHue as real || standardDeviation[2] > epsilonValue as real {
      props.SetUncolorful(Score(false));
    } else {
      props.SetUncolorful(Score(true));
    }
  }

  /** isUniform: the three checks in turn, then the 2-of-3 vote on what
      they stored. The edge check sees the contour length the blob check
      left behind. */
  method IsUniform(background: Mat, props: BackgroundProperties,
                   dLeft: Detection, dRight: Detection, dPerson: Detection,
                   whitePixels: int, standardDeviation: seq<real>) returns (r: bool)
    requires SeedsReadable(background)
    requires WellFormed(dLeft) && WellFormed(dRight) && WellFormed(dPerson)
    requires |standardDeviation| >= 3
    modifies props
    ensures r == Majority(props.uniform != 0, props.edgesFree != 0, props.uncolorful != 0)
    ensures TwoSidedBlob(background, dLeft, dRight, dPerson).None? ==>
              props.bright == old(props.bright) && props.personContourLen == old(props.personContourLen) &&
              props.uniform == old(props.uniform)
    ensures TwoSidedBlob(background, dLeft, dRight, dPerson).Some? ==>
              var o := TwoSidedBlob(background, dLeft, dRight, dPerson).value;
              props.bright == IsBright(GetBrightness(o.color)) &&
              props.personContourLen == o.personContourLen && props.uniform == Score(o.uniform)
    ensures props.edgesFree == Score(EdgesFree(whitePixels, props.personContourLen, EdgeAllowance(background.Area())))
    ensures props.uncolorful == Score(UncolorfulBySpread(standardDeviation))
  {
    ProcessBackgroundColorBlobDetection(background, props, dLeft, dRight, dPerson);
    ProcessEdgeDetection(background, props, whitePixels);
    ProcessColorsDetection(props, standardDeviation);
    r := if props.uniform != 0 then props.edgesFree != 0 || props.uncolorful != 0
         else props.edgesFree != 0 && props.uncolorful != 0;
  }
}

/** detectors/background/BackgroundUtils.java: the older checks on a
    Boolean BackgroundProperties, with one background seed, a fixed edge
    allowance and the count-of-the-first-full-bin "median". */
module DetectorBackgroundUtils {
  import opened JavaSemantics
  import opened Geometry
  import opened Images
  import opened BackgroundPixels
  import opened ContourFolds
  import opened BackgroundRules
  import DetectorColorBlob
  import opened FlagBackgroundProperties

  predicate OneSidedSeedsReadable(bg: Mat)
  {
    bg.Valid() &&
    AllInImage(bg, DetectorBackgroundCandidates(bg.cols as real)) &&
    AllInImage(bg, PersonCandidates(bg.cols as real, bg.rows))
  }

  /** The outcome of the one-sided blob check with the shared minimum
      area: the background detector's colour, the person's longest contour
      and the area rule on the two largest areas. */
  function OneSidedBlob(bg: Mat, minArea: real, dBackground: Detection, dPerson: Detection): (r: Option<BlobOutcome>)
    requires OneSidedSeedsReadable(bg)
    ensures r.None? <==> FirstMatch(bg, DetectorBackgroundCandidates(bg.cols as real), false).None? ||
                         FirstMatch(bg, PersonCandidates(bg.cols as real, bg.rows), true).None?
  {
    var pb := FirstMatch(bg, DetectorBackgroundCandidates(bg.cols as real), false);
    var pp := FirstMatch(bg, PersonCandidates(bg.cols as real, bg.rows), true);
    if pp.None? || pb.None? then None
    else Some(OneSidedOutcome(bg.cols, bg.rows, pb, pp, minArea, dBackground, dPerson))
  }

  function OneSidedOutcome(cols: nat, rows: nat, pb: Option<Point>, pp: Option<Point>, minArea: real,
                           dBackground: Detection, dPerson: Detection): BlobOutcome
  {
    var sb := FreshSummary(cols, rows, pb, dBackground, minArea);
    var sp := FreshSummary(cols, rows, pp, dPerson, minArea);
    BlobOutcome(sb.color, Trunc(sp.maxPerimeter), UniformBySingleArea(cols * rows, sp.maxArea, sb.maxArea))
  }

  /** processBackgroundColorBlobDetection of the detectors. */
  method ProcessBackgroundColorBlobDetection(bg: BackgroundProperties, background: Mat, shared: DetectorColorBlob.MinContourArea,
                                             dBackground: Detection, dPerson: Detection)
    requires OneSidedSeedsReadable(background)
    requires WellFormed(dBackground) && WellFormed(dPerson)
    modifies bg
    ensures OneSidedBlob(background, shared.value, dBackground, dPerson).None? ==>
              bg.bright == old(bg.bright) && bg.personContourLen == old(bg.personContourLen) && bg.uniform == old(bg.uniform)
    ensures OneSidedBlob(background, shared.value, dBackground, dPerson).Some? ==>
              var o := OneSidedBlob(background, shared.value, dBackground, dPerson).value;
              bg.bright == IsBright(GetBrightness(o.color)) &&
              bg.personContourLen == o.personContourLen && bg.uniform == o.uniform
    ensures bg.edgesFree == old(bg.edgesFree) && bg.uncolorful == old(bg.uncolorful)
  {
    var w := background.cols as real;
    var pixelBackground := FindPixel(background, DetectorBackgroundCandidates(w), false);
    var pixelPerson := FindPixel(background, PersonCandidates(w, background.rows), true);
    if pixelPerson.None? || pixelBackground.None? {
      return;
    }
    var sb := DetectorColorBlob.Detect(shared, background.cols, background.rows, pixelBackground.value, dBackground);
    bg.SetBgColor(sb.color);
    var areaBgd := sb.maxArea;
    var sp := DetectorColorBlob.Detect(shared, background.cols, background.rows, pixelPerson.value, dPerson);
    bg.SetPersonContourLen(Trunc(sp.maxPerimeter));
    var areaPerson := sp.maxArea;
    var imgArea := background.Area();
    var epsilon := imgArea / 10;
    if (imgArea as real - areaPerson - areaBgd) > epsilon as real {
      bg.SetUniform(false);
    } else {
      bg.SetUniform(true);
    }
  }

  /** processEdgeDetection: at most 1000 edge pixels beyond the person's
      contour. */
  method ProcessEdgeDetection(bg: BackgroundProperties, whitePixels: int)
    modifies bg
    ensures bg.edgesFree == EdgesFree(whitePixels, old(bg.personContourLen), DETECTOR_EDGE_ALLOWANCE)
    ensures bg.personContourLen == old(bg.personContourLen) && bg.uniform == old(bg.uniform)
    ensures bg.bright == old(bg.bright) && bg.uncolorful == old(bg.uncolorful)
  {
    var allowedLengthOfEdges := 1000;
    var len := bg.GetPersonContourLen();
    var approxLengthOfEdges := whitePixels - len;
    if approxLengthOfEdges > allowedLengthOfEdges {
      bg.SetEdgesFree(false);
    } else {
      bg.SetEdgesFree(true);
    }
  }

  /** processColorsDetection: the scanned "median" against the mean hue,
      within 10. */
  method ProcessColorsDetection(bg: BackgroundProperties, hist: seq<real>, avgHueValue: real)
    requires |hist| >= HUE_BINS
    modifies bg
    ensures bg.uncolorful == UncolorfulByMedian(DetectorMedianHue(hist), avgHueValue, 10.0)
    ensures bg.personContourLen == old(bg.personContourLen) && bg.uniform == old(bg.uniform)
    ensures bg.bright == old(bg.bright) && bg.edgesFree == old(bg.edgesFree)
  {
    var medianHueValue := ScanHistogram(hist);
    var epsilon := 10;
    if Abs(medianHueValue - avgHueValue) > epsilon as real {
      bg.SetUncolorful(false);
    } else {
      bg.SetUncolorful(true);
    }
  }

  /** A histogram whose bins all hold fewer than 90 pixels gives the
      "median" -1, so it is uncolorful only for a mean hue within [-11, 9]. */
  lemma NoFullBin(hist: seq<real>, avgHueValue: real)
    requires |hist| >= HUE_BINS
    requires forall i :: 0 <= i < HUE_BINS ==> hist[i] < 90.0
    ensures DetectorMedianHue(hist) == -1.0
    ensures UncolorfulByMedian(DetectorMedianHue(hist), avgHueValue, 10.0) <==> -11.0 <= avgHueValue <= 9.0
  {
  }
}

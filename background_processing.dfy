/** validators/background/BackgroundProcessing.java: checks the background
    behind the person in a camera frame and shows NOT_UNIFORM and TOO_DARK
    on the background graphic. The segmentation (getBackground), the Canny
    count, the hue histogram and the mean hue come in as parameters. */
module BackgroundProcessing {
  import opened JavaSemantics
  import opened Geometry
  import opened Images
  import opened Actions
  import opened Graphics
  import opened BackgroundPixels
  import opened ContourFolds
  import opened BackgroundRules
  import ProcessingColorBlob
  import opened FlagBackgroundProperties

  /** The allowed difference of median and mean hue. */
  const HUE_EPSILON: real := 3.6

  predicate HasIcons(icons: map<Action, DrawableId>)
  {
    NotUniform in icons && TooDark in icons
  }

  /** The flags after the three checks of verify on the background bg,
      given the flags before: an aborted blob check keeps the brightness,
      contour length and uniformity; the edge check uses the contour length
      then stored, the colour check the histogram median. */
  predicate FlagsAfterChecks(bg: Mat, dLeft: Detection, dRight: Detection, dPerson: Detection,
                             whitePixels: int, hist: seq<real>, avgHueValue: real,
                             bright0: bool, len0: int, uniform0: bool,
                             bright: bool, len: int, uniform: bool, edgesFree: bool, uncolorful: bool)
    requires SeedsReadable(bg) && |hist| >= HUE_BINS
  {
    var blob := TwoSidedBlob(bg, dLeft, dRight, dPerson);
    (blob.None? ==> bright == bright0 && len == len0 && uniform == uniform0) &&
    (blob.Some? ==> bright == IsBright(GetBrightness(blob.value.color)) &&
                    len == blob.value.personContourLen && uniform == blob.value.uniform) &&
    edgesFree == EdgesFree(whitePixels, len, EdgeAllowance(bg.Area())) &&
    uncolorful == UncolorfulByMedian(MedianChannelValue(hist, bg.Area()), avgHueValue, HUE_EPSILON)
  }

  class BackgroundProcessing {
    /** Whether `segmentor` is non-null. */
    var hasSegmentor: bool
    const overlay: Overlay
    /** mBackgroundGraphic. */
    const graphic: Graphic
    /** mBackgroundProperties: one record for the lifetime of the object. */
    const properties: BackgroundProperties
    /** mBackground: the last background handed to the checks. */
    var background: Option<Mat>

    ghost predicate Valid()
      reads this, graphic
    {
      graphic.kind == BackgroundGraphicClass && graphic.overlay == overlay && HasIcons(graphic.actionsMap)
    }

    /** A segmentor loaded, a fresh graphic and a fresh property record. */
    constructor (overlay0: Overlay, registry: ActionRegistry, icons: map<Action, DrawableId>)
      requires HasIcons(icons)
      ensures Valid() && hasSegmentor && overlay == overlay0 && background == None
      ensures fresh(graphic) && fresh(properties) && graphic.registry == registry && graphic.actionsMap == icons
      ensures properties.personContourLen == 0 && properties.uniform && properties.uncolorful &&
              properties.bright && properties.edgesFree
    {
      hasSegmentor := true;
      overlay := overlay0;
      graphic := new Graphic(BackgroundGraphicClass, registry, overlay0, icons);
      properties := new BackgroundProperties();
      background := None;
    }

    /** verify: nothing without a segmentor; otherwise the graphic joins the
        overlay and, if a background was segmented, the three checks run on
        it and the bar shows the background corrections of the stored
        flags. An aborted blob check keeps the previous flags. */
    method Verify(frame: Option<Mat>, dLeft: Detection, dRight: Detection, dPerson: Detection,
                  whitePixels: int, hist: seq<real>, avgHueValue: real)
      requires Valid()
      requires frame.Some? ==> SeedsReadable(frame.value)
      requires WellFormed(dLeft) && WellFormed(dRight) && WellFormed(dPerson)
      requires |hist| >= HUE_BINS
      modifies this, overlay, properties, graphic, graphic.registry
      ensures Valid() && hasSegmentor == old(hasSegmentor) && graphic.actionsMap == old(graphic.actionsMap)
      ensures !hasSegmentor ==>
                overlay.graphics == old(overlay.graphics) && graphic.registry.actions == old(graphic.registry.actions) &&
                background == old(background) && unchanged(properties)
      ensures hasSegmentor ==> overlay.graphics == old(overlay.graphics) + {graphic} && background == frame
      ensures hasSegmentor && frame.None? ==>
                graphic.registry.actions == old(graphic.registry.actions) && unchanged(properties)
      ensures hasSegmentor && frame.Some? ==>
                FlagsAfterChecks(frame.value, dLeft, dRight, dPerson, whitePixels, hist, avgHueValue,
                                 old(properties.bright), old(properties.personContourLen), old(properties.uniform),
                                 properties.bright, properties.personContourLen, properties.uniform,
                                 properties.edgesFree, properties.uncolorful) &&
                graphic.registry.actions ==
                  BarActions(old(graphic.registry.actions), BackgroundGraphicClass,
                             IconIds(graphic.actionsMap,
                                     BackgroundCorrections(properties.uniform, properties.edgesFree,
                                                           properties.uncolorful, properties.bright)),
                             BackgroundGraphicClass) &&
                graphic.paintColor == PaintFor(graphic.registry.actions == map[])
    {
      if !hasSegmentor {
        return;
      }
      overlay.Add(graphic);
      background := frame;
      if frame.None? {
        return;
      }
      var bg := frame.value;
      ProcessBackgroundColorBlobDetection(bg, dLeft, dRight, dPerson);
      ProcessEdgeDetection(bg, whitePixels);
      ProcessColorsDetection(bg, hist, avgHueValue);
      var positions := Corrections();
      graphic.SetBarActions(positions, BackgroundGraphicClass);
    }

    /** The positions list of verify. isBright is never null here: the
        record starts with true and only ever stores a boxed boolean. */
    method Corrections() returns (positions: seq<Action>)
      ensures positions == BackgroundCorrections(properties.uniform, properties.edgesFree,
                                                 properties.uncolorful, properties.bright)
    {
      positions := [];
      var isUniform := if properties.uniform then properties.edgesFree || properties.uncolorful
                       else properties.edgesFree && properties.uncolorful;
      if !isUniform {
        positions := positions + [NotUniform];
      }
      if !properties.bright {
        positions := positions + [TooDark];
      }
    }

    /** processBackgroundColorBlobDetection: the two-sided blob check of
        the processing package, here on Boolean flags. */
    method ProcessBackgroundColorBlobDetection(bg: Mat, dLeft: Detection, dRight: Detection, dPerson: Detection)
      requires SeedsReadable(bg)
      requires WellFormed(dLeft) && WellFormed(dRight) && WellFormed(dPerson)
      modifies properties
      ensures TwoSidedBlob(bg, dLeft, dRight, dPerson).None? ==>
                properties.bright == old(properties.bright) &&
                properties.personContourLen == old(properties.personContourLen) &&
                properties.uniform == old(properties.uniform)
      ensures TwoSidedBlob(bg, dLeft, dRight, dPerson).Some? ==>
                var o := TwoSidedBlob(bg, dLeft, dRight, dPerson).value;
                properties.bright == IsBright(GetBrightness(o.color)) &&
                properties.personContourLen == o.personContourLen && properties.uniform == o.uniform
      ensures properties.edgesFree == old(properties.edgesFree) && properties.uncolorful == old(properties.uncolorful)
    {
      var w := bg.cols as real;
      var left := FindPixel(bg, LeftCandidates(w), false);
      var right := FindPixel(bg, RightCandidates(w), false);
      var person := FindPixel(bg, PersonCandidates(w, bg.rows), true);
      if person.None? || (left.None? && right.None?) {
        return;
      }
      ghost var o := TwoSidedOutcome(bg.cols, bg.rows, left, right, person, dLeft, dRight, dPerson);
      assert TwoSidedBlob(bg, dLeft, dRight, dPerson) == Some(o);
      var sl := ProcessingColorBlob.Detect(bg.cols, bg.rows, left, dLeft);
      var sr := ProcessingColorBlob.Detect(bg.cols, bg.rows, right, dRight);
      var rgbAverage := ComputeColorAverage(sl.color, sr.color);
      properties.SetBgColor(rgbAverage);
      var sp := ProcessingColorBlob.Detect(bg.cols, bg.rows, person, dPerson);
      properties.SetPersonContourLen(Trunc(sp.maxPerimeter));
      var imgArea := bg.Area();
      var epsilon := imgArea / 10;
      if (imgArea as real - sp.maxArea - sl.totalArea) > epsilon as real &&
         (imgArea as real - sp.maxArea - sr.totalArea) > epsilon as real {
        properties.SetUniform(false);
      } else {
        properties.SetUniform(true);
      }
      assert properties.uniform == UniformByArea(imgArea, sp.maxArea, sl.totalArea, sr.totalArea) == o.uniform;
    }

    /** processEdgeDetection with the 1/150 allowance. */
    method ProcessEdgeDetection(bg: Mat, whitePixels: int)
      modifies properties
      ensures properties.edgesFree == EdgesFree(whitePixels, old(properties.personContourLen), EdgeAllowance(bg.Area()))
      ensures properties.personContourLen == old(properties.personContourLen) && properties.uniform == old(properties.uniform)
      ensures properties.bright == old(properties.bright) && properties.uncolorful == old(properties.uncolorful)
    {
      var imgArea := bg.Area();
      var epsilon := imgArea / 150;
      var len := properties.GetPersonContourLen();
      var approxLengthOfEdges := whitePixels - len;
      if approxLengthOfEdges > epsilon {
        properties.SetEdgesFree(false);
      } else {
        properties.SetEdgesFree(true);
      }
    }

    /** processColorsDetection: the histogram median against the mean hue. */
    method ProcessColorsDetection(bg: Mat, hist: seq<real>, avgHueValue: real)
      requires |hist| >= HUE_BINS
      modifies properties
      ensures properties.uncolorful == UncolorfulByMedian(MedianChannelValue(hist, bg.Area()), avgHueValue, HUE_EPSILON)
      ensures properties.personContourLen == old(properties.personContourLen) && properties.uniform == old(properties.uniform)
      ensures properties.bright == old(properties.bright) && properties.edgesFree == old(properties.edgesFree)
    {
      var medianHueValue := GetMedianChannelValue(hist, bg.Area());
      var epsilon := 3.6;
      if Abs(medianHueValue - avgHueValue) > epsilon {
        properties.SetUncolorful(false);
      } else {
        properties.SetUncolorful(true);
      }
    }

    /** enhance: null without a segmentor; otherwise the person (RGBA, its
        alpha the person mask) pasted onto the blurred, brightened frame. */
    method Enhance(person: Mat, blurred: Mat) returns (r: Option<Mat>)
      requires person.Valid() && blurred.Valid()
      ensures !hasSegmentor ==> r == None
      ensures hasSegmentor ==> r == Some(if PasteGuard(person, blurred) then Pasted(person, blurred) else blurred)
    {
      if !hasSegmentor {
        return None;
      }
      var dst := Paste(person, blurred);
      r := Some(dst);
    }
  }

  /** The bar of a frame whose flags all pass is empty when no other
      graphic shows icons, so the graphic is then drawn as valid. */
  lemma AllPassingFlagsClearTheBar(m: ActionMap, icons: map<Action, DrawableId>)
    requires HasIcons(icons)
    requires forall id :: id in m ==> m[id] == BackgroundGraphicClass
    ensures BarActions(m, BackgroundGraphicClass, IconIds(icons, BackgroundCorrections(true, true, true, true)), BackgroundGraphicClass) == map[]
  {
    BarActionsEmptyIff(m, BackgroundGraphicClass, IconIds(icons, BackgroundCorrections(true, true, true, true)), BackgroundGraphicClass);
  }
}

/** The pose and expression rules both face trackers apply: one optional
    correction per head angle, then one per eye and one for the mouth, in a
    fixed order. */
module FaceRules {
  import opened Actions
  import opened Faces

  /** The thresholds of a tracker; angles are in degrees. */
  datatype Thresholds = Thresholds(neutralFace: real, eyesOpen: real, rotationY: real, rotationX: real, rotationZ: real) {
    predicate Valid() { rotationY >= 0.0 && rotationX >= 0.0 && rotationZ >= 0.0 }
  }

  /** processing/face/FaceTracker: pitch allows 8 degrees, a smile 0.5. */
  const PROCESSING: Thresholds := Thresholds(0.5, 0.7, 4.0, 8.0, 4.0)
  /** detectors/face/FaceTracker: all angles 4 degrees, a smile 0.4. */
  const DETECTORS: Thresholds := Thresholds(0.4, 0.7, 4.0, 4.0, 4.0)

  /** One head angle: the correction for a turn below -threshold, else the
      one for a turn above threshold, else none. */
  function AxisCorrection(angle: real, threshold: real, below: Action, above: Action): (s: seq<Action>)
    ensures |s| <= 1
    ensures forall a :: a in s ==> a == below || a == above
  {
    if angle < -threshold then [below] else if angle > threshold then [above] else []
  }

  function Flag(condition: bool, a: Action): (s: seq<Action>)
    ensures |s| <= 1 && forall x :: x in s ==> x == a
  {
    if condition then [a] else []
  }

  /** The positions list built for one face, in the order the checks run:
      yaw (EulerY), pitch (EulerX), roll (EulerZ), left eye, right eye,
      mouth. */
  function Corrections(f: Face, t: Thresholds): (acts: seq<Action>)
  {
    AxisCorrection(f.eulerY, t.rotationY, RotateLeft, RotateRight)
    + AxisCorrection(f.eulerX, t.rotationX, FaceUp, FaceDown)
    + AxisCorrection(f.eulerZ, t.rotationZ, StraightenFromLeft, StraightenFromRight)
    + Flag(f.leftEyeOpen < t.eyesOpen, LeftEyeOpen)
    + Flag(f.rightEyeOpen < t.eyesOpen, RightEyeOpen)
    + Flag(f.smiling > t.neutralFace, NeutralMouth)
  }

  /** A correction is requested iff one of the six checks requests it. */
  lemma CorrectionsMembership(f: Face, t: Thresholds, a: Action)
    ensures a in Corrections(f, t) <==>
              a in AxisCorrection(f.eulerY, t.rotationY, RotateLeft, RotateRight) ||
              a in AxisCorrection(f.eulerX, t.rotationX, FaceUp, FaceDown) ||
              a in AxisCorrection(f.eulerZ, t.rotationZ, StraightenFromLeft, StraightenFromRight) ||
              a in Flag(f.leftEyeOpen < t.eyesOpen, LeftEyeOpen) ||
              a in Flag(f.rightEyeOpen < t.eyesOpen, RightEyeOpen) ||
              a in Flag(f.smiling > t.neutralFace, NeutralMouth)
  {
  }

  /** With a non-negative threshold an axis asks for its `below`
      correction iff the angle is below -threshold and for its `above`
      correction iff the angle is above threshold; never for both. */
  lemma AxisCorrectionIff(angle: real, threshold: real, below: Action, above: Action)
    requires threshold >= 0.0 && below != above
    ensures below in AxisCorrection(angle, threshold, below, above) <==> angle < -threshold
    ensures above in AxisCorrection(angle, threshold, below, above) <==> angle > threshold
    ensures !(below in AxisCorrection(angle, threshold, below, above) && above in AxisCorrection(angle, threshold, below, above))
  {
  }

  /** With non-negative angle thresholds each angle correction appears
      exactly when its own condition holds, and the two of one axis never
      appear together. */
  lemma {:induction false} CorrectionsAngleIff(f: Face, t: Thresholds)
    requires t.Valid()
    ensures var acts := Corrections(f, t);
            (RotateLeft in acts <==> f.eulerY < -t.rotationY) &&
            (RotateRight in acts <==> f.eulerY > t.rotationY) &&
            (FaceUp in acts <==> f.eulerX < -t.rotationX) &&
            (FaceDown in acts <==> f.eulerX > t.rotationX) &&
            (StraightenFromLeft in acts <==> f.eulerZ < -t.rotationZ) &&
            (StraightenFromRight in acts <==> f.eulerZ > t.rotationZ)
    ensures var acts := Corrections(f, t);
            !(RotateLeft in acts && RotateRight in acts) &&
            !(FaceUp in acts && FaceDown in acts) &&
            !(StraightenFromLeft in acts && StraightenFromRight in acts)
  {
    AxisCorrectionIff(f.eulerY, t.rotationY, RotateLeft, RotateRight);
    AxisCorrectionIff(f.eulerX, t.rotationX, FaceUp, FaceDown);
    AxisCorrectionIff(f.eulerZ, t.rotationZ, StraightenFromLeft, StraightenFromRight);
    CorrectionsMembership(f, t, RotateLeft);
    CorrectionsMembership(f, t, RotateRight);
    CorrectionsMembership(f, t, FaceUp);
    CorrectionsMembership(f, t, FaceDown);
    CorrectionsMembership(f, t, StraightenFromLeft);
    CorrectionsMembership(f, t, StraightenFromRight);
  }

  /** Each eye and the mouth are checked on their own, whatever the angles;
      a face tracker never asks for a background correction. */
  lemma {:induction false} CorrectionsFlagIff(f: Face, t: Thresholds)
    ensures var acts := Corrections(f, t);
            (LeftEyeOpen in acts <==> f.leftEyeOpen < t.eyesOpen) &&
            (RightEyeOpen in acts <==> f.rightEyeOpen < t.eyesOpen) &&
            (NeutralMouth in acts <==> f.smiling > t.neutralFace) &&
            TooManyFaces !in acts && NotUniform !in acts && TooDark !in acts
  {
    CorrectionsMembership(f, t, LeftEyeOpen);
    CorrectionsMembership(f, t, RightEyeOpen);
    CorrectionsMembership(f, t, NeutralMouth);
    CorrectionsMembership(f, t, TooManyFaces);
    CorrectionsMembership(f, t, NotUniform);
    CorrectionsMembership(f, t, TooDark);
  }

  /** The checks of both trackers, appending to the positions list one
      check after the other. */
  method PoseCorrections(f: Face, t: Thresholds) returns (positions: seq<Action>)
    ensures positions == Corrections(f, t)
  {
    positions := [];
    positions := AppendAxis(positions, f.eulerY, t.rotationY, RotateLeft, RotateRight);
    assert positions == AxisCorrection(f.eulerY, t.rotationY, RotateLeft, RotateRight);
    positions := AppendAxis(positions, f.eulerX, t.rotationX, FaceUp, FaceDown);
    positions := AppendAxis(positions, f.eulerZ, t.rotationZ, StraightenFromLeft, StraightenFromRight);
    positions := AppendFlag(positions, f.leftEyeOpen < t.eyesOpen, LeftEyeOpen);
    positions := AppendFlag(positions, f.rightEyeOpen < t.eyesOpen, RightEyeOpen);
    positions := AppendFlag(positions, f.smiling > t.neutralFace, NeutralMouth);
  }

  /** One angle check: `below` for a turn below -threshold, else `above`
      for a turn above threshold. */
  method AppendAxis(positions: seq<Action>, angle: real, threshold: real, below: Action, above: Action)
      returns (r: seq<Action>)
    ensures r == positions + AxisCorrection(angle, threshold, below, above)
  {
    r := positions;
    if angle < -threshold {
      r := r + [below];
    } else if angle > threshold {
      r := r + [above];
    } else {
      assert r == r + [];
    }
  }

  /** One eye or mouth check. */
  method AppendFlag(positions: seq<Action>, condition: bool, a: Action) returns (r: seq<Action>)
    ensures r == positions + Flag(condition, a)
  {
    r := positions;
    if condition {
      r := r + [a];
    } else {
      assert r == r + [];
    }
  }

  /** The place of a correction in the order of the checks; the two
      corrections of one axis share a place. */
  function Rank(a: Action): nat
  {
    match a
    case RotateLeft => 0
    case RotateRight => 0
    case FaceUp => 1
    case FaceDown => 1
    case StraightenFromLeft => 2
    case StraightenFromRight => 2
    case LeftEyeOpen => 3
    case RightEyeOpen => 4
    case NeutralMouth => 5
    case _ => 6
  }

  predicate StrictlyRanked(s: seq<Action>)
  {
    forall i, j :: 0 <= i < j < |s| ==> Rank(s[i]) < Rank(s[j])
  }

  /** Appending at most one correction of a later place keeps the order. */
  lemma AppendRanked(s: seq<Action>, piece: seq<Action>, r: nat)
    requires StrictlyRanked(s) && forall i :: 0 <= i < |s| ==> Rank(s[i]) < r
    requires |piece| <= 1 && forall i :: 0 <= i < |piece| ==> Rank(piece[i]) == r
    ensures StrictlyRanked(s + piece) && forall i :: 0 <= i < |s + piece| ==> Rank((s + piece)[i]) < r + 1
  {
  }

  /** Corrections come in the fixed check order, at most one per place, so
      there are never more than six of them. */
  lemma {:induction false} CorrectionsOrdered(f: Face, t: Thresholds)
    ensures StrictlyRanked(Corrections(f, t))
    ensures forall i :: 0 <= i < |Corrections(f, t)| ==> Rank(Corrections(f, t)[i]) < 6
    ensures |Corrections(f, t)| <= 6
  {
    var p0 := AxisCorrection(f.eulerY, t.rotationY, RotateLeft, RotateRight);
    var p1 := AxisCorrection(f.eulerX, t.rotationX, FaceUp, FaceDown);
    var p2 := AxisCorrection(f.eulerZ, t.rotationZ, StraightenFromLeft, StraightenFromRight);
    var p3 := Flag(f.leftEyeOpen < t.eyesOpen, LeftEyeOpen);
    var p4 := Flag(f.rightEyeOpen < t.eyesOpen, RightEyeOpen);
    var p5 := Flag(f.smiling > t.neutralFace, NeutralMouth);
    assert forall i :: 0 <= i < |p0| ==> p0[i] in p0;
    assert forall i :: 0 <= i < |p1| ==> p1[i] in p1;
    assert forall i :: 0 <= i < |p2| ==> p2[i] in p2;
    assert forall i :: 0 <= i < |p3| ==> p3[i] in p3;
    assert forall i :: 0 <= i < |p4| ==> p4[i] in p4;
    assert forall i :: 0 <= i < |p5| ==> p5[i] in p5;
    PiecesRanked(p0, p1, p2, p3, p4, p5);
  }

  /** Six pieces of at most one correction each, piece k holding only
      corrections of place k, concatenate to a strictly ranked list. */
  lemma PiecesRanked(p0: seq<Action>, p1: seq<Action>, p2: seq<Action>, p3: seq<Action>, p4: seq<Action>, p5: seq<Action>)
    requires |p0| <= 1 && forall i :: 0 <= i < |p0| ==> Rank(p0[i]) == 0
    requires |p1| <= 1 && forall i :: 0 <= i < |p1| ==> Rank(p1[i]) == 1
    requires |p2| <= 1 && forall i :: 0 <= i < |p2| ==> Rank(p2[i]) == 2
    requires |p3| <= 1 && forall i :: 0 <= i < |p3| ==> Rank(p3[i]) == 3
    requires |p4| <= 1 && forall i :: 0 <= i < |p4| ==> Rank(p4[i]) == 4
    requires |p5| <= 1 && forall i :: 0 <= i < |p5| ==> Rank(p5[i]) == 5
    ensures StrictlyRanked(p0 + p1 + p2 + p3 + p4 + p5)
    ensures forall i :: 0 <= i < |p0 + p1 + p2 + p3 + p4 + p5| ==> Rank((p0 + p1 + p2 + p3 + p4 + p5)[i]) < 6
  {
    var q1 := p0 + p1;
    var q2 := q1 + p2;
    var q3 := q2 + p3;
    var q4 := q3 + p4;
    AppendRanked([], p0, 0);
    assert [] + p0 == p0;
    AppendRanked(p0, p1, 1);
    AppendRanked(q1, p2, 2);
    AppendRanked(q2, p3, 3);
    AppendRanked(q3, p4, 4);
    AppendRanked(q4, p5, 5);
  }

  /** Both trackers' thresholds are well formed. */
  lemma TrackerThresholdsValid()
    ensures PROCESSING.Valid() && DETECTORS.Valid()
    ensures PROCESSING.rotationX == 8.0 && DETECTORS.rotationX == 4.0
  {
  }

  /** The actions a face tracker can request need an icon. */
  predicate CoversFaceActions(icons: map<Action, DrawableIdLike>)
  {
    RotateLeft in icons && RotateRight in icons && FaceUp in icons && FaceDown in icons &&
    StraightenFromLeft in icons && StraightenFromRight in icons &&
    LeftEyeOpen in icons && RightEyeOpen in icons && NeutralMouth in icons
  }

  type DrawableIdLike = nat

  /** Every correction has an icon in a covering table. */
  lemma CorrectionsHaveIcons(f: Face, t: Thresholds, icons: map<Action, DrawableIdLike>)
    requires CoversFaceActions(icons)
    ensures forall a :: a in Corrections(f, t) ==> a in icons
  {
  }
}

/** processing/face/FaceTracker.java: receives the list of faces found in a
    frame, shows the face graphic and sets its action icons. */
module ProcessingFaceTracker {
  import opened Actions
  import opened Faces
  import opened JavaSemantics
  import opened Graphics
  import FaceRules

  predicate Covers(icons: map<Action, DrawableId>)
  {
    FaceRules.CoversFaceActions(icons) && TooManyFaces in icons
  }

  class FaceTracker {
    /** mFaces: null until the first frame. */
    var faces: Option<seq<Face>>
    const overlay: Overlay
    /** mFaceGraphic. */
    const graphic: Graphic

    predicate Valid()
      reads this, graphic
    {
      graphic.kind == FaceGraphicClass && graphic.overlay == overlay && Covers(graphic.actionsMap)
    }

    constructor (overlay0: Overlay, registry: ActionRegistry, icons: map<Action, DrawableId>)
      requires Covers(icons)
      ensures Valid() && fresh(graphic) && faces == None && overlay == overlay0
      ensures graphic.registry == registry && graphic.actionsMap == icons
    {
      faces := None;
      overlay := overlay0;
      graphic := new Graphic(FaceGraphicClass, registry, overlay0, icons);
    }

    /** processFaces. No face: the graphic leaves the overlay and its icons
        leave the bar. Several faces: the bar shows only TOO_MANY_FACES. One
        face: the bar shows its corrections and the graphic is valid iff the
        whole shared map is empty. */
    method ProcessFaces(fs: seq<Face>)
      requires Valid()
      modifies this, overlay, graphic, graphic.registry
      ensures Valid() && faces == Some(fs)
      ensures graphic.actionsMap == old(graphic.actionsMap)
      ensures |fs| == 0 ==> overlay.graphics == old(overlay.graphics) - {graphic} &&
                            graphic.registry.actions == ClearedOf(old(graphic.registry.actions), FaceGraphicClass) &&
                            graphic.paintColor == old(graphic.paintColor)
      ensures |fs| > 1 ==> overlay.graphics == old(overlay.graphics) + {graphic} &&
                           graphic.registry.actions == BarActions(old(graphic.registry.actions), FaceGraphicClass,
                                                                  [graphic.actionsMap[TooManyFaces]], FaceGraphicClass)
      ensures |fs| == 1 ==> overlay.graphics == old(overlay.graphics) + {graphic} &&
                            graphic.registry.actions == BarActions(old(graphic.registry.actions), FaceGraphicClass,
                                                                   IconIds(graphic.actionsMap, FaceRules.Corrections(fs[0], FaceRules.PROCESSING)),
                                                                   FaceGraphicClass)
      ensures |fs| > 0 ==> graphic.paintColor == PaintFor(graphic.registry.actions == map[])
    {
      faces := Some(fs);
      var positions: seq<Action> := [];
      overlay.Add(graphic);
      if |fs| == 0 {
        overlay.Remove(graphic);
        graphic.ClearActions(graphic.kind);
        return;
      }
      if |fs| > 1 {
        ghost var m0 := graphic.registry.actions;
        graphic.ClearActions(graphic.kind);
        ClearedOfIdempotent(m0, FaceGraphicClass);
        positions := positions + [TooManyFaces];
        graphic.SetBarActions(positions, FaceGraphicClass);
        return;
      }
      var face := fs[0];
      var t := FaceRules.PROCESSING;
      positions := FaceRules.PoseCorrections(face, t);
      FaceRules.CorrectionsHaveIcons(face, t, graphic.actionsMap);
      graphic.SetBarActions(positions, FaceGraphicClass);
    }

    /** getFaces: the list of the latest processFaces. */
    method GetFaces() returns (r: Option<seq<Face>>)
      ensures r == faces
    {
      r := faces;
    }

    /** clear: the graphic leaves the overlay and its icons leave the bar. */
    method Clear()
      requires Valid()
      modifies overlay, graphic.registry
      ensures Valid() && faces == old(faces)
      ensures overlay.graphics == old(overlay.graphics) - {graphic}
      ensures graphic.registry.actions == ClearedOf(old(graphic.registry.actions), FaceGraphicClass)
    {
      overlay.Remove(graphic);
      graphic.ClearActions(graphic.kind);
    }
  }

  /** Clearing a class twice is clearing it once. */
  lemma ClearedOfIdempotent(m: ActionMap, k: GraphicClass)
    ensures ClearedOf(ClearedOf(m, k), k) == ClearedOf(m, k)
  {
  }

  /** A single face within every threshold, eyes open and not smiling asks
      for nothing, and then the graphic is valid iff no other graphic shows
      an icon. */
  lemma NeutralFaceIsValid(m: ActionMap, icons: map<Action, DrawableId>, f: Face)
    requires f.eulerX == 0.0 && f.eulerY == 0.0 && f.eulerZ == 0.0
    requires f.leftEyeOpen == 1.0 && f.rightEyeOpen == 1.0 && f.smiling == 0.0
    ensures FaceRules.Corrections(f, FaceRules.PROCESSING) == []
    ensures var ids := IconIds(icons, FaceRules.Corrections(f, FaceRules.PROCESSING));
            BarActions(m, FaceGraphicClass, ids, FaceGraphicClass) == map[] <==>
              forall id :: id in m ==> m[id] == FaceGraphicClass
  {
    BarActionsEmptyIff(m, FaceGraphicClass, [], FaceGraphicClass);
  }
}

/** detectors/face/FaceTracker.java: the older tracker, fed one face at a
    time by the vision library's tracker callbacks. */
module DetectorFaceTracker {
  import opened Actions
  import opened Faces
  import opened JavaSemantics
  import opened Geometry
  import opened Graphics
  import FaceRules
  import DetectorFaceUtils

  /** detectors/face/FaceGraphic.java: a camera Graphic with its own list
      of icons and its own paint. Unlike the camera Graphic's three-argument
      path it never reads or writes the shared action map. */
  class FaceGraphic {
    /** The camera Graphic this class extends; the overlay holds it. */
    const base: Graphic
    /** headActionsMap: the icon of each face position. */
    const headActionsMap: map<Action, DrawableId>
    /** headActions, as the drawable ids of its bitmaps; null until the
        first setBarActions. */
    var headActions: Option<seq<DrawableId>>
    /** The colour of this class's own mPaint. */
    var paintColor: int
    /** mFace. */
    var face: Option<Face>

    /** FaceGraphic(overlay): painted invalid, no face and no icons yet. The
        camera part gets no icon table of its own. */
    constructor (overlay0: Overlay, registry: ActionRegistry, icons: map<Action, DrawableId>)
      ensures fresh(base) && base.kind == FaceGraphicClass && base.overlay == overlay0 && base.registry == registry
      ensures headActionsMap == icons && headActions == None && paintColor == INVALID_COLOR && face == None
    {
      base := new Graphic(FaceGraphicClass, registry, overlay0, map[]);
      headActionsMap := icons;
      headActions := None;
      paintColor := INVALID_COLOR;
      face := None;
    }

    /** updateFace: remembers the face (the redraw request is left out). */
    method UpdateFace(f: Face)
      modifies this
      ensures face == Some(f)
      ensures headActions == old(headActions) && paintColor == old(paintColor)
    {
      face := Some(f);
    }

    /** setBarActions(positions, context): a new list with the icon of each
        position, in order. Every position must have an icon (a missing one
        makes decodeResource unbox null). */
    method SetBarActions(positions: seq<Action>)
      requires forall p :: p in positions ==> p in headActionsMap
      modifies this
      ensures headActions == Some(IconIds(headActionsMap, positions))
      ensures paintColor == old(paintColor) && face == old(face)
    {
      var list: seq<DrawableId> := [];
      var i := 0;
      while i < |positions|
        invariant 0 <= i <= |positions|
        invariant |list| == i
        invariant forall k :: 0 <= k < i ==> list[k] == headActionsMap[positions[k]]
      {
        list := list + [headActionsMap[positions[i]]];
        i := i + 1;
      }
      assert list == IconIds(headActionsMap, positions);
      headActions := Some(list);
    }

    /** setIsValid: this graphic's own paint. */
    method SetIsValid(isValid: bool)
      modifies this
      ensures paintColor == PaintFor(isValid)
      ensures headActions == old(headActions) && face == old(face)
    {
      paintColor := PaintFor(isValid);
    }
  }

  class FaceTracker {
    /** mFace: null until the first update. */
    var face: Option<Face>
    const overlay: Overlay
    const graphic: FaceGraphic

    predicate Valid()
      reads this, graphic
    {
      graphic.base.kind == FaceGraphicClass && graphic.base.overlay == overlay &&
      FaceRules.CoversFaceActions(graphic.headActionsMap)
    }

    constructor (overlay0: Overlay, registry: ActionRegistry, icons: map<Action, DrawableId>)
      requires FaceRules.CoversFaceActions(icons)
      ensures Valid() && fresh(graphic) && fresh(graphic.base) && face == None && overlay == overlay0
      ensures graphic.base.registry == registry && graphic.headActionsMap == icons
      ensures graphic.headActions == None && graphic.paintColor == INVALID_COLOR
    {
      face := None;
      overlay := overlay0;
      graphic := new FaceGraphic(overlay0, registry, icons);
    }

    /** onUpdate: remembers the face, shows the graphic and lists its
        corrections on the graphic itself; the graphic is valid exactly when
        it asks for nothing, whatever other graphics show, and the shared
        action map is left as it was. */
    method OnUpdate(f: Face)
      requires Valid()
      modifies this, overlay, graphic
      ensures Valid() && face == Some(f) && graphic.face == Some(f)
      ensures overlay.graphics == old(overlay.graphics) + {graphic.base}
      ensures graphic.headActions == Some(IconIds(graphic.headActionsMap, FaceRules.Corrections(f, FaceRules.DETECTORS)))
      ensures graphic.paintColor == PaintFor(FaceRules.Corrections(f, FaceRules.DETECTORS) == [])
      ensures graphic.base.registry.actions == old(graphic.base.registry.actions)
    {
      overlay.Add(graphic.base);
      face := Some(f);
      var t := FaceRules.DETECTORS;
      var positions := FaceRules.PoseCorrections(f, t);
      FaceRules.CorrectionsHaveIcons(f, t, graphic.headActionsMap);
      graphic.SetIsValid(|positions| == 0);
      graphic.SetBarActions(positions);
      graphic.UpdateFace(f);
    }

    /** onMissing: the graphic leaves the overlay; the bar is kept. */
    method OnMissing()
      modifies overlay
      ensures overlay.graphics == old(overlay.graphics) - {graphic.base}
    {
      overlay.Remove(graphic.base);
    }

    /** onDone: the same as onMissing. */
    method OnDone()
      modifies overlay
      ensures overlay.graphics == old(overlay.graphics) - {graphic.base}
    {
      overlay.Remove(graphic.base);
    }

    /** getFaceBoundingBox: null before the first face, else the box of the
        last face in overlay coordinates. */
    method GetFaceBoundingBox() returns (r: Option<Rect>)
      ensures r.None? <==> face.None?
      ensures face.Some? ==> r == Some(DetectorFaceUtils.BoundingBox(face.value, graphic.base.overlay.view))
    {
      if face.None? {
        return None;
      }
      r := Some(DetectorFaceUtils.BoundingBox(face.value, graphic.base.overlay.view));
    }
  }

  /** On the detectors' thresholds the face graphic is painted valid
      exactly when every angle is within 4 degrees, both eyes are open with
      probability at least 0.7 and the smile is at most 0.4. */
  lemma {:induction false} ValidIffWithinThresholds(f: Face)
    ensures FaceRules.Corrections(f, FaceRules.DETECTORS) == [] <==>
              -4.0 <= f.eulerY <= 4.0 && -4.0 <= f.eulerX <= 4.0 && -4.0 <= f.eulerZ <= 4.0 &&
              f.leftEyeOpen >= 0.7 && f.rightEyeOpen >= 0.7 && f.smiling <= 0.4
  {
    FaceRules.CorrectionsAngleIff(f, FaceRules.DETECTORS);
    FaceRules.CorrectionsFlagIff(f, FaceRules.DETECTORS);
  }
}

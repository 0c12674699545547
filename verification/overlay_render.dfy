/** What the keypoint overlay draws and publishes for one detector result:
    the skeleton's bones and joints (only confident landmarks, at their
    pixel positions inside the video picture) and the landmark list handed
    to the `onKeypointsDetected` callback, mirrored as `x -> 1 - x` when the
    overlay mirrors. Canvas calls are modelled by the list of shapes they
    would paint, in painting order. */
module OverlayRender {
  import opened Common
  import opened OverlayGeometry

  /** One MediaPipe landmark: normalised position and a confidence score. */
  datatype Landmark = Landmark(x: real, y: real, z: real, visibility: real)

  /** MediaPipe Pose reports 33 landmarks per frame. */
  const LandmarkCount: nat := 33

  /** A landmark is drawn only when its visibility is strictly above this. */
  const VisibilityThreshold: real := 0.65

  /** `POSE_CONNECTIONS`: the bones of the skeleton as landmark index pairs. */
  const PoseConnections: seq<(nat, nat)> := [
    // face
    (0, 1), (1, 2), (2, 3), (3, 7), (0, 4), (4, 5), (5, 6), (6, 8),
    // arms
    (9, 10), (11, 12), (11, 13), (13, 15), (15, 17), (15, 19), (15, 21), (17, 19),
    (12, 14), (14, 16), (16, 18), (16, 20), (16, 22), (18, 20),
    // body
    (11, 23), (12, 24), (23, 24),
    // legs
    (23, 25), (24, 26), (25, 27), (26, 28), (27, 29), (28, 30), (29, 31), (30, 32), (27, 31), (28, 32)
  ]

  /** Every bone joins two distinct landmarks of the 33-point body model. */
  lemma ConnectionsInRange()
    ensures forall k | 0 <= k < |PoseConnections| ::
      PoseConnections[k].0 < LandmarkCount && PoseConnections[k].1 < LandmarkCount
      && PoseConnections[k].0 != PoseConnections[k].1
  {
  }

  predicate Visible(l: Landmark) {
    l.visibility > VisibilityThreshold
  }

  /** `kp1 && kp2 && kp1.visibility > 0.65 && kp2.visibility > 0.65`: both
      ends exist in the frame and both are confident. */
  predicate BoneVisible(frame: seq<Landmark>, bone: (nat, nat)) {
    bone.0 < |frame| && bone.1 < |frame| && Visible(frame[bone.0]) && Visible(frame[bone.1])
  }

  /** Joint colours: face and upper body (indices 0..10) in coral, the rest
      in blue. */
  const FaceColor: string := "#FF6B6B"
  const BodyColor: string := "#38BDF8"

  function JointColor(index: nat): (c: string)
    ensures c == FaceColor <==> index <= 10
    ensures c == BodyColor <==> index > 10
  {
    if index <= 10 then FaceColor else BodyColor
  }

  datatype Segment = Segment(from: Point, to: Point)
  datatype Dot = Dot(center: Point, color: string)

  /** The painted shapes: one slot per bone of `PoseConnections` and one per
      landmark, `None` where nothing is painted. */
  datatype Drawing = Drawing(bones: seq<Option<Segment>>, joints: seq<Option<Dot>>)

  function LandmarkPixel(g: Rect, l: Landmark, mirror: bool): Point {
    ToPixel(g, l.x, l.y, mirror)
  }

  function DrawBone(frame: seq<Landmark>, bone: (nat, nat), g: Rect, mirror: bool): (s: Option<Segment>)
    ensures s.Some? <==> BoneVisible(frame, bone)
    ensures s.Some? ==>
      s.value.from == LandmarkPixel(g, frame[bone.0], mirror) && s.value.to == LandmarkPixel(g, frame[bone.1], mirror)
  {
    if BoneVisible(frame, bone)
    then Some(Segment(LandmarkPixel(g, frame[bone.0], mirror), LandmarkPixel(g, frame[bone.1], mirror)))
    else None
  }

  function DrawJoint(frame: seq<Landmark>, i: nat, g: Rect, mirror: bool): (d: Option<Dot>)
    requires i < |frame|
    ensures d.Some? <==> Visible(frame[i])
    ensures d.Some? ==> d.value == Dot(LandmarkPixel(g, frame[i], mirror), JointColor(i))
  {
    if Visible(frame[i]) then Some(Dot(LandmarkPixel(g, frame[i], mirror), JointColor(i))) else None
  }

  /** `drawPoseMediaPipe` after the canvas is cleared. */
  function DrawPose(frame: seq<Landmark>, g: Rect, mirror: bool): (d: Drawing)
    ensures |d.bones| == |PoseConnections| && |d.joints| == |frame|
    ensures forall k | 0 <= k < |PoseConnections| ::
      d.bones[k].Some? <==> BoneVisible(frame, PoseConnections[k])
    ensures forall i | 0 <= i < |frame| :: d.joints[i].Some? <==> Visible(frame[i])
    ensures forall i | 0 <= i < |frame| && d.joints[i].Some? ::
      d.joints[i].value.color == JointColor(i)
    // what is painted in each slot: the bone's segment and the joint's dot
    ensures forall k | 0 <= k < |PoseConnections| :: d.bones[k] == DrawBone(frame, PoseConnections[k], g, mirror)
    ensures forall i | 0 <= i < |frame| :: d.joints[i] == DrawJoint(frame, i, g, mirror)
  {
    Drawing(
      seq(|PoseConnections|, k requires 0 <= k < |PoseConnections| => DrawBone(frame, PoseConnections[k], g, mirror)),
      seq(|frame|, i requires 0 <= i < |frame| => DrawJoint(frame, i, g, mirror)))
  }

  /** A landmark whose visibility is exactly the threshold is neither painted
      as a joint nor used as the end of a bone. */
  lemma ThresholdIsStrict(frame: seq<Landmark>, g: Rect, mirror: bool, i: nat)
    requires i < |frame| && frame[i].visibility == VisibilityThreshold
    ensures DrawPose(frame, g, mirror).joints[i].None?
    ensures forall k | 0 <= k < |PoseConnections| && (PoseConnections[k].0 == i || PoseConnections[k].1 == i) ::
      DrawPose(frame, g, mirror).bones[k].None?
  {
  }

  /** In a full 33-landmark frame every bone's ends exist, so a bone is drawn
      exactly when both of its landmarks are confident. */
  lemma FullFrameBones(frame: seq<Landmark>, g: Rect, mirror: bool)
    requires |frame| == LandmarkCount
    ensures forall k | 0 <= k < |PoseConnections| ::
      DrawPose(frame, g, mirror).bones[k].Some? <==>
        Visible(frame[PoseConnections[k].0]) && Visible(frame[PoseConnections[k].1])
  {
    ConnectionsInRange();
  }

  predicate InUnitSquare(l: Landmark) {
    0.0 <= l.x <= 1.0 && 0.0 <= l.y <= 1.0
  }

  predicate InBox(p: Point, dw: real, dh: real) {
    0.0 <= p.x <= dw && 0.0 <= p.y <= dh
  }

  /** Every painted joint of an in-frame pose lies inside the element's box. */
  lemma {:induction false} DrawnJointsInsideBox(frame: seq<Landmark>, dw: real, dh: real,
                                                videoW: nat, videoH: nat, mirror: bool)
    requires dw > 0.0 && dh > 0.0
    requires forall i | 0 <= i < |frame| :: InUnitSquare(frame[i])
    ensures var d := DrawPose(frame, ContainRect(dw, dh, videoW, videoH), mirror);
      forall i | 0 <= i < |frame| && d.joints[i].Some? :: InBox(d.joints[i].value.center, dw, dh)
  {
    var g := ContainRect(dw, dh, videoW, videoH);
    var d := DrawPose(frame, g, mirror);
    forall i | 0 <= i < |frame| && d.joints[i].Some? ensures InBox(d.joints[i].value.center, dw, dh) {
      assert d.joints[i] == DrawJoint(frame, i, g, mirror);
      ToPixelInsideBox(dw, dh, videoW, videoH, frame[i].x, frame[i].y, mirror);
    }
  }

  // ---------------------------------------------------------------------
  // Publishing
  // ---------------------------------------------------------------------

  /** `{ ...landmark, x: 1 - landmark.x }` */
  function Mirror(l: Landmark): (m: Landmark)
    ensures m.x == 1.0 - l.x && m.y == l.y && m.z == l.z && m.visibility == l.visibility
  {
    l.(x := 1.0 - l.x)
  }

  function MirrorAll(frame: seq<Landmark>): (r: seq<Landmark>)
    ensures |r| == |frame|
    ensures forall i | 0 <= i < |frame| :: r[i] == Mirror(frame[i])
  {
    seq(|frame|, i requires 0 <= i < |frame| => Mirror(frame[i]))
  }

  /** Mirroring twice gives back the detector's landmarks (exact on reals). */
  lemma MirrorAllTwice(frame: seq<Landmark>)
    ensures MirrorAll(MirrorAll(frame)) == frame
  {
  }

  /** The screen and everything needed to read it during `onResults`. */
  datatype Host = Host(canvasPresent: bool, videoPresent: bool, contextAvailable: bool,
                       hasCallback: bool, mirror: bool,
                       displayW: real, displayH: real, videoW: nat, videoH: nat)

  predicate ValidHost(h: Host) {
    h.displayW > 0.0 && h.displayH > 0.0
  }

  /** The effect of one `onResults` call: what is painted (`None` when the
      canvas is left untouched) and what the callback receives (`None` when
      it is not called). */
  datatype ResultsEffect = ResultsEffect(drawing: Option<Drawing>, published: Option<seq<Landmark>>)

  function OnResults(h: Host, poseLandmarks: Option<seq<Landmark>>): (e: ResultsEffect)
    requires ValidHost(h)
    // no canvas, no video or no pose: nothing is painted or published
    ensures !h.canvasPresent || !h.videoPresent || poseLandmarks.None? ==> e == ResultsEffect(None, None)
    ensures e.drawing.Some? <==> h.canvasPresent && h.videoPresent && poseLandmarks.Some? && h.contextAvailable
    ensures e.drawing.Some? ==>
      e.drawing.value == DrawPose(poseLandmarks.value, ContainRect(h.displayW, h.displayH, h.videoW, h.videoH), h.mirror)
    ensures e.published.Some? <==> h.canvasPresent && h.videoPresent && poseLandmarks.Some? && h.hasCallback
    // the published list keeps every landmark, flipping only x when mirroring
    ensures e.published.Some? ==>
      var lms := poseLandmarks.value;
      && |e.published.value| == |lms|
      && forall i | 0 <= i < |lms| ::
           var p := e.published.value[i];
           p.x == (if h.mirror then 1.0 - lms[i].x else lms[i].x)
           && p.y == lms[i].y && p.z == lms[i].z && p.visibility == lms[i].visibility
  {
    if !h.canvasPresent || !h.videoPresent || poseLandmarks.None? then ResultsEffect(None, None)
    else
      var lms := poseLandmarks.value;
      var g := ContainRect(h.displayW, h.displayH, h.videoW, h.videoH);
      var drawing := if h.contextAvailable then Some(DrawPose(lms, g, h.mirror)) else None;
      var published :=
        if !h.hasCallback then None
        else if h.mirror then Some(MirrorAll(lms))
        else Some(lms);
      ResultsEffect(drawing, published)
  }

  /** What is painted agrees with what is published: with mirroring on, the
      joint painted for landmark `i` sits where the published (already
      mirrored) landmark `i` maps without further flipping. */
  lemma PublishedMatchesDrawing(h: Host, lms: seq<Landmark>, i: nat)
    requires ValidHost(h) && h.canvasPresent && h.videoPresent && h.contextAvailable && h.hasCallback
    requires i < |lms| && Visible(lms[i])
    ensures var e := OnResults(h, Some(lms));
      var g := ContainRect(h.displayW, h.displayH, h.videoW, h.videoH);
      e.drawing.value.joints[i].Some? &&
      e.drawing.value.joints[i].value.center == LandmarkPixel(g, e.published.value[i], false)
  {
    var g := ContainRect(h.displayW, h.displayH, h.videoW, h.videoH);
    var e := OnResults(h, Some(lms));
    assert e.drawing.value.joints[i] == DrawJoint(lms, i, g, h.mirror);
  }
}

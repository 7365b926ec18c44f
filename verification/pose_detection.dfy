/** The pose-detection screen: the 200 ms analysis throttle of the live
    analyzer, turning detector landmarks into a pose, the screen's state
    resets, the skeleton's edges and colours, and the per-region landmark
    counts of the info card. The detector's landmarks and the clock are
    inputs; the detector's numeric landmark constants are a parameter. */
module PoseDetection {
  import opened Wrappers

  const MinimumAnalysisIntervalMs: int := 200
  const InFrameCutoff: real := 0.8

  // ---------------------------------------------------------------------
  // Landmark types
  // ---------------------------------------------------------------------

  /** The numeric values of the detector's landmark-type constants that the
      screen names. */
  datatype LandmarkIds = LandmarkIds(
    nose: int, leftEyeInner: int, leftEye: int, leftEyeOuter: int,
    rightEyeInner: int, rightEye: int, rightEyeOuter: int, rightMouth: int,
    leftShoulder: int, rightShoulder: int, leftElbow: int, rightElbow: int,
    leftWrist: int, rightWrist: int, rightPinky: int,
    leftHip: int, rightHip: int, leftKnee: int, rightKnee: int,
    leftAnkle: int, rightAnkle: int, rightFootIndex: int)

  /** The detector numbers its landmarks head to toe: face, then shoulders,
      arms and hands, then hips and legs. */
  predicate Ordered(ids: LandmarkIds) {
    && ids.nose < ids.leftEyeInner < ids.leftEye < ids.leftEyeOuter
    && ids.leftEyeOuter < ids.rightEyeInner < ids.rightEye < ids.rightEyeOuter
    && ids.rightEyeOuter < ids.rightMouth < ids.leftShoulder < ids.rightShoulder
    && ids.rightShoulder < ids.leftElbow < ids.rightElbow < ids.leftWrist
    && ids.leftWrist < ids.rightWrist < ids.rightPinky < ids.leftHip
    && ids.leftHip < ids.rightHip < ids.leftKnee < ids.rightKnee
    && ids.rightKnee < ids.leftAnkle < ids.rightAnkle < ids.rightFootIndex
  }

  /** Kotlin's `t in lo..hi`. */
  predicate InRange(t: int, lo: int, hi: int) {
    lo <= t <= hi
  }

  // ---------------------------------------------------------------------
  // Landmarks and poses
  // ---------------------------------------------------------------------

  datatype Offset = Offset(x: real, y: real)

  /** A landmark as the detector reports it, in image coordinates. */
  datatype RawLandmark = RawLandmark(landmarkType: int, position: Offset, inFrameLikelihood: real)

  datatype PoseLandmarkData = PoseLandmarkData(landmarkType: int, position: Offset, inFrameLikelihood: real)

  datatype DetectedPose = DetectedPose(id: int, landmarks: seq<PoseLandmarkData>, allLandmarksInFrame: bool)

  /** Image-to-view scale factors. */
  datatype Scale = Scale(sx: real, sy: real)

  /** The view size over the analysed image's size, per axis. */
  function ScaleFor(viewWidth: real, viewHeight: real, imageWidth: real, imageHeight: real): (r: Scale)
    requires imageWidth > 0.0 && imageHeight > 0.0
    ensures r.sx * imageWidth == viewWidth && r.sy * imageHeight == viewHeight
  {
    Scale(viewWidth / imageWidth, viewHeight / imageHeight)
  }

  /** Kotlin's `all { it.inFrameLikelihood > 0.8f }`, element by element. */
  function AllInFrame(lms: seq<RawLandmark>): (r: bool)
    ensures r <==> forall k :: 0 <= k < |lms| ==> lms[k].inFrameLikelihood > InFrameCutoff
    decreases |lms|
  {
    if |lms| == 0 then true
    else lms[0].inFrameLikelihood > InFrameCutoff && AllInFrame(lms[1..])
  }

  /** Each landmark moved into view coordinates. */
  function MapLandmarks(lms: seq<RawLandmark>, scale: Scale): (r: seq<PoseLandmarkData>)
    ensures |r| == |lms|
    ensures forall k :: 0 <= k < |r| ==>
      && r[k].landmarkType == lms[k].landmarkType
      && r[k].position == Offset(lms[k].position.x * scale.sx, lms[k].position.y * scale.sy)
      && r[k].inFrameLikelihood == lms[k].inFrameLikelihood
  {
    seq(|lms|, k requires 0 <= k < |lms| =>
      PoseLandmarkData(lms[k].landmarkType,
        Offset(lms[k].position.x * scale.sx, lms[k].position.y * scale.sy),
        lms[k].inFrameLikelihood))
  }

  /** The pose list a detector success produces: nothing when no landmark was
      found, otherwise the one pose, numbered 1. */
  function PosesFrom(lms: seq<RawLandmark>, scale: Scale): (r: seq<DetectedPose>)
    ensures |r| == 0 <==> |lms| == 0
    ensures |r| <= 1
    ensures |r| == 1 ==>
      && r[0].id == 1
      && |r[0].landmarks| == |lms|
      && (forall k :: 0 <= k < |lms| ==>
            && r[0].landmarks[k].landmarkType == lms[k].landmarkType
            && r[0].landmarks[k].position == Offset(lms[k].position.x * scale.sx, lms[k].position.y * scale.sy)
            && r[0].landmarks[k].inFrameLikelihood == lms[k].inFrameLikelihood)
      && (r[0].allLandmarksInFrame <==>
            forall k :: 0 <= k < |lms| ==> lms[k].inFrameLikelihood > InFrameCutoff)
  {
    if |lms| == 0 then []
    else [DetectedPose(1, MapLandmarks(lms, scale), AllInFrame(lms))]
  }

  /** What the detector's task ends with. */
  datatype Detection = Detected(landmarks: seq<RawLandmark>) | DetectionFailed

  /** The pose list a finished detection leaves on screen. */
  function PosesAfter(d: Detection, scale: Scale): (r: seq<DetectedPose>)
    ensures d.DetectionFailed? ==> r == []
    ensures d.Detected? ==> (|r| == 0 <==> |d.landmarks| == 0)
    ensures d.Detected? ==> r == PosesFrom(d.landmarks, scale)
  {
    match d
    case Detected(lms) => PosesFrom(lms, scale)
    case DetectionFailed => []
  }

  // ---------------------------------------------------------------------
  // The live analyzer's throttle
  // ---------------------------------------------------------------------

  /** A camera frame: when it arrived and whether it carries an image. */
  datatype Frame = Frame(time: int, hasImage: bool)

  /** What `analyze` does with a frame: closes it unread, closes it after
      finding no image, or hands it to the detector. */
  datatype FrameOutcome = Skipped | NoImage | Submitted

  datatype AnalyzeStep = AnalyzeStep(lastAnalyzed: int, outcome: FrameOutcome)

  /** `PoseAnalyzer.analyze` on the analyzer's last-analysed time. The time
      is recorded before the image is looked at, so a frame without an image
      also restarts the interval. */
  function Analyze(lastAnalyzed: int, f: Frame): (r: AnalyzeStep)
    ensures r.outcome == Skipped <==> f.time - lastAnalyzed < MinimumAnalysisIntervalMs
    ensures r.outcome == Submitted <==>
      f.time - lastAnalyzed >= MinimumAnalysisIntervalMs && f.hasImage
    ensures r.lastAnalyzed == if r.outcome == Skipped then lastAnalyzed else f.time
  {
    if f.time - lastAnalyzed >= MinimumAnalysisIntervalMs then
      if f.hasImage then AnalyzeStep(f.time, Submitted) else AnalyzeStep(f.time, NoImage)
    else
      AnalyzeStep(lastAnalyzed, Skipped)
  }

  /** The arrival times of the frames the detector is given, when the
      analyzer sees `frames` in order starting from `lastAnalyzed`. */
  function DetectorTimes(lastAnalyzed: int, frames: seq<Frame>): seq<int>
    decreases |frames|
  {
    if |frames| == 0 then []
    else
      var step := Analyze(lastAnalyzed, frames[0]);
      var rest := DetectorTimes(step.lastAnalyzed, frames[1..]);
      if step.outcome == Submitted then [frames[0].time] + rest else rest
  }

  /** Any two entries, in order, are at least the minimum interval apart. */
  predicate Spaced(ts: seq<int>) {
    forall i, j :: 0 <= i < j < |ts| ==> ts[j] - ts[i] >= MinimumAnalysisIntervalMs
  }

  /** The detector is never given two frames less than 200 ms apart, and the
      first no sooner than 200 ms after the starting time, whatever the
      clock does between frames. */
  lemma {:induction false} DetectorCallsSpaced(lastAnalyzed: int, frames: seq<Frame>)
    ensures forall t :: t in DetectorTimes(lastAnalyzed, frames) ==> t >= lastAnalyzed + MinimumAnalysisIntervalMs
    ensures Spaced(DetectorTimes(lastAnalyzed, frames))
    decreases |frames|
  {
    if |frames| > 0 {
      var step := Analyze(lastAnalyzed, frames[0]);
      var rest := DetectorTimes(step.lastAnalyzed, frames[1..]);
      DetectorCallsSpaced(step.lastAnalyzed, frames[1..]);
      if step.outcome == Submitted {
        var t := frames[0].time;
        var ts := [t] + rest;
        assert ts == DetectorTimes(lastAnalyzed, frames);
        assert step.lastAnalyzed == t >= lastAnalyzed + MinimumAnalysisIntervalMs;
        forall i, j | 0 <= i < j < |ts| ensures ts[j] - ts[i] >= MinimumAnalysisIntervalMs {
          assert ts[j] == rest[j - 1] && ts[j] in rest;
          if i > 0 {
            assert ts[i] == rest[i - 1];
          }
        }
      } else {
        assert rest == DetectorTimes(lastAnalyzed, frames);
        assert step.lastAnalyzed >= lastAnalyzed;
      }
    }
  }

  /** A fresh analyzer starts from 0, so no frame stamped before 200 ms ever
      reaches the detector. */
  lemma FreshAnalyzerWaits(frames: seq<Frame>)
    ensures forall t :: t in DetectorTimes(0, frames) ==> t >= MinimumAnalysisIntervalMs
  {
    DetectorCallsSpaced(0, frames);
  }

  // ---------------------------------------------------------------------
  // Screen state
  // ---------------------------------------------------------------------

  /** A captured still, by its size. */
  datatype Image = Image(width: real, height: real)

  datatype PoseScreen = PoseScreen(
    detectedPoses: seq<DetectedPose>,
    isProcessing: bool,
    isCameraActive: bool,
    isRealTimeMode: bool,
    capturedImage: Option<Image>,
    isAnalyzingCapturedImage: bool)

  function Initial(): PoseScreen {
    PoseScreen([], false, false, true, None, false)
  }

  datatype FrameStep = FrameStep(screen: PoseScreen, lastAnalyzed: int, outcome: FrameOutcome)

  /** A live frame reaching the analyzer: a submitted frame raises the
      processing flag, a frame without an image lowers it, a skipped frame
      changes nothing. */
  function OnFrame(s: PoseScreen, lastAnalyzed: int, f: Frame): (r: FrameStep)
    ensures r.outcome == Analyze(lastAnalyzed, f).outcome
    ensures r.lastAnalyzed == Analyze(lastAnalyzed, f).lastAnalyzed
    ensures r.outcome == Skipped ==> r.screen == s
    ensures r.outcome == Submitted ==> r.screen == s.(isProcessing := true)
    ensures r.outcome == NoImage ==> r.screen == s.(isProcessing := false)
  {
    var step := Analyze(lastAnalyzed, f);
    var screen := match step.outcome
      case Skipped => s
      case NoImage => s.(isProcessing := false)
      case Submitted => s.(isProcessing := true);
    FrameStep(screen, step.lastAnalyzed, step.outcome)
  }

  /** The live detector's success or failure listener. */
  function OnLiveDetection(s: PoseScreen, d: Detection, scale: Scale): (r: PoseScreen)
    ensures !r.isProcessing
    ensures r.detectedPoses == PosesAfter(d, scale)
    ensures r == s.(detectedPoses := r.detectedPoses, isProcessing := false)
  {
    s.(detectedPoses := PosesAfter(d, scale), isProcessing := false)
  }

  /** A still was saved: it is shown and its analysis starts with an empty
      pose list. */
  function OnImageCaptured(s: PoseScreen, image: Image): (r: PoseScreen)
    ensures r.capturedImage == Some(image) && r.isAnalyzingCapturedImage && r.detectedPoses == []
    ensures r.isRealTimeMode == s.isRealTimeMode && r.isCameraActive == s.isCameraActive
  {
    s.(capturedImage := Some(image), isAnalyzingCapturedImage := true, detectedPoses := [])
  }

  /** The still detector's success or failure listener. */
  function OnCapturedDetection(s: PoseScreen, d: Detection, scale: Scale): (r: PoseScreen)
    ensures !r.isAnalyzingCapturedImage
    ensures r.detectedPoses == PosesAfter(d, scale)
    ensures r.capturedImage == s.capturedImage
  {
    s.(detectedPoses := PosesAfter(d, scale), isAnalyzingCapturedImage := false)
  }

  /** Turning the camera off: the effect clears poses, processing and the
      still. */
  function TurnCameraOff(s: PoseScreen): (r: PoseScreen)
    ensures !r.isCameraActive && r.detectedPoses == [] && !r.isProcessing && r.capturedImage.None?
    ensures r.isRealTimeMode == s.isRealTimeMode
  {
    s.(isCameraActive := false, detectedPoses := [], isProcessing := false, capturedImage := None)
  }

  /** The real-time / static switch. */
  function SwitchMode(s: PoseScreen, realTime: bool): (r: PoseScreen)
    ensures r.isRealTimeMode == realTime && r.detectedPoses == [] && r.capturedImage.None?
    ensures r.isCameraActive == s.isCameraActive && r.isProcessing == s.isProcessing
  {
    s.(isRealTimeMode := realTime, detectedPoses := [], capturedImage := None)
  }

  /** The static mode's Reset button. */
  function Reset(s: PoseScreen): (r: PoseScreen)
    ensures r.detectedPoses == [] && r.capturedImage.None?
    ensures r.isRealTimeMode == s.isRealTimeMode && r.isCameraActive == s.isCameraActive
  {
    s.(capturedImage := None, detectedPoses := [])
  }

  /** Every reset is idempotent and lands in a state with nothing to show. */
  lemma ResetsClearResults(s: PoseScreen, realTime: bool)
    ensures Reset(Reset(s)) == Reset(s)
    ensures SwitchMode(SwitchMode(s, realTime), realTime) == SwitchMode(s, realTime)
    ensures TurnCameraOff(TurnCameraOff(s)) == TurnCameraOff(s)
    ensures Hint(TurnCameraOff(s)).None?
  {
  }

  /** The hint under the preview when nothing was found. */
  datatype HintText = NoPoseLive | TapToCapture | NoPoseInCapture

  function Hint(s: PoseScreen): (r: Option<HintText>)
    ensures r.Some? <==> s.isCameraActive && |s.detectedPoses| == 0 && !s.isAnalyzingCapturedImage
    ensures r == Some(TapToCapture) ==> !s.isRealTimeMode && s.capturedImage.None?
  {
    if s.isCameraActive && |s.detectedPoses| == 0 && !s.isAnalyzingCapturedImage then
      if s.isRealTimeMode then Some(NoPoseLive)
      else if s.capturedImage.None? then Some(TapToCapture)
      else Some(NoPoseInCapture)
    else None
  }

  /** While a still is being analysed no hint shows; once the detector finds
      no pose in it, the static-mode hint says so. */
  lemma CapturedEmptyShowsHint(s: PoseScreen, image: Image, scale: Scale)
    requires s.isCameraActive && !s.isRealTimeMode
    ensures Hint(OnImageCaptured(s, image)).None?
    ensures Hint(OnCapturedDetection(OnImageCaptured(s, image), DetectionFailed, scale)) == Some(NoPoseInCapture)
  {
  }

  // ---------------------------------------------------------------------
  // Skeleton
  // ---------------------------------------------------------------------

  datatype BodyColor = Red | Green | Blue | Yellow | Magenta

  /** An edge's colour, from its start landmark: torso, then legs, then arms,
      otherwise face; the first range that holds wins. */
  function EdgeColor(ids: LandmarkIds, start: int): (r: BodyColor)
    ensures r == Red <==> InRange(start, ids.leftShoulder, ids.rightHip)
    ensures r == Green <==>
      !InRange(start, ids.leftShoulder, ids.rightHip) && InRange(start, ids.leftHip, ids.rightFootIndex)
    ensures r == Blue <==>
      && !InRange(start, ids.leftShoulder, ids.rightHip)
      && !InRange(start, ids.leftHip, ids.rightFootIndex)
      && InRange(start, ids.leftShoulder, ids.rightWrist)
    ensures r != Magenta
  {
    if InRange(start, ids.leftShoulder, ids.rightHip) then Red
    else if InRange(start, ids.leftHip, ids.rightFootIndex) then Green
    else if InRange(start, ids.leftShoulder, ids.rightWrist) then Blue
    else Yellow
  }

  /** The arms range lies inside the torso range, so no edge is ever blue;
      the legs colour is left to starts past the right hip. */
  lemma EdgeNeverBlue(ids: LandmarkIds, start: int)
    requires Ordered(ids)
    ensures EdgeColor(ids, start) != Blue
    ensures EdgeColor(ids, start) == Green <==> ids.rightHip < start <= ids.rightFootIndex
  {
  }

  /** A landmark dot's colour: torso, legs, arms, face, otherwise magenta. */
  function PointColor(ids: LandmarkIds, t: int): (r: BodyColor)
    ensures r == Red <==> InRange(t, ids.leftShoulder, ids.rightHip)
    ensures r == Green <==>
      !InRange(t, ids.leftShoulder, ids.rightHip) && InRange(t, ids.leftKnee, ids.rightFootIndex)
    ensures r == Blue <==>
      && !InRange(t, ids.leftShoulder, ids.rightHip)
      && !InRange(t, ids.leftKnee, ids.rightFootIndex)
      && InRange(t, ids.leftElbow, ids.rightPinky)
    ensures r == Yellow <==>
      && !InRange(t, ids.leftShoulder, ids.rightHip)
      && !InRange(t, ids.leftKnee, ids.rightFootIndex)
      && !InRange(t, ids.leftElbow, ids.rightPinky)
      && InRange(t, ids.nose, ids.rightMouth)
  {
    if InRange(t, ids.leftShoulder, ids.rightHip) then Red
    else if InRange(t, ids.leftKnee, ids.rightFootIndex) then Green
    else if InRange(t, ids.leftElbow, ids.rightPinky) then Blue
    else if InRange(t, ids.nose, ids.rightMouth) then Yellow
    else Magenta
  }

  /** No dot is ever blue either; magenta marks exactly the types outside the
      three coloured ranges. */
  lemma PointNeverBlue(ids: LandmarkIds, t: int)
    requires Ordered(ids)
    ensures PointColor(ids, t) != Blue
    ensures PointColor(ids, t) == Magenta <==>
      && !InRange(t, ids.nose, ids.rightMouth)
      && !InRange(t, ids.leftShoulder, ids.rightHip)
      && !InRange(t, ids.leftKnee, ids.rightFootIndex)
  {
  }

  /** The 18 skeleton edges, as (start, end) landmark types: face, upper
      body, torso, lower body. */
  function Connections(ids: LandmarkIds): seq<(int, int)> {
    [ (ids.leftEye, ids.leftEyeInner), (ids.leftEye, ids.leftEyeOuter),
      (ids.rightEye, ids.rightEyeInner), (ids.rightEye, ids.rightEyeOuter),
      (ids.leftEye, ids.nose), (ids.rightEye, ids.nose),
      (ids.leftShoulder, ids.rightShoulder), (ids.leftShoulder, ids.leftElbow),
      (ids.rightShoulder, ids.rightElbow), (ids.leftElbow, ids.leftWrist),
      (ids.rightElbow, ids.rightWrist),
      (ids.leftShoulder, ids.leftHip), (ids.rightShoulder, ids.rightHip),
      (ids.leftHip, ids.rightHip),
      (ids.leftHip, ids.leftKnee), (ids.rightHip, ids.rightKnee),
      (ids.leftKnee, ids.leftAnkle), (ids.rightKnee, ids.rightAnkle) ]
  }

  /** As drawn, the six face edges are yellow, the upper-body and torso edges
      and the two hip-to-knee edges are red, and only the two knee-to-ankle
      edges are green. */
  lemma ConnectionColors(ids: LandmarkIds)
    requires Ordered(ids)
    ensures |Connections(ids)| == 18
    ensures forall k :: 0 <= k < 18 ==>
      EdgeColor(ids, Connections(ids)[k].0) ==
        (if k < 6 then Yellow else if k < 16 then Red else Green)
  {
  }

  /** Kotlin's `find { it.type == t }`: the first landmark of that type. */
  function Find(lms: seq<PoseLandmarkData>, t: int): (r: Option<PoseLandmarkData>)
    ensures r.None? <==> forall k :: 0 <= k < |lms| ==> lms[k].landmarkType != t
    ensures r.Some? ==> r.value.landmarkType == t
    ensures r.Some? ==>
      exists k :: 0 <= k < |lms| && lms[k] == r.value && (forall j :: 0 <= j < k ==> lms[j].landmarkType != t)
    decreases |lms|
  {
    if |lms| == 0 then None
    else if lms[0].landmarkType == t then Some(lms[0])
    else
      var r := Find(lms[1..], t);
      if r.Some? then
        ghost var k :| 0 <= k < |lms[1..]| && lms[1..][k] == r.value && r.value.landmarkType == t
          && forall j :: 0 <= j < k ==> lms[1..][j].landmarkType != t;
        assert lms[k + 1] == r.value;
        r
      else r
  }

  /** Both ends of an edge are among the landmarks. */
  predicate Drawable(lms: seq<PoseLandmarkData>, c: (int, int)) {
    Find(lms, c.0).Some? && Find(lms, c.1).Some?
  }

  /** One drawn edge. */
  datatype Line = Line(from: Offset, to: Offset, color: BodyColor)

  /** The edges drawn for `conns`, in order: an edge appears only when both
      its end types are found. */
  function Lines(ids: LandmarkIds, conns: seq<(int, int)>, lms: seq<PoseLandmarkData>): (r: seq<Line>)
    ensures |r| <= |conns|
    ensures |lms| == 0 ==> r == []
    ensures forall k :: 0 <= k < |r| ==> r[k].color != Magenta
    ensures (forall c :: c in conns ==> EdgeColor(ids, c.0) != Blue) ==>
      forall k :: 0 <= k < |r| ==> r[k].color != Blue
    decreases |conns|
  {
    if |conns| == 0 then []
    else
      var c := conns[0];
      var s := Find(lms, c.0);
      var e := Find(lms, c.1);
      var tail := Lines(ids, conns[1..], lms);
      assert forall x :: x in conns[1..] ==> x in conns;
      if s.Some? && e.Some? then [Line(s.value.position, e.value.position, EdgeColor(ids, c.0))] + tail
      else tail
  }

  /** Every edge is drawn exactly when both ends of every edge are found. */
  lemma {:induction false} AllEdgesDrawnIff(ids: LandmarkIds, conns: seq<(int, int)>, lms: seq<PoseLandmarkData>)
    ensures |Lines(ids, conns, lms)| == |conns| <==>
      forall k :: 0 <= k < |conns| ==> Drawable(lms, conns[k])
    decreases |conns|
  {
    if |conns| > 0 {
      var tail := conns[1..];
      AllEdgesDrawnIff(ids, tail, lms);
      assert (forall k :: 0 <= k < |conns| ==> Drawable(lms, conns[k])) <==>
        Drawable(lms, conns[0]) && forall k :: 0 <= k < |tail| ==> Drawable(lms, tail[k]) by {
        assert forall k :: 0 <= k < |tail| ==> tail[k] == conns[k + 1];
      }
      if Drawable(lms, conns[0]) {
        assert |Lines(ids, conns, lms)| == |Lines(ids, tail, lms)| + 1;
      } else {
        assert |Lines(ids, conns, lms)| == |Lines(ids, tail, lms)| <= |tail|;
      }
    }
  }

  /** The line drawn for an edge whose ends are both found: from the first
      landmark of its start type to the first landmark of its end type, in
      the colour of its start. */
  function EdgeLine(ids: LandmarkIds, lms: seq<PoseLandmarkData>, c: (int, int)): Line
    requires Drawable(lms, c)
  {
    Line(Find(lms, c.0).value.position, Find(lms, c.1).value.position, EdgeColor(ids, c.0))
  }

  /** A single edge is drawn, as its own line, exactly when both ends are
      found. */
  lemma LinesOne(ids: LandmarkIds, c: (int, int), lms: seq<PoseLandmarkData>)
    ensures Lines(ids, [c], lms) == if Drawable(lms, c) then [EdgeLine(ids, lms, c)] else []
  {
    assert [c][1..] == [];
  }

  /** Edges are drawn one by one, in order: the lines of two runs of edges
      are the lines of the first run followed by those of the second. */
  lemma {:induction false} LinesAppend(ids: LandmarkIds, a: seq<(int, int)>, b: seq<(int, int)>, lms: seq<PoseLandmarkData>)
    ensures Lines(ids, a + b, lms) == Lines(ids, a, lms) + Lines(ids, b, lms)
    decreases |a|
  {
    if |a| == 0 {
      assert a + b == b;
    } else {
      assert (a + b)[0] == a[0];
      assert (a + b)[1..] == a[1..] + b;
      LinesAppend(ids, a[1..], b, lms);
    }
  }

  /** A line is drawn exactly when it is the line of some edge whose ends are
      both found. */
  lemma {:induction false} LinesMembers(ids: LandmarkIds, conns: seq<(int, int)>, lms: seq<PoseLandmarkData>, l: Line)
    ensures l in Lines(ids, conns, lms) <==>
      exists k :: 0 <= k < |conns| && Drawable(lms, conns[k]) && l == EdgeLine(ids, lms, conns[k])
    decreases |conns|
  {
    if |conns| > 0 {
      var tail := conns[1..];
      LinesMembers(ids, tail, lms, l);
      if l in Lines(ids, tail, lms) {
        var k :| 0 <= k < |tail| && Drawable(lms, tail[k]) && l == EdgeLine(ids, lms, tail[k]);
        assert conns[k + 1] == tail[k];
      }
      if exists k :: 0 <= k < |conns| && Drawable(lms, conns[k]) && l == EdgeLine(ids, lms, conns[k]) {
        var k :| 0 <= k < |conns| && Drawable(lms, conns[k]) && l == EdgeLine(ids, lms, conns[k]);
        if k > 0 {
          assert tail[k - 1] == conns[k];
        }
      }
    }
  }

  /** The skeleton of one pose. */
  function Skeleton(ids: LandmarkIds, pose: DetectedPose): (r: seq<Line>)
    requires Ordered(ids)
    ensures |r| <= 18
    ensures forall k :: 0 <= k < |r| ==> r[k].color != Blue && r[k].color != Magenta
    ensures |pose.landmarks| == 0 ==> r == []
  {
    forall start | true ensures EdgeColor(ids, start) != Blue {
      EdgeNeverBlue(ids, start);
    }
    Lines(ids, Connections(ids), pose.landmarks)
  }

  // ---------------------------------------------------------------------
  // Region counts
  // ---------------------------------------------------------------------

  /** Kotlin's `count { it.type in lo..hi }`. */
  function CountInRange(lms: seq<PoseLandmarkData>, lo: int, hi: int): (r: nat)
    ensures r <= |lms|
    ensures r == 0 <==> forall k :: 0 <= k < |lms| ==> !InRange(lms[k].landmarkType, lo, hi)
    ensures r == |lms| <==> forall k :: 0 <= k < |lms| ==> InRange(lms[k].landmarkType, lo, hi)
    decreases |lms|
  {
    if |lms| == 0 then 0
    else (if InRange(lms[0].landmarkType, lo, hi) then 1 else 0) + CountInRange(lms[1..], lo, hi)
  }

  /** Counts over three pairwise disjoint ranges never add up to more than
      the landmarks there are. */
  lemma {:induction false} DisjointCountsBounded(lms: seq<PoseLandmarkData>, a: int, b: int, c: int, d: int, e: int, f: int)
    requires b < c <= d < e
    ensures CountInRange(lms, a, b) + CountInRange(lms, c, d) + CountInRange(lms, e, f) <= |lms|
    decreases |lms|
  {
    if |lms| > 0 {
      DisjointCountsBounded(lms[1..], a, b, c, d, e, f);
    }
  }

  datatype RegionCounts = RegionCounts(total: nat, face: nat, upperBody: nat, lowerBody: nat)

  /** The info card's counts: face is nose to right mouth, upper body is left
      shoulder to right wrist, lower body is left hip to right foot index. */
  function Regions(ids: LandmarkIds, pose: DetectedPose): (r: RegionCounts)
    requires Ordered(ids)
    ensures r.total == |pose.landmarks|
    ensures r.face + r.upperBody + r.lowerBody <= r.total
    ensures r.face == 0 <==>
      forall k :: 0 <= k < |pose.landmarks| ==> !InRange(pose.landmarks[k].landmarkType, ids.nose, ids.rightMouth)
  {
    var lms := pose.landmarks;
    DisjointCountsBounded(lms, ids.nose, ids.rightMouth, ids.leftShoulder, ids.rightWrist,
      ids.leftHip, ids.rightFootIndex);
    RegionCounts(|lms|,
      CountInRange(lms, ids.nose, ids.rightMouth),
      CountInRange(lms, ids.leftShoulder, ids.rightWrist),
      CountInRange(lms, ids.leftHip, ids.rightFootIndex))
  }

  /** A landmark in none of three disjoint ranges makes their counts add up
      to strictly fewer than the landmarks there are. */
  lemma {:induction false} OutsideCountsFewer(lms: seq<PoseLandmarkData>, a: int, b: int, c: int, d: int, e: int, f: int, k: int)
    requires b < c <= d < e
    requires 0 <= k < |lms|
    requires !InRange(lms[k].landmarkType, a, b) && !InRange(lms[k].landmarkType, c, d)
      && !InRange(lms[k].landmarkType, e, f)
    ensures CountInRange(lms, a, b) + CountInRange(lms, c, d) + CountInRange(lms, e, f) < |lms|
    decreases |lms|
  {
    if k == 0 {
      DisjointCountsBounded(lms[1..], a, b, c, d, e, f);
    } else {
      OutsideCountsFewer(lms[1..], a, b, c, d, e, f, k - 1);
    }
  }

  /** A right pinky sits in none of the three regions, so a pose that has
      one counts fewer region points than landmarks. */
  lemma PinkyInNoRegion(ids: LandmarkIds, pose: DetectedPose, k: int)
    requires Ordered(ids)
    requires 0 <= k < |pose.landmarks| && pose.landmarks[k].landmarkType == ids.rightPinky
    ensures var r := Regions(ids, pose);
            r.face + r.upperBody + r.lowerBody < r.total
  {
    OutsideCountsFewer(pose.landmarks, ids.nose, ids.rightMouth, ids.leftShoulder, ids.rightWrist,
      ids.leftHip, ids.rightFootIndex, k);
  }
}

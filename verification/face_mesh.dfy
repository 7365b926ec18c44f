/** The face-mesh screen: numbering the detector's meshes, the capture
    callback and its error path, the triangles and key points the overlay
    draws, the fit-and-centre transform from image to canvas, and the
    no-mesh hint. Detector output, the loaded bitmap and the clock are
    inputs. */
module FaceMesh {
  import opened Wrappers
  import CaptureUri

  const KeyPointStride: nat := 10

  datatype Point = Point(x: real, y: real)

  datatype MeshPoint = MeshPoint(index: int, position: Point)

  /** A mesh triangle as the detector reports it: its list of points. */
  datatype Triangle = Triangle(points: seq<MeshPoint>)

  datatype Rect = Rect(left: int, top: int, right: int, bottom: int)

  /** One face mesh as the detector reports it. */
  datatype DetectorMesh = DetectorMesh(boundingBox: Rect, allPoints: seq<MeshPoint>, allTriangles: seq<Triangle>)

  datatype MeshFace = MeshFace(id: int, boundingBox: Rect, meshPoints: seq<MeshPoint>, triangles: seq<Triangle>)

  // ---------------------------------------------------------------------
  // Mapping detector output
  // ---------------------------------------------------------------------

  /** `mapIndexed { index, m -> MeshFace(index + 1, ...) }`. */
  function MapMeshes(meshes: seq<DetectorMesh>): (r: seq<MeshFace>)
    ensures |r| == |meshes|
    ensures forall i :: 0 <= i < |r| ==>
      && r[i].id == i + 1
      && r[i].boundingBox == meshes[i].boundingBox
      && r[i].meshPoints == meshes[i].allPoints
      && r[i].triangles == meshes[i].allTriangles
  {
    seq(|meshes|, i requires 0 <= i < |meshes| =>
      MeshFace(i + 1, meshes[i].boundingBox, meshes[i].allPoints, meshes[i].allTriangles))
  }

  /** The face carrying a given id, if any: the first one with it. */
  function FaceById(faces: seq<MeshFace>, id: int): (r: Option<MeshFace>)
    ensures r.Some? ==> r.value in faces && r.value.id == id
    ensures r.None? <==> forall i :: 0 <= i < |faces| ==> faces[i].id != id
    decreases |faces|
  {
    if |faces| == 0 then None
    else if faces[0].id == id then Some(faces[0])
    else
      var r := FaceById(faces[1..], id);
      assert forall i :: 1 <= i < |faces| ==> faces[1..][i - 1] == faces[i];
      r
  }

  /** The ids are exactly 1 to n: each of them finds the mesh at that
      position, and nothing else finds anything. */
  lemma {:induction false} IdsNumberMeshes(meshes: seq<DetectorMesh>, id: int)
    ensures var faces := MapMeshes(meshes);
            1 <= id <= |meshes| ==> FaceById(faces, id) == Some(faces[id - 1])
    ensures FaceById(MapMeshes(meshes), id).Some? <==> 1 <= id <= |meshes|
  {
    var faces := MapMeshes(meshes);
    if 1 <= id <= |meshes| {
      OffsetLookup(faces, 1, id);
    }
  }

  /** Lookup in a list whose ids count up from `base`. */
  lemma {:induction false} OffsetLookup(faces: seq<MeshFace>, base: int, id: int)
    requires forall i :: 0 <= i < |faces| ==> faces[i].id == i + base
    requires base <= id < base + |faces|
    ensures FaceById(faces, id) == Some(faces[id - base])
    decreases id - base
  {
    if id > base {
      var t := faces[1..];
      forall i | 0 <= i < |t| ensures t[i].id == i + base + 1 {
        assert t[i] == faces[i + 1];
      }
      OffsetLookup(t, base + 1, id);
    }
  }

  /** What the mesh detector's task ends with. */
  datatype MeshDetection = MeshesFound(meshes: seq<DetectorMesh>) | MeshFailed

  /** `detectFaceMesh`'s result: the numbered meshes, or nothing on failure. */
  function DetectedFaces(d: MeshDetection): (r: seq<MeshFace>)
    ensures d.MeshFailed? ==> r == []
    ensures d.MeshesFound? ==> |r| == |d.meshes| && forall i :: 0 <= i < |r| ==> r[i].id == i + 1
  {
    match d
    case MeshesFound(meshes) => MapMeshes(meshes)
    case MeshFailed => []
  }

  // ---------------------------------------------------------------------
  // Screen state
  // ---------------------------------------------------------------------

  /** A loaded bitmap, by its size. */
  datatype Image = Image(width: real, height: real)

  datatype MeshScreen = MeshScreen(
    capturedImageUri: Option<string>,
    capturedBitmap: Option<Image>,
    detectedMeshFaces: seq<MeshFace>,
    isProcessing: bool,
    showMesh: bool)

  function Initial(): MeshScreen {
    MeshScreen(None, None, [], false, true)
  }

  /** Reading the saved picture: the bitmap, or an `IOException`. */
  datatype LoadOutcome = Loaded(bitmap: Image) | LoadFailed

  /** The camera launcher's callback: without a picture nothing happens; with
      one the URI is replaced and processing starts; a failed load ends it at
      once with no faces (the earlier bitmap stays). */
  function OnPictureTaken(s: MeshScreen, success: bool, tempUri: Option<string>, now: nat,
                          load: LoadOutcome): (r: MeshScreen)
    ensures !(success && tempUri.Some?) ==> r == s
    ensures success && tempUri.Some? ==>
      && r.capturedImageUri == Some(CaptureUri.UniqueUri(tempUri.value, now))
      && (load.Loaded? ==> r.isProcessing && r.capturedBitmap == Some(load.bitmap)
                           && r.detectedMeshFaces == s.detectedMeshFaces)
      && (load.LoadFailed? ==> !r.isProcessing && r.detectedMeshFaces == []
                               && r.capturedBitmap == s.capturedBitmap)
  {
    if success && tempUri.Some? then
      var s' := s.(capturedImageUri := Some(CaptureUri.UniqueUri(tempUri.value, now)), isProcessing := true);
      match load
      case Loaded(bitmap) => s'.(capturedBitmap := Some(bitmap))
      case LoadFailed => s'.(isProcessing := false, detectedMeshFaces := [])
    else
      s
  }

  /** `detectFaceMesh`'s callback. */
  function OnMeshDetected(s: MeshScreen, d: MeshDetection): (r: MeshScreen)
    ensures !r.isProcessing && r.detectedMeshFaces == DetectedFaces(d)
    ensures r.capturedImageUri == s.capturedImageUri && r.capturedBitmap == s.capturedBitmap
  {
    s.(detectedMeshFaces := DetectedFaces(d), isProcessing := false)
  }

  /** The "no face mesh detected" help card. */
  predicate ShowsNoMeshHint(s: MeshScreen) {
    s.capturedImageUri.Some? && |s.detectedMeshFaces| == 0 && !s.isProcessing
  }

  /** The mesh overlay on the picture. */
  predicate ShowsMeshOverlay(s: MeshScreen) {
    s.showMesh && |s.detectedMeshFaces| > 0 && s.capturedBitmap.Some?
  }

  /** The hint shows after every capture that ends with no face: a failed
      load, a failed detection, or a detection that found none; it never
      shows alongside the overlay. */
  lemma HintAfterEmptyCapture(s: MeshScreen, tempUri: string, now: nat, bitmap: Image, d: MeshDetection)
    requires d.MeshFailed? || |d.meshes| == 0
    ensures ShowsNoMeshHint(OnPictureTaken(s, true, Some(tempUri), now, LoadFailed))
    ensures !ShowsNoMeshHint(OnPictureTaken(s, true, Some(tempUri), now, Loaded(bitmap)))
    ensures ShowsNoMeshHint(OnMeshDetected(OnPictureTaken(s, true, Some(tempUri), now, Loaded(bitmap)), d))
    ensures !(ShowsNoMeshHint(s) && ShowsMeshOverlay(s))
  {
  }

  // ---------------------------------------------------------------------
  // What the overlay draws
  // ---------------------------------------------------------------------

  /** The triangles the overlay outlines, in order: those with exactly three
      points. */
  function DrawnTriangles(ts: seq<Triangle>): (r: seq<Triangle>)
    ensures |r| <= |ts|
    ensures forall t :: t in r <==> t in ts && |t.points| == 3
    decreases |ts|
  {
    if |ts| == 0 then []
    else
      var rest := DrawnTriangles(ts[1..]);
      assert forall t :: t in ts <==> t == ts[0] || t in ts[1..];
      if |ts[0].points| == 3 then [ts[0]] + rest else rest
  }

  /** Kotlin's `filterIndexed { index, _ -> index % 10 == 0 }`, over the
      indices from `i` on. */
  function EveryTenthFrom(ps: seq<MeshPoint>, i: nat): (r: seq<MeshPoint>)
    requires i <= |ps|
    ensures |r| == (|ps| + 9) / 10 - (i + 9) / 10
    ensures forall k :: 0 <= k < |r| ==>
      10 * ((i + 9) / 10 + k) < |ps| && r[k] == ps[10 * ((i + 9) / 10 + k)]
    decreases |ps| - i
  {
    if i == |ps| then []
    else
      var rest := EveryTenthFrom(ps, i + 1);
      if i % KeyPointStride == 0 then
        assert (i + 9) / 10 * 10 == i && (i + 10) / 10 == (i + 9) / 10 + 1;
        [ps[i]] + rest
      else
        assert (i + 10) / 10 == (i + 9) / 10;
        rest
  }

  /** The key points a face shows: the points at indices 0, 10, 20, ... */
  function KeyPoints(ps: seq<MeshPoint>): (r: seq<MeshPoint>)
    ensures |r| == (|ps| + 9) / 10
    ensures forall k :: 0 <= k < |r| ==> 10 * k < |ps| && r[k] == ps[10 * k]
  {
    EveryTenthFrom(ps, 0)
  }

  /** Every point at a multiple of ten is a key point, and a key point's
      position in the subsample is its index over ten. */
  lemma KeyPointsComplete(ps: seq<MeshPoint>, j: int)
    requires 0 <= j < |ps| && j % KeyPointStride == 0
    ensures j / 10 < |KeyPoints(ps)| && KeyPoints(ps)[j / 10] == ps[j]
  {
  }

  // ---------------------------------------------------------------------
  // Fit and centre
  // ---------------------------------------------------------------------

  /** Uniform scale and centring offsets from image to canvas. */
  datatype Transform = Transform(scale: real, offsetX: real, offsetY: real)

  function MinReal(a: real, b: real): real {
    if a <= b then a else b
  }

  /** The drawing's transform: the larger uniform scale at which the whole
      image fits, with the leftover space split evenly on both sides. */
  function FitTransform(canvasWidth: real, canvasHeight: real, imageWidth: real, imageHeight: real): (r: Transform)
    requires imageWidth > 0.0 && imageHeight > 0.0
    requires canvasWidth >= 0.0 && canvasHeight >= 0.0
    ensures r.scale >= 0.0
    ensures imageWidth * r.scale <= canvasWidth && imageHeight * r.scale <= canvasHeight
    ensures imageWidth * r.scale == canvasWidth || imageHeight * r.scale == canvasHeight
    ensures r.offsetX >= 0.0 && r.offsetY >= 0.0
    ensures r.offsetX == 0.0 || r.offsetY == 0.0
    ensures 2.0 * r.offsetX + imageWidth * r.scale == canvasWidth
    ensures 2.0 * r.offsetY + imageHeight * r.scale == canvasHeight
  {
    var sx := canvasWidth / imageWidth;
    var sy := canvasHeight / imageHeight;
    var scale := MinReal(sx, sy);
    assert imageWidth * sx == canvasWidth && imageHeight * sy == canvasHeight;
    MulLeq(imageWidth, scale, sx);
    MulLeq(imageHeight, scale, sy);
    Transform(scale, (canvasWidth - imageWidth * scale) / 2.0, (canvasHeight - imageHeight * scale) / 2.0)
  }

  /** Multiplying by a positive factor keeps order. */
  lemma MulLeq(a: real, b: real, c: real)
    requires a > 0.0 && b <= c
    ensures a * b <= a * c
  {
    assert a * c - a * b == a * (c - b);
  }

  /** Where an image point lands on the canvas. */
  function Apply(t: Transform, p: Point): Point {
    Point(t.offsetX + p.x * t.scale, t.offsetY + p.y * t.scale)
  }

  /** Every point of the image lands on the canvas. */
  lemma TransformStaysOnCanvas(canvasWidth: real, canvasHeight: real, imageWidth: real, imageHeight: real, p: Point)
    requires imageWidth > 0.0 && imageHeight > 0.0
    requires canvasWidth >= 0.0 && canvasHeight >= 0.0
    requires 0.0 <= p.x <= imageWidth && 0.0 <= p.y <= imageHeight
    ensures var q := Apply(FitTransform(canvasWidth, canvasHeight, imageWidth, imageHeight), p);
            0.0 <= q.x <= canvasWidth && 0.0 <= q.y <= canvasHeight
  {
    var t := FitTransform(canvasWidth, canvasHeight, imageWidth, imageHeight);
    ScaleBetween(p.x, imageWidth, t.scale);
    ScaleBetween(p.y, imageHeight, t.scale);
  }

  /** Scaling a value in [0, m] by a non-negative factor lands in [0, m * s]. */
  lemma ScaleBetween(v: real, m: real, s: real)
    requires 0.0 <= v <= m && s >= 0.0
    ensures 0.0 <= v * s <= m * s
  {
    assert m * s - v * s == (m - v) * s;
  }
}

/** The navigation router: the closed set of screen objects, the string route
    each one is reached by, the second route table keyed by screen class that
    registers destinations, and navigation by screen object. */
module Navigation {
  import opened Wrappers

  /** The objects of the sealed `Screen` class. */
  datatype Screen =
    | SplashScreen
    | HomeScreen
    | TextRecognitionScreen
    | FaceRecognitionScreen
    | FaceMeshDetectionScreen
    | PoseDetectionScreen
    | SelfieSegmentationScreen
    | DocumentScannerScreen
    | ImageProcessingScreen
    | DigitalInkRecognitionScreen
    | ARModelScreen

  /** The screens `route()` has a branch for; the splash and AR model screens
      have none. */
  predicate HasRoute(s: Screen) {
    !s.SplashScreen? && !s.ARModelScreen?
  }

  /** `Screen.route()`: the route string of a screen. */
  function Route(s: Screen): (r: string)
    requires HasRoute(s)
    ensures |r| > 0
  {
    match s
    case HomeScreen => "home"
    case TextRecognitionScreen => "text_recognition"
    case FaceRecognitionScreen => "face_recognition"
    case FaceMeshDetectionScreen => "face_mesh_detection"
    case PoseDetectionScreen => "pose_detection"
    case SelfieSegmentationScreen => " selfie_segmentation"
    case DocumentScannerScreen => "document_scanner"
    case ImageProcessingScreen => "image_processing"
    case DigitalInkRecognitionScreen => "ink_recognitions"
  }

  /** The error `composable<T>` throws for a class it has no route for. */
  datatype RouteError = UnknownScreenClass(screen: Screen)

  /** The route table of `composable<T>`, keyed by the class of `T`. */
  function ClassRoute(s: Screen): (r: Result<string, RouteError>)
    ensures r.Failure? <==> !HasRoute(s)
    ensures r.Failure? ==> r.error == UnknownScreenClass(s)
  {
    match s
    case HomeScreen => Success("home")
    case TextRecognitionScreen => Success("text_recognition")
    case FaceRecognitionScreen => Success("face_recognition")
    case FaceMeshDetectionScreen => Success("face_mesh_detection")
    case PoseDetectionScreen => Success("pose_detection")
    case SelfieSegmentationScreen => Success(" selfie_segmentation")
    case DocumentScannerScreen => Success("document_scanner")
    case ImageProcessingScreen => Success("image_processing")
    case DigitalInkRecognitionScreen => Success("ink_recognitions")
    case _ => Failure(UnknownScreenClass(s))
  }

  /** Both tables agree on every screen that has a route. */
  lemma TablesAgree(s: Screen)
    requires HasRoute(s)
    ensures ClassRoute(s) == Success(Route(s))
  {
  }

  /** Reading a route string back to the screen it belongs to. */
  function ScreenOf(route: string): (r: Option<Screen>)
    ensures r.Some? ==> HasRoute(r.value) && Route(r.value) == route
  {
    if route == "home" then Some(HomeScreen)
    else if route == "text_recognition" then Some(TextRecognitionScreen)
    else if route == "face_recognition" then Some(FaceRecognitionScreen)
    else if route == "face_mesh_detection" then Some(FaceMeshDetectionScreen)
    else if route == "pose_detection" then Some(PoseDetectionScreen)
    else if route == " selfie_segmentation" then Some(SelfieSegmentationScreen)
    else if route == "document_scanner" then Some(DocumentScannerScreen)
    else if route == "image_processing" then Some(ImageProcessingScreen)
    else if route == "ink_recognitions" then Some(DigitalInkRecognitionScreen)
    else None
  }

  /** Every route leads back to its own screen. */
  lemma ScreenOfRoute(s: Screen)
    requires HasRoute(s)
    ensures ScreenOf(Route(s)) == Some(s)
  {
    match s
    case HomeScreen =>
    case TextRecognitionScreen =>
      assert Route(s) != "home" by { assert Route(s)[0] != "home"[0]; }
    case FaceRecognitionScreen =>
      assert Route(s)[0] != "home"[0];
      assert Route(s)[0] != "text_recognition"[0];
    case FaceMeshDetectionScreen =>
      assert Route(s)[0] != "home"[0];
      assert Route(s)[0] != "text_recognition"[0];
      assert Route(s)[5] != "face_recognition"[5];
    case PoseDetectionScreen =>
      assert Route(s)[0] != "home"[0];
      assert Route(s)[0] != "text_recognition"[0];
      assert Route(s)[0] != "face_recognition"[0];
      assert Route(s)[0] != "face_mesh_detection"[0];
    case SelfieSegmentationScreen =>
      assert Route(s)[0] != "home"[0];
      assert Route(s)[0] != "text_recognition"[0];
      assert Route(s)[0] != "face_recognition"[0];
      assert Route(s)[0] != "face_mesh_detection"[0];
      assert Route(s)[0] != "pose_detection"[0];
    case DocumentScannerScreen =>
      assert Route(s)[0] != "home"[0];
      assert Route(s)[0] != "text_recognition"[0];
      assert Route(s)[0] != "face_recognition"[0];
      assert Route(s)[0] != "face_mesh_detection"[0];
      assert Route(s)[0] != "pose_detection"[0];
      assert Route(s)[0] != " selfie_segmentation"[0];
    case ImageProcessingScreen =>
      assert Route(s)[0] != "home"[0];
      assert Route(s)[0] != "text_recognition"[0];
      assert Route(s)[0] != "face_recognition"[0];
      assert Route(s)[0] != "face_mesh_detection"[0];
      assert Route(s)[0] != "pose_detection"[0];
      assert Route(s)[0] != " selfie_segmentation"[0];
      assert Route(s)[0] != "document_scanner"[0];
    case DigitalInkRecognitionScreen =>
      assert Route(s)[0] != "home"[0];
      assert Route(s)[0] != "text_recognition"[0];
      assert Route(s)[0] != "face_recognition"[0];
      assert Route(s)[0] != "face_mesh_detection"[0];
      assert Route(s)[0] != "pose_detection"[0];
      assert Route(s)[0] != " selfie_segmentation"[0];
      assert Route(s)[0] != "document_scanner"[0];
      assert Route(s)[1] != "image_processing"[1];
  }

  /** No two screens share a route. */
  lemma RoutesDistinct(s: Screen, t: Screen)
    requires HasRoute(s) && HasRoute(t)
    requires s != t
    ensures Route(s) != Route(t)
  {
    ScreenOfRoute(s);
    ScreenOfRoute(t);
  }

  /** The selfie route keeps the leading space in both tables. */
  lemma SelfieRouteHasLeadingSpace()
    ensures Route(SelfieSegmentationScreen) == " selfie_segmentation"
    ensures Route(SelfieSegmentationScreen)[0] == ' '
    ensures ClassRoute(SelfieSegmentationScreen) == Success(" selfie_segmentation")
  {
  }

  /** The navigation back stack, as a list of route strings. */
  datatype NavController = NavController(backStack: seq<string>)

  /** `NavController.navigate(screen)`: navigates to the screen's route. */
  function Navigate(nav: NavController, s: Screen): (r: NavController)
    requires HasRoute(s)
    ensures |r.backStack| == |nav.backStack| + 1
    ensures r.backStack[..|nav.backStack|] == nav.backStack
    ensures ScreenOf(r.backStack[|nav.backStack|]) == Some(s)
  {
    ScreenOfRoute(s);
    NavController(nav.backStack + [Route(s)])
  }
}

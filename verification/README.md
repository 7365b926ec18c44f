# MultiTasking screens, modelled in Dafny

MultiTasking is an Android app that demonstrates several ML Kit features, one
Compose screen each. Together with a small string-based navigation router,
these screens make up the core. This project models the deterministic rules
inside those screens:

- what each callback does to the screen's state;
- which card or hint a screen shows;
- how detector output is turned into the app's own records;
- the pixel, colour, ordering and caption rules the screens apply.

The ML Kit detectors, the camera, the file system and the clock are not
modelled. Whatever they return becomes an input or a parameter, for example a
`Detection`, a `Load` outcome or a `now: nat`.

One Dafny module per source file:

| module | screen / file |
|---|---|
| `Navigation` | `Navigation/Screen.kt`, `Navigation/NavigationExtensions.kt` |
| `DigitalInk` | `Screens/DigitalInkRecognitionScreen.kt` |
| `SelfieSegmentation` | `Screens/SelfieSegmentationScreen.kt` |
| `ImageProcessing` | `Screens/ImageProcessingScreen.kt` |
| `DocumentScanner` | `Screens/DocumentScannerScreen.kt` |
| `PoseDetection` | `Screens/PoseDetectionScreen.kt` |
| `FaceMesh` | `Screens/FaceMeshDetectionScreen.kt` |
| `TextRecognition` | `Screens/TextRecognitionScreen.kt` |

The shared modules are:

- `Wrappers`: `Option` and `Result`.
- `Decimal`: rendering and parsing of non-negative numbers, as Kotlin's string templates do them.
- `Sorting`: `sortedByDescending` over a real-valued key, and taking a prefix.
- `CaptureUri`: the `?timestamp=` suffix that the camera callbacks add to a URI.

Kotlin null becomes `Option`. A thrown exception becomes a `Failure`, or an
outcome constructor such as `LoadFailed`. Kotlin `Float` becomes `real`, and
`Int`/`Long` become `int`.

## Model

All source paths are below `MultiTasking/app/src/main/java/com/facebook/multitasking/`; the table writes them in full.

| member | source | states |
|---|---|---|
| Navigation.Route | MultiTasking/app/src/main/java/com/facebook/multitasking/Navigation/NavigationExtensions.kt:9-21 | every screen with a route branch has a non-empty route string |
| Navigation.ClassRoute | MultiTasking/app/src/main/java/com/facebook/multitasking/Navigation/NavigationExtensions.kt:29-44 | the class-keyed table fails, with the unknown-class error naming the screen, exactly for the screens `route()` has no branch for |
| Navigation.TablesAgree | MultiTasking/app/src/main/java/com/facebook/multitasking/Navigation/NavigationExtensions.kt:29-44 | the route a destination is registered under is the route `route()` navigates to, so every navigation finds its destination |
| Navigation.ScreenOf | MultiTasking/app/src/main/java/com/facebook/multitasking/Navigation/NavigationExtensions.kt:9-21 | reading a route string back gives a screen whose route is that string |
| Navigation.ScreenOfRoute | MultiTasking/app/src/main/java/com/facebook/multitasking/Navigation/NavigationExtensions.kt:9-21 | route strings round-trip: the screen of a screen's route is that screen |
| Navigation.RoutesDistinct | MultiTasking/app/src/main/java/com/facebook/multitasking/Navigation/NavigationExtensions.kt:9-21 | two different screens never share a route |
| Navigation.SelfieRouteHasLeadingSpace | MultiTasking/app/src/main/java/com/facebook/multitasking/Navigation/NavigationExtensions.kt:16 | the selfie screen's route really begins with a space, and both tables use the same spaced string |
| Navigation.Navigate | MultiTasking/app/src/main/java/com/facebook/multitasking/Navigation/NavigationExtensions.kt:24-27 | navigating pushes exactly one entry, leaves the old stack intact, and the new top resolves back to the requested screen |
| DigitalInk.Initial | MultiTasking/app/src/main/java/com/facebook/multitasking/Screens/DigitalInkRecognitionScreen.kt:71-86 | the screen starts with no strokes, results or pre-context, and is neither drawing, recognising nor downloaded |
| DigitalInk.OnPointerEvent | MultiTasking/app/src/main/java/com/facebook/multitasking/Screens/DigitalInkRecognitionScreen.kt:418-450 | a down event starts a stroke at the point, a move extends it while drawing, and an up or cancel event ends it, keeping it only when it has points; an event is consumed iff it is one of these and a stroke is in progress (down always), and results, pre-context, the current result, the selected language and its downloaded flag never change |
| DigitalInk.ReplayKeepsStrokes | MultiTasking/app/src/main/java/com/facebook/multitasking/Screens/DigitalInkRecognitionScreen.kt:435-446 | over any sequence of pointer events, finished strokes are only ever appended, and every stored stroke is non-empty |
| DigitalInk.Clear | MultiTasking/app/src/main/java/com/facebook/multitasking/Screens/DigitalInkRecognitionScreen.kt:514-517 | clearing removes all strokes and leaves the results, pre-context and flags alone |
| DigitalInk.ClearThenLiftAddsNothing | MultiTasking/app/src/main/java/com/facebook/multitasking/Screens/DigitalInkRecognitionScreen.kt:514-517 | a clear in the middle of a stroke leaves nothing to commit: the lift that follows is consumed and stores no stroke |
| DigitalInk.StrokePoints | MultiTasking/app/src/main/java/com/facebook/multitasking/Screens/DigitalInkRecognitionScreen.kt:204-212 | the ink handed to the recogniser has one stroke per drawn stroke, with the same points in the same order |
| DigitalInk.RecognizeInk | MultiTasking/app/src/main/java/com/facebook/multitasking/Screens/DigitalInkRecognitionScreen.kt:185-223 | with no strokes nothing happens; a request is issued iff there are strokes and the language has a model, and it carries the strokes and the current pre-context and raises the recognising flag |
| DigitalInk.PressRecognize | MultiTasking/app/src/main/java/com/facebook/multitasking/Screens/DigitalInkRecognitionScreen.kt:547-559 | a disabled button does nothing; an enabled press runs the recognition step itself, so a request goes out exactly when the button is enabled and a model is found for the language |
| DigitalInk.Clamp01 | MultiTasking/app/src/main/java/com/facebook/multitasking/Screens/DigitalInkRecognitionScreen.kt:241 | `coerceIn(0, 1)` lands in [0, 1] and leaves values already there unchanged |
| DigitalInk.Confidence | MultiTasking/app/src/main/java/com/facebook/multitasking/Screens/DigitalInkRecognitionScreen.kt:233-247 | the confidence is always in [0, 1], and is 0.9 whenever fewer than two candidates have usable scores |
| DigitalInk.ConfidenceExtremes | MultiTasking/app/src/main/java/com/facebook/multitasking/Screens/DigitalInkRecognitionScreen.kt:238-241 | when both scores are usable, the confidence is 1 exactly when the runner-up scores at most 0, and 0 exactly when it scores at least the top |
| DigitalInk.ConfidenceAntitone | MultiTasking/app/src/main/java/com/facebook/multitasking/Screens/DigitalInkRecognitionScreen.kt:238-241 | with the same top score, a higher runner-up never raises the confidence |
| DigitalInk.TakeLast | MultiTasking/app/src/main/java/com/facebook/multitasking/Screens/DigitalInkRecognitionScreen.kt:262 | `takeLast(n)` is the suffix of length min(n, length) |
| DigitalInk.UpdatePreContext | MultiTasking/app/src/main/java/com/facebook/multitasking/Screens/DigitalInkRecognitionScreen.kt:259-264 | the new pre-context is never longer than 20 characters and is the tail of the old pre-context followed by the recognised text |
| DigitalInk.RollingBuffer | MultiTasking/app/src/main/java/com/facebook/multitasking/Screens/DigitalInkRecognitionScreen.kt:259-264 | updating a truncated history gives the same result as truncating the whole history |
| DigitalInk.PreContextIsTail | MultiTasking/app/src/main/java/com/facebook/multitasking/Screens/DigitalInkRecognitionScreen.kt:259-264 | after any run of recognitions, the pre-context is exactly the last 20 characters of all recognised texts concatenated |
| DigitalInk.OnRecognitionDone | MultiTasking/app/src/main/java/com/facebook/multitasking/Screens/DigitalInkRecognitionScreen.kt:224-274 | the recognising flag drops and the strokes stay; a success with candidates appends one result (top text, selected language, computed confidence), makes it current and extends the pre-context; a failure or an empty candidate list changes nothing else |
| DigitalInk.PreContextBounded | MultiTasking/app/src/main/java/com/facebook/multitasking/Screens/DigitalInkRecognitionScreen.kt:259-264 | a bounded pre-context stays within 20 characters after any recognition outcome |
| DigitalInk.ConfidencesStayInRange | MultiTasking/app/src/main/java/com/facebook/multitasking/Screens/DigitalInkRecognitionScreen.kt:233-256 | if every stored confidence is in [0, 1], that stays true after any recognition outcome |
| SelfieSegmentation.Clamp | MultiTasking/app/src/main/java/com/facebook/multitasking/Screens/SelfieSegmentationScreen.kt:607-608 | `coerceIn(lo, hi)` lands in range and leaves values already in range unchanged |
| SelfieSegmentation.MaskCoord | MultiTasking/app/src/main/java/com/facebook/multitasking/Screens/SelfieSegmentationScreen.kt:600-608 | a pixel coordinate always maps to a valid mask coordinate |
| SelfieSegmentation.MaskIndexInBounds | MultiTasking/app/src/main/java/com/facebook/multitasking/Screens/SelfieSegmentationScreen.kt:600-613 | the row-major mask index read for any pixel is inside the mask buffer |
| SelfieSegmentation.Composite | MultiTasking/app/src/main/java/com/facebook/multitasking/Screens/SelfieSegmentationScreen.kt:581-626 | the output has the input's size; a pixel becomes the background colour iff its mask confidence is below the threshold, and keeps its original colour otherwise |
| SelfieSegmentation.CreateSegmentedBitmap | MultiTasking/app/src/main/java/com/facebook/multitasking/Screens/SelfieSegmentationScreen.kt:581-626 | the loop over rows and columns computes the same bitmap as the pixel rule |
| SelfieSegmentation.ThresholdMonotone | MultiTasking/app/src/main/java/com/facebook/multitasking/Screens/SelfieSegmentationScreen.kt:617-619 | raising the threshold only adds replaced pixels, never removes them |
| SelfieSegmentation.CompositeIdempotent | MultiTasking/app/src/main/java/com/facebook/multitasking/Screens/SelfieSegmentationScreen.kt:617-619 | compositing an already composited bitmap with the same mask and settings changes nothing |
| SelfieSegmentation.CountAbove | MultiTasking/app/src/main/java/com/facebook/multitasking/Screens/SelfieSegmentationScreen.kt:648-659 | the count of foreground values is at most the number of values |
| SelfieSegmentation.ForegroundPercentage | MultiTasking/app/src/main/java/com/facebook/multitasking/Screens/SelfieSegmentationScreen.kt:648-659 | the loop computes 100 × (confidences above 0.5) / (width × height), and the result is between 0 and 100 |
| SelfieSegmentation.OnSegmentationSuccess | MultiTasking/app/src/main/java/com/facebook/multitasking/Screens/SelfieSegmentationScreen.kt:641-672 | a successful segmentation yields a well-formed mask carrying the segmenter's confidences and size, with a percentage in [0, 100] |
| SelfieSegmentation.FallbackMask | MultiTasking/app/src/main/java/com/facebook/multitasking/Screens/SelfieSegmentationScreen.kt:674-685 | a failed segmentation yields a 1×1 all-background mask with 0% foreground |
| SelfieSegmentation.FallbackPaintsEverything | MultiTasking/app/src/main/java/com/facebook/multitasking/Screens/SelfieSegmentationScreen.kt:674-685 | with the fallback mask and any positive threshold, every pixel becomes the background colour |
| SelfieSegmentation.PeopleAndHintExclusive | MultiTasking/app/src/main/java/com/facebook/multitasking/Screens/SelfieSegmentationScreen.kt:509-520 | "Detected People: Yes" and the no-person hint never show together; at exactly 5% neither shows |
| SelfieSegmentation.FallbackShowsHint | MultiTasking/app/src/main/java/com/facebook/multitasking/Screens/SelfieSegmentationScreen.kt:519-520 | after a failed segmentation the screen says no people and shows the hint |
| SelfieSegmentation.ScaledSize | MultiTasking/app/src/main/java/com/facebook/multitasking/Screens/SelfieSegmentationScreen.kt:135-143 | the longer side becomes exactly 1024 and the shorter one its truncated share `short * 1024 / long`; the downscale succeeds iff that share is at least 1 (`short * 1024 >= long`), otherwise it is the empty-dimension error |
| SelfieSegmentation.ScaledSideBounded | MultiTasking/app/src/main/java/com/facebook/multitasking/Screens/SelfieSegmentationScreen.kt:136-142 | the scale factor never takes a side past 1024 and takes the longer side to exactly 1024 |
| SelfieSegmentation.ExtremeAspectFails | MultiTasking/app/src/main/java/com/facebook/multitasking/Screens/SelfieSegmentationScreen.kt:136-143 | a 2048×1 picture scales its short side to 0, which is the error path |
| SelfieSegmentation.OnSegmented | MultiTasking/app/src/main/java/com/facebook/multitasking/Screens/SelfieSegmentationScreen.kt:150-166 | a segmentation result stores the mask and ends processing; the cached composite matches the current bitmap, mask and settings |
| SelfieSegmentation.OnSettingsChanged | MultiTasking/app/src/main/java/com/facebook/multitasking/Screens/SelfieSegmentationScreen.kt:104-116 | changing the colour or threshold recomputes the cache so it matches the new settings, and touches nothing else |
| ImageProcessing.ToLabelInfos | MultiTasking/app/src/main/java/com/facebook/multitasking/Screens/ImageProcessingScreen.kt:111-117 | the labeler's labels are copied one for one, text, confidence and index unchanged |
| ImageProcessing.StartProcessing | MultiTasking/app/src/main/java/com/facebook/multitasking/Screens/ImageProcessingScreen.kt:103 | starting raises the processing flag and keeps the history and selection |
| ImageProcessing.FinishProcessing | MultiTasking/app/src/main/java/com/facebook/multitasking/Screens/ImageProcessingScreen.kt:102-154 | a labeled run appends one record with the image URI and the converted labels and selects it; a load or labeler failure leaves history and selection alone; processing always ends and the selection stays within the history |
| ImageProcessing.SelectImage | MultiTasking/app/src/main/java/com/facebook/multitasking/Screens/ImageProcessingScreen.kt:516 | tapping a history card selects an image from the history |
| ImageProcessing.LabelsView | MultiTasking/app/src/main/java/com/facebook/multitasking/Screens/ImageProcessingScreen.kt:450 | the label list is most confident first and is a permutation of the image's labels |
| ImageProcessing.HistoryView | MultiTasking/app/src/main/java/com/facebook/multitasking/Screens/ImageProcessingScreen.kt:512 | the history list is newest first and is a permutation of the records |
| ImageProcessing.TopLabels | MultiTasking/app/src/main/java/com/facebook/multitasking/Screens/ImageProcessingScreen.kt:638-641 | the top labels are min(2, n) of the image's labels, most confident first, and none of the labels left out is more confident than any label kept |
| ImageProcessing.TopSummary | MultiTasking/app/src/main/java/com/facebook/multitasking/Screens/ImageProcessingScreen.kt:638-641 | the "Top" line is the only label's text, or the two best texts joined by ", " |
| ImageProcessing.Panel | MultiTasking/app/src/main/java/com/facebook/multitasking/Screens/ImageProcessingScreen.kt:418-492 | the label card shows iff the selected image has labels, the no-labels hint iff it has none, and the help card only when idle with an empty history |
| ImageProcessing.HelpCardIff | MultiTasking/app/src/main/java/com/facebook/multitasking/Screens/ImageProcessingScreen.kt:418-492 | while the selection comes from the history, the help card shows exactly when idle with an empty history |
| ImageProcessing.AfterLabelingShowsResult | MultiTasking/app/src/main/java/com/facebook/multitasking/Screens/ImageProcessingScreen.kt:111-127 | after a successful run, the screen shows the labels, or the no-labels hint when there are none |
| ImageProcessing.GetConfidenceColor | MultiTasking/app/src/main/java/com/facebook/multitasking/Screens/ImageProcessingScreen.kt:656-663 | the four colour bands are exactly ≥0.8, [0.6, 0.8), [0.4, 0.6) and <0.4 |
| ImageProcessing.ColorMonotone | MultiTasking/app/src/main/java/com/facebook/multitasking/Screens/ImageProcessingScreen.kt:656-663 | a more confident label never gets a worse band |
| ImageProcessing.ColorsDistinct | MultiTasking/app/src/main/java/com/facebook/multitasking/Screens/ImageProcessingScreen.kt:656-663 | different bands have different ARGB values |
| DocumentScanner.PageUris | MultiTasking/app/src/main/java/com/facebook/multitasking/Screens/DocumentScannerScreen.kt:113-117 | at most one URI per page, and one per page exactly when every page has an image |
| DocumentScanner.PageUrisMembers | MultiTasking/app/src/main/java/com/facebook/multitasking/Screens/DocumentScannerScreen.kt:113-117 | a URI is collected iff some page carries it |
| DocumentScanner.PageUrisAppend | MultiTasking/app/src/main/java/com/facebook/multitasking/Screens/DocumentScannerScreen.kt:113-117 | URIs are collected in page order |
| DocumentScanner.DocumentFrom | MultiTasking/app/src/main/java/com/facebook/multitasking/Screens/DocumentScannerScreen.kt:108-131 | a document is made iff there is a page image or a PDF; it keeps the collected URIs and the PDF's URI, with page count 0 when there is no PDF |
| DocumentScanner.OnScannerResult | MultiTasking/app/src/main/java/com/facebook/multitasking/Screens/DocumentScannerScreen.kt:99-142 | scanning always stops; the old documents stay a prefix; exactly one document is appended iff the result is OK, carries a scanning result, and that result yields a document |
| DocumentScanner.StartScanner | MultiTasking/app/src/main/java/com/facebook/multitasking/Screens/DocumentScannerScreen.kt:145-146 | starting the scanner raises the scanning flag and keeps the documents |
| DocumentScanner.OnStartFailure | MultiTasking/app/src/main/java/com/facebook/multitasking/Screens/DocumentScannerScreen.kt:151-152 | a failed start lowers the flag and keeps documents and selection |
| DocumentScanner.WithoutId | MultiTasking/app/src/main/java/com/facebook/multitasking/Screens/DocumentScannerScreen.kt:369 | the filter keeps exactly the documents whose id differs |
| DocumentScanner.WithoutIdAppend | MultiTasking/app/src/main/java/com/facebook/multitasking/Screens/DocumentScannerScreen.kt:369 | the filter keeps relative order |
| DocumentScanner.WithoutAbsentId | MultiTasking/app/src/main/java/com/facebook/multitasking/Screens/DocumentScannerScreen.kt:369 | deleting an id no document has changes nothing |
| DocumentScanner.DeleteDocument | MultiTasking/app/src/main/java/com/facebook/multitasking/Screens/DocumentScannerScreen.kt:368-373 | delete removes every document with the id; the selection is cleared iff it had that id |
| DocumentScanner.GetTimeAgo | MultiTasking/app/src/main/java/com/facebook/multitasking/Screens/DocumentScannerScreen.kt:519-529 | each bucket is picked exactly for its range of differences; the count is 1–59 minutes, 1–23 hours, or ≥1 days, and is the whole number of units elapsed |
| DocumentScanner.Caption | MultiTasking/app/src/main/java/com/facebook/multitasking/Screens/DocumentScannerScreen.kt:524-528 | the caption is "just now" iff the bucket is the first one |
| DocumentScanner.CaptionCount | MultiTasking/app/src/main/java/com/facebook/multitasking/Screens/DocumentScannerScreen.kt:525-528 | the number at the head of a caption reads back as the bucket's count |
| CaptureUri.UniqueUri | MultiTasking/app/src/main/java/com/facebook/multitasking/Screens/FaceMeshDetectionScreen.kt:113 | the unique URI begins with the camera's URI and ends in decimal digits that read back as the capture time |
| CaptureUri.UniqueUriDistinct | MultiTasking/app/src/main/java/com/facebook/multitasking/Screens/TextRecognitionScreen.kt:103 | two captures at different times get different URIs |
| PoseDetection.ScaleFor | MultiTasking/app/src/main/java/com/facebook/multitasking/Screens/PoseDetectionScreen.kt:269-270 | the scale factors map the image's width and height exactly onto the view's |
| PoseDetection.AllInFrame | MultiTasking/app/src/main/java/com/facebook/multitasking/Screens/PoseDetectionScreen.kt:285 | the all-in-frame flag holds iff every landmark's in-frame likelihood exceeds 0.8 |
| PoseDetection.MapLandmarks | MultiTasking/app/src/main/java/com/facebook/multitasking/Screens/PoseDetectionScreen.kt:274-284 | landmarks map one for one, keeping type and likelihood and scaling each coordinate |
| PoseDetection.PosesFrom | MultiTasking/app/src/main/java/com/facebook/multitasking/Screens/PoseDetectionScreen.kt:266-290 | no landmarks gives no pose; otherwise exactly one pose with id 1 whose landmarks keep each landmark's type and in-frame likelihood and scale its position by the image-to-canvas factors |
| PoseDetection.PosesAfter | MultiTasking/app/src/main/java/com/facebook/multitasking/Screens/PoseDetectionScreen.kt:266-297 | a failed detection gives no poses, and a successful one gives exactly the poses built from its landmarks |
| PoseDetection.Analyze | MultiTasking/app/src/main/java/com/facebook/multitasking/Screens/PoseDetectionScreen.kt:155-214 | a frame is skipped iff it comes less than 200 ms after the last analysed one; it is submitted iff not skipped and the frame has an image; the timestamp advances iff the frame is not skipped |
| PoseDetection.DetectorCallsSpaced | MultiTasking/app/src/main/java/com/facebook/multitasking/Screens/PoseDetectionScreen.kt:155-158 | over any frame sequence, every detector call is at least 200 ms after the starting timestamp and after every earlier call |
| PoseDetection.FreshAnalyzerWaits | MultiTasking/app/src/main/java/com/facebook/multitasking/Screens/PoseDetectionScreen.kt:151-158 | a fresh analyzer calls the detector only for frames stamped 200 ms or later |
| PoseDetection.OnFrame | MultiTasking/app/src/main/java/com/facebook/multitasking/Screens/PoseDetectionScreen.kt:155-214 | a skipped frame leaves the screen alone, a submitted one sets processing, and a frame without an image clears it |
| PoseDetection.OnLiveDetection | MultiTasking/app/src/main/java/com/facebook/multitasking/Screens/PoseDetectionScreen.kt:173-207 | a live result replaces the poses with the detection's poses, ends processing, and changes nothing else |
| PoseDetection.OnImageCaptured | MultiTasking/app/src/main/java/com/facebook/multitasking/Screens/PoseDetectionScreen.kt:256-259 | a capture stores the image, starts analysis and clears the poses, keeping the mode and camera |
| PoseDetection.OnCapturedDetection | MultiTasking/app/src/main/java/com/facebook/multitasking/Screens/PoseDetectionScreen.kt:264-297 | the captured analysis ends with the detection's poses and keeps the captured image |
| PoseDetection.TurnCameraOff | MultiTasking/app/src/main/java/com/facebook/multitasking/Screens/PoseDetectionScreen.kt:371-376 | turning the camera off clears the poses, the processing flag and the captured image |
| PoseDetection.SwitchMode | MultiTasking/app/src/main/java/com/facebook/multitasking/Screens/PoseDetectionScreen.kt:432-436 | switching mode sets the mode and clears the poses and the captured image |
| PoseDetection.Reset | MultiTasking/app/src/main/java/com/facebook/multitasking/Screens/PoseDetectionScreen.kt:793-796 | reset clears the poses and the captured image and keeps the mode and camera |
| PoseDetection.ResetsClearResults | MultiTasking/app/src/main/java/com/facebook/multitasking/Screens/PoseDetectionScreen.kt:371-376 | reset, mode switch and camera-off are idempotent, and with the camera off no hint shows |
| PoseDetection.Hint | MultiTasking/app/src/main/java/com/facebook/multitasking/Screens/PoseDetectionScreen.kt:860-882 | a hint shows iff the camera is on, no pose is detected and no captured analysis is running; "tap to capture" only in static mode with nothing captured |
| PoseDetection.CapturedEmptyShowsHint | MultiTasking/app/src/main/java/com/facebook/multitasking/Screens/PoseDetectionScreen.kt:860-882 | no hint shows while a capture is analysed, and a failed capture analysis shows the no-pose hint |
| PoseDetection.EdgeColor | MultiTasking/app/src/main/java/com/facebook/multitasking/Screens/PoseDetectionScreen.kt:520-529 | an edge's colour is the first of torso, legs, arms whose range holds its start landmark, otherwise the face colour |
| PoseDetection.EdgeNeverBlue | MultiTasking/app/src/main/java/com/facebook/multitasking/Screens/PoseDetectionScreen.kt:520-529 | with ML Kit's landmark order, no edge is ever blue, and an edge is green exactly when it starts after the right hip, up to the right foot index |
| PoseDetection.PointColor | MultiTasking/app/src/main/java/com/facebook/multitasking/Screens/PoseDetectionScreen.kt:543-553 | a dot's colour is the first of torso, legs, arms, face whose range holds its type, otherwise magenta |
| PoseDetection.PointNeverBlue | MultiTasking/app/src/main/java/com/facebook/multitasking/Screens/PoseDetectionScreen.kt:543-553 | no dot is ever blue, and a dot is magenta exactly when it is in none of the face, torso and leg ranges |
| PoseDetection.ConnectionColors | MultiTasking/app/src/main/java/com/facebook/multitasking/Screens/PoseDetectionScreen.kt:489-529 | of the 18 skeleton edges, the first 6 are drawn yellow, the next 10 red and the last 2 green |
| PoseDetection.Find | MultiTasking/app/src/main/java/com/facebook/multitasking/Screens/PoseDetectionScreen.kt:515-516 | `find` returns the first landmark of the type, and nothing iff no landmark has it |
| PoseDetection.Lines | MultiTasking/app/src/main/java/com/facebook/multitasking/Screens/PoseDetectionScreen.kt:514-537 | at most one line per edge, none without landmarks, never magenta, and never blue when no edge colour is blue |
| PoseDetection.LinesOne | MultiTasking/app/src/main/java/com/facebook/multitasking/Screens/PoseDetectionScreen.kt:514-537 | one edge gives one line from its start landmark's position to its end landmark's position in the edge's colour when both landmarks are present, and no line otherwise |
| PoseDetection.LinesAppend | MultiTasking/app/src/main/java/com/facebook/multitasking/Screens/PoseDetectionScreen.kt:514-537 | the lines for two edge lists one after the other are the lines of the first followed by the lines of the second, so every edge is drawn independently in list order |
| PoseDetection.LinesMembers | MultiTasking/app/src/main/java/com/facebook/multitasking/Screens/PoseDetectionScreen.kt:514-537 | a line is drawn iff some edge in the list has both landmarks present and that line joins their positions in the edge's colour |
| PoseDetection.AllEdgesDrawnIff | MultiTasking/app/src/main/java/com/facebook/multitasking/Screens/PoseDetectionScreen.kt:514-518 | the number of lines equals the number of edges iff every edge has both of its end landmarks present |
| PoseDetection.Skeleton | MultiTasking/app/src/main/java/com/facebook/multitasking/Screens/PoseDetectionScreen.kt:489-537 | a pose's skeleton has at most 18 lines, none blue or magenta, and none for a pose without landmarks |
| PoseDetection.CountInRange | MultiTasking/app/src/main/java/com/facebook/multitasking/Screens/PoseDetectionScreen.kt:940-946 | a region count is at most the landmark count, zero iff no landmark is in the range, and full iff all are |
| PoseDetection.DisjointCountsBounded | MultiTasking/app/src/main/java/com/facebook/multitasking/Screens/PoseDetectionScreen.kt:940-946 | counts over three disjoint ranges add up to at most the landmark count |
| PoseDetection.Regions | MultiTasking/app/src/main/java/com/facebook/multitasking/Screens/PoseDetectionScreen.kt:940-946 | face, upper-body and lower-body counts never exceed the total, and the face count is 0 iff no landmark is a face landmark |
| PoseDetection.OutsideCountsFewer | MultiTasking/app/src/main/java/com/facebook/multitasking/Screens/PoseDetectionScreen.kt:940-946 | a landmark outside all three ranges makes the counts add up to strictly less than the total |
| PoseDetection.PinkyInNoRegion | MultiTasking/app/src/main/java/com/facebook/multitasking/Screens/PoseDetectionScreen.kt:940-946 | a pose with a right-pinky landmark has region counts that add up to strictly less than its landmark count |
| FaceMesh.MapMeshes | MultiTasking/app/src/main/java/com/facebook/multitasking/Screens/FaceMeshDetectionScreen.kt:655-662 | meshes map one for one, with ids 1, 2, … in detection order and bounding box, points and triangles kept |
| FaceMesh.FaceById | MultiTasking/app/src/main/java/com/facebook/multitasking/Screens/FaceMeshDetectionScreen.kt:51-56 | a lookup returns a face with that id from the list, and nothing iff no face has it |
| FaceMesh.IdsNumberMeshes | MultiTasking/app/src/main/java/com/facebook/multitasking/Screens/FaceMeshDetectionScreen.kt:655-662 | ids are unique: id k finds the k-th mesh, and exactly the ids 1..n are present |
| FaceMesh.OffsetLookup | MultiTasking/app/src/main/java/com/facebook/multitasking/Screens/FaceMeshDetectionScreen.kt:655-662 | in a list numbered consecutively from a base, the lookup of an id finds the face at that offset |
| FaceMesh.DetectedFaces | MultiTasking/app/src/main/java/com/facebook/multitasking/Screens/FaceMeshDetectionScreen.kt:642-669 | a failed detection gives no faces, and a success gives one face per mesh, numbered from 1 |
| FaceMesh.OnPictureTaken | MultiTasking/app/src/main/java/com/facebook/multitasking/Screens/FaceMeshDetectionScreen.kt:111-129 | a cancelled capture changes nothing; otherwise the unique URI is stored; a loaded bitmap starts processing, and a load failure stops it with no faces and the old bitmap kept |
| FaceMesh.OnMeshDetected | MultiTasking/app/src/main/java/com/facebook/multitasking/Screens/FaceMeshDetectionScreen.kt:120-123 | the detector's callback stores the detected faces and ends processing, keeping the captured image |
| FaceMesh.HintAfterEmptyCapture | MultiTasking/app/src/main/java/com/facebook/multitasking/Screens/FaceMeshDetectionScreen.kt:479 | the no-face hint shows after a failed load or an empty detection but not while processing, and never together with the mesh overlay |
| FaceMesh.DrawnTriangles | MultiTasking/app/src/main/java/com/facebook/multitasking/Screens/FaceMeshDetectionScreen.kt:199-201 | exactly the triangles with three points are drawn |
| FaceMesh.EveryTenthFrom | MultiTasking/app/src/main/java/com/facebook/multitasking/Screens/FaceMeshDetectionScreen.kt:254-257 | from a start position, the points at multiples of 10, in order |
| FaceMesh.KeyPoints | MultiTasking/app/src/main/java/com/facebook/multitasking/Screens/FaceMeshDetectionScreen.kt:254-257 | the key points are the points at indices 0, 10, 20, …, in order, ⌈n/10⌉ of them |
| FaceMesh.KeyPointsComplete | MultiTasking/app/src/main/java/com/facebook/multitasking/Screens/FaceMeshDetectionScreen.kt:254-257 | every point whose index is a multiple of 10 is a key point |
| FaceMesh.FitTransform | MultiTasking/app/src/main/java/com/facebook/multitasking/Screens/FaceMeshDetectionScreen.kt:203-215 | the image scaled by the minimum ratio fits the canvas and fills it along one axis, and is centred with non-negative offsets |
| FaceMesh.TransformStaysOnCanvas | MultiTasking/app/src/main/java/com/facebook/multitasking/Screens/FaceMeshDetectionScreen.kt:203-215 | a point inside the image lands inside the canvas |
| TextRecognition.MessageText | MultiTasking/app/src/main/java/com/facebook/multitasking/Screens/TextRecognitionScreen.kt:380 | a string template renders a null exception message as "null" |
| TextRecognition.ResultText | MultiTasking/app/src/main/java/com/facebook/multitasking/Screens/TextRecognitionScreen.kt:370-382 | the text handed back is never empty: the recognised text, the no-text message for empty text, or the failure prefix followed by the message |
| TextRecognition.OnPictureTaken | MultiTasking/app/src/main/java/com/facebook/multitasking/Screens/TextRecognitionScreen.kt:101-119 | a cancelled capture changes nothing; otherwise the unique URI is stored and processing starts, or on a load error stops with the error text |
| TextRecognition.OnTextRecognized | MultiTasking/app/src/main/java/com/facebook/multitasking/Screens/TextRecognitionScreen.kt:108-111 | the recogniser's callback ends processing with a non-empty text and keeps the URI |
| TextRecognition.Step | MultiTasking/app/src/main/java/com/facebook/multitasking/Screens/TextRecognitionScreen.kt:101-119 | each event keeps the screen settled (a captured picture is either still processing or has text to show) |
| TextRecognition.RunStaysSettled | MultiTasking/app/src/main/java/com/facebook/multitasking/Screens/TextRecognitionScreen.kt:101-119 | any sequence of events from a settled screen leaves it settled |
| TextRecognition.NoTextHintUnreachable | MultiTasking/app/src/main/java/com/facebook/multitasking/Screens/TextRecognitionScreen.kt:348 | from the initial screen, the no-text help card can never show |
| TextRecognition.ResultCardAfterOutcome | MultiTasking/app/src/main/java/com/facebook/multitasking/Screens/TextRecognitionScreen.kt:284 | the result card shows after every recognition and every load error, and not initially |
| Sorting.SortDescending | MultiTasking/app/src/main/java/com/facebook/multitasking/Screens/ImageProcessingScreen.kt:450 | `sortedByDescending` yields a descending permutation of its input |
| Sorting.TopOf | MultiTasking/app/src/main/java/com/facebook/multitasking/Screens/ImageProcessingScreen.kt:638-640 | a prefix of a sorted permutation is a sub-multiset of the input, sorted, and dominates everything left out |
| Decimal.ParseRender | MultiTasking/app/src/main/java/com/facebook/multitasking/Screens/DocumentScannerScreen.kt:525 | a rendered number reads back as itself |
| Decimal.RenderInjective | MultiTasking/app/src/main/java/com/facebook/multitasking/Screens/DocumentScannerScreen.kt:525 | different numbers render differently |

## Left out

- ML Kit itself is not modelled: recogniser, labeler, segmenter and detector clients, model download/check/delete, and what the models compute. Their results are inputs.
- CameraX binding, preview views, YUV-to-bitmap conversion, rotation matrices, runtime permissions, activity launchers, FileProvider, and `MediaStore` decoding are not modelled. A load either succeeds with an image or fails.
- Coroutines, dispatchers and `LaunchedEffect` scheduling are not modelled: each callback is one atomic step. So a stale callback from an earlier capture that overwrites a newer screen state is not modelled.
- Compose layout, animation, toasts, logging and the exact strings of cards other than the ones above are not modelled.
- `ByteBuffer` reading of the segmentation mask is not modelled: the mask is a sequence of reals.
- IEEE single-precision arithmetic is not modelled: `Float` is modelled as exact `real`, so rounding in ratios, percentages and scale factors is out. `toInt()` truncation is modelled where it decides a branch: mask coordinates and downscaled sizes.
- `Long` overflow is not modelled: clocks and differences are unbounded integers.
- Sorting.SortDescending: Kotlin's `sortedByDescending` is stable. The model proves only that the output is sorted and a permutation, not the order among equal keys.
- `System.currentTimeMillis()` is a parameter `now`. The source's record classes read the clock twice, once for the id default and once for the timestamp default (DigitalInkRecognitionScreen.kt:48 and :52, ImageProcessingScreen.kt:49 and :52, DocumentScannerScreen.kt:52 and :56), so the two may differ by a millisecond. The model gives both the same `now`; nothing in it depends on their being equal or different.
- CaptureUri.UniqueUri: takes the clock as a `nat`. A negative clock value, which would render with a minus sign, is not modelled.
- PoseDetection.ScaleFor: requires a positive image size. A zero-sized bitmap would give infinite or NaN scale factors in `Float`.
- FaceMesh.FitTransform: requires a positive image size and a non-negative canvas size. These are the same `Float` division edge cases.
- SelfieSegmentation.ScaledSize: requires a decoded bitmap of at least 1×1 pixels. The scale factor is exact here; in `Float`, `long * (1024 / long)` can round to just under 1024 and truncate to 1023, which is not modelled.
- Pose landmark type constants: ML Kit's values are not part of this model. They are a `LandmarkIds` parameter with the ordering predicate `Ordered` that ML Kit's numbering satisfies.
- Navigation.Route: defined only for the nine screens `route()` has a branch for. Its `when` has no branch for `SplashScreen` or `ARModelScreen` (Screen.kt:11 and :41), so the model leaves those two outside its domain. The home screen lists the AR screen as a feature (HomeScreen.kt:134) and navigates with `route()` (HomeScreen.kt:194); that path has no route here.
- ARModelScreen, FaceRecognitionScreen, the home and splash screens and MainActivity: UI and camera/AR plumbing with no deterministic rule beyond the routes above.
- Recognition history on the ink screen: the history list and its clear button (DigitalInkRecognitionScreen.kt:707-762) sit inside a block comment, so the screen shows neither. The model keeps the stored results the code appends to and does not model a history view or clearing it.
- DigitalInk.TakeLast: counts Unicode scalar values. Kotlin's `takeLast(20)` counts UTF-16 code units, so for text outside the Basic Multilingual Plane the two differ and Kotlin can split a surrogate pair.
- DigitalInk.UpdatePreContext: the 20-character bound is in Unicode scalar values, not UTF-16 code units as in the source (DigitalInkRecognitionScreen.kt:262). For the selectable Chinese and Japanese recognisers (:95-96) a result with characters outside the Basic Multilingual Plane would give a different, possibly surrogate-split, pre-context in the source.
- Language and model selection on the ink screen: the lookup of a model for the selected language is an input (`ModelLookup`).

## Observations on the source

- Pose skeleton colours (PoseDetectionScreen.kt:520-529 and 543-553): the arms range starts at the left shoulder or left elbow and ends at a wrist or pinky. The torso range before it already covers left shoulder to right hip, so the "arms (blue)" branch can never be taken for edges or dots. `EdgeNeverBlue` and `PointNeverBlue` state this. The model keeps the branch as written.
- Text recognition (TextRecognitionScreen.kt:348): the help card for "no text" needs a captured picture, an empty text and no processing. `recognizeTextFromImage` never hands back an empty text, and a load error sets one, so `NoTextHintUnreachable` proves the card never shows.
- Document scanner time captions (DocumentScannerScreen.kt:519-529): a negative difference, from a clock set back, falls in the "just now" bucket.

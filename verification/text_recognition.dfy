/** The text-recognition screen: the capture callback, the text that
    replaces an empty or failed recognition, and which cards the screen
    shows. The recogniser's output, the loaded bitmap and the clock are
    inputs. */
module TextRecognition {
  import opened Wrappers
  import CaptureUri

  const NoTextMessage: string := "No text detected in the image."
  const RecognizeFailedPrefix: string := "Failed to recognize text: "
  const LoadErrorPrefix: string := "Error processing image: "

  datatype TextScreen = TextScreen(capturedImageUri: Option<string>, recognizedText: string, isProcessing: bool)

  function Initial(): TextScreen {
    TextScreen(None, "", false)
  }

  /** A string template's rendering of an exception message that may be
      null. */
  function MessageText(message: Option<string>): (r: string)
    ensures message.Some? ==> r == message.value
    ensures message.None? ==> r == "null"
  {
    match message
    case Some(m) => m
    case None => "null"
  }

  /** How the recogniser's task ends. */
  datatype Recognition = TextFound(text: string) | RecognitionFailed(message: Option<string>)

  /** The text `recognizeTextFromImage` hands back: the recognised text, a
      fixed message when it is empty, or the failure message. */
  function ResultText(outcome: Recognition): (r: string)
    ensures |r| > 0
    ensures outcome.TextFound? && |outcome.text| > 0 ==> r == outcome.text
    ensures outcome.TextFound? && |outcome.text| == 0 ==> r == NoTextMessage
    ensures outcome.RecognitionFailed? ==>
      && |r| >= |RecognizeFailedPrefix|
      && r[..|RecognizeFailedPrefix|] == RecognizeFailedPrefix
      && r[|RecognizeFailedPrefix|..] == MessageText(outcome.message)
  {
    match outcome
    case TextFound(text) => if |text| == 0 then NoTextMessage else text
    case RecognitionFailed(message) => RecognizeFailedPrefix + MessageText(message)
  }

  /** Reading the saved picture: the bitmap, or an `IOException` with its
      message. */
  datatype Load = Loaded | LoadFailed(message: Option<string>)

  /** The camera launcher's callback. */
  function OnPictureTaken(s: TextScreen, success: bool, tempUri: Option<string>, now: nat, load: Load): (r: TextScreen)
    ensures !(success && tempUri.Some?) ==> r == s
    ensures success && tempUri.Some? ==>
      && r.capturedImageUri == Some(CaptureUri.UniqueUri(tempUri.value, now))
      && (load.Loaded? ==> r.isProcessing && r.recognizedText == s.recognizedText)
      && (load.LoadFailed? ==>
            && !r.isProcessing
            && |r.recognizedText| >= |LoadErrorPrefix|
            && r.recognizedText[..|LoadErrorPrefix|] == LoadErrorPrefix
            && r.recognizedText[|LoadErrorPrefix|..] == MessageText(load.message))
  {
    if success && tempUri.Some? then
      var s' := s.(capturedImageUri := Some(CaptureUri.UniqueUri(tempUri.value, now)), isProcessing := true);
      match load
      case Loaded => s'
      case LoadFailed(message) =>
        s'.(isProcessing := false, recognizedText := LoadErrorPrefix + MessageText(message))
    else
      s
  }

  /** The recogniser's callback. */
  function OnTextRecognized(s: TextScreen, outcome: Recognition): (r: TextScreen)
    ensures !r.isProcessing && |r.recognizedText| > 0
    ensures r.capturedImageUri == s.capturedImageUri
  {
    s.(recognizedText := ResultText(outcome), isProcessing := false)
  }

  /** The card with the recognised text. */
  predicate ShowsResultCard(s: TextScreen) {
    |s.recognizedText| > 0
  }

  /** The "no text recognised" help card. */
  predicate ShowsNoTextHint(s: TextScreen) {
    s.capturedImageUri.Some? && |s.recognizedText| == 0 && !s.isProcessing
  }

  /** Once a picture is taken, the screen is either still working or has a
      non-empty text to show. */
  predicate Settled(s: TextScreen) {
    s.capturedImageUri.Some? ==> s.isProcessing || |s.recognizedText| > 0
  }

  /** Everything that can happen to the screen. */
  datatype Event =
    | PictureTaken(success: bool, tempUri: Option<string>, now: nat, load: Load)
    | TextRecognized(outcome: Recognition)

  function Step(s: TextScreen, e: Event): (r: TextScreen)
    ensures Settled(s) ==> Settled(r)
    ensures e.TextRecognized? ==> ShowsResultCard(r)
  {
    match e
    case PictureTaken(success, tempUri, now, load) => OnPictureTaken(s, success, tempUri, now, load)
    case TextRecognized(outcome) => OnTextRecognized(s, outcome)
  }

  function Run(s: TextScreen, events: seq<Event>): TextScreen
    decreases |events|
  {
    if |events| == 0 then s else Run(Step(s, events[0]), events[1..])
  }

  /** Every state reached from the initial one is settled. */
  lemma {:induction false} RunStaysSettled(s: TextScreen, events: seq<Event>)
    requires Settled(s)
    ensures Settled(Run(s, events))
    decreases |events|
  {
    if |events| > 0 {
      RunStaysSettled(Step(s, events[0]), events[1..]);
    }
  }

  /** So the help card's condition, a captured picture with an empty text and
      nothing in progress, is never met. */
  lemma {:induction false} NoTextHintUnreachable(events: seq<Event>)
    ensures !ShowsNoTextHint(Run(Initial(), events))
  {
    RunStaysSettled(Initial(), events);
  }

  /** The result card shows exactly when some text is set, and every finished
      recognition or failed load sets one. */
  lemma ResultCardAfterOutcome(s: TextScreen, tempUri: string, now: nat, message: Option<string>, outcome: Recognition)
    ensures ShowsResultCard(OnTextRecognized(s, outcome))
    ensures ShowsResultCard(OnPictureTaken(s, true, Some(tempUri), now, LoadFailed(message)))
    ensures !ShowsResultCard(Initial())
  {
  }
}

/** The handwriting screen: the pointer-event state machine that builds ink
    strokes, the guard around starting a recognition, the confidence given to
    the top candidate, and the rolling pre-context that biases the next
    recognition. The recognizer itself is outside the model: its candidate
    list, or its failure, is an input. */
module DigitalInk {
  import opened Wrappers

  /** Pre-context keeps at most this many trailing characters. */
  const PreContextLimit: nat := 20
  /** Confidence reported when the scores cannot be compared. */
  const DefaultConfidence: real := 0.9
  const DefaultStrokeWidth: real := 5.0
  /** ARGB of `Color.Black`. */
  const Black: nat := 0xFF00_0000

  datatype Point = Point(x: real, y: real)

  datatype InkStroke = InkStroke(points: seq<Point>, strokeWidth: real, strokeColor: nat)

  datatype RecognitionResult = RecognitionResult(
    id: int, text: string, confidence: real, language: string, timestamp: int)

  /** One recognizer candidate; its score may be missing. */
  datatype Candidate = Candidate(text: string, score: Option<real>)

  datatype InkState = InkState(
    inkStrokes: seq<InkStroke>,
    currentStroke: seq<Point>,
    isDrawing: bool,
    results: seq<RecognitionResult>,
    currentResult: Option<RecognitionResult>,
    isRecognizing: bool,
    selectedLanguage: string,
    isLanguageDownloaded: bool,
    preContext: string)

  /** The state the screen starts in. */
  function Initial(): (s: InkState)
    ensures s.preContext == "" && s.inkStrokes == [] && s.results == []
    ensures !s.isDrawing && !s.isRecognizing && !s.isLanguageDownloaded
  {
    InkState([], [], false, [], None, false, "en-US", false, "")
  }

  // ---------------------------------------------------------------------
  // Pointer events
  // ---------------------------------------------------------------------

  datatype MotionAction = ActionDown | ActionMove | ActionUp | ActionCancel | OtherAction

  datatype MotionEvent = MotionEvent(action: MotionAction, x: real, y: real)

  /** What the pointer filter returns: whether it consumed the event, and the
      state after it. */
  datatype PointerOutcome = PointerOutcome(consumed: bool, state: InkState)

  /** The canvas's pointer filter. */
  function OnPointerEvent(s: InkState, e: MotionEvent): (r: PointerOutcome)
    // a press always starts a fresh one-point stroke
    ensures e.action.ActionDown? ==>
      r.consumed && r.state.isDrawing && r.state.currentStroke == [Point(e.x, e.y)]
      && r.state.inkStrokes == s.inkStrokes
    // a move extends the stroke only while drawing
    ensures e.action.ActionMove? && s.isDrawing ==>
      r.consumed && r.state.currentStroke == s.currentStroke + [Point(e.x, e.y)]
      && r.state.inkStrokes == s.inkStrokes && r.state.isDrawing
    // a lift commits the non-empty stroke at the end of the list
    ensures (e.action.ActionUp? || e.action.ActionCancel?) && s.isDrawing ==>
      && r.consumed && !r.state.isDrawing && r.state.currentStroke == []
      && r.state.inkStrokes ==
           s.inkStrokes + (if |s.currentStroke| > 0
                           then [InkStroke(s.currentStroke, DefaultStrokeWidth, Black)]
                           else [])
    // anything else is refused and changes nothing
    ensures !r.consumed <==> (e.action.OtherAction? || (!e.action.ActionDown? && !s.isDrawing))
    ensures !r.consumed ==> r.state == s
    // recognition state is never touched by drawing
    ensures r.state.results == s.results && r.state.preContext == s.preContext
    ensures r.state.isRecognizing == s.isRecognizing
    ensures r.state.currentResult == s.currentResult
    ensures r.state.isLanguageDownloaded == s.isLanguageDownloaded
    ensures r.state.selectedLanguage == s.selectedLanguage
  {
    match e.action
    case ActionDown =>
      PointerOutcome(true, s.(isDrawing := true, currentStroke := [Point(e.x, e.y)]))
    case ActionMove =>
      if s.isDrawing then
        PointerOutcome(true, s.(currentStroke := s.currentStroke + [Point(e.x, e.y)]))
      else
        PointerOutcome(false, s)
    case ActionUp => Lift(s)
    case ActionCancel => Lift(s)
    case OtherAction => PointerOutcome(false, s)
  }

  /** ACTION_UP and ACTION_CANCEL share one branch. */
  function Lift(s: InkState): PointerOutcome {
    if s.isDrawing then
      var s' := s.(isDrawing := false);
      if |s.currentStroke| > 0 then
        PointerOutcome(true, s'.(
          inkStrokes := s.inkStrokes + [InkStroke(s.currentStroke, DefaultStrokeWidth, Black)],
          currentStroke := []))
      else
        PointerOutcome(true, s')
    else
      PointerOutcome(false, s)
  }

  /** Every committed stroke has at least one point. */
  predicate StrokesNonEmpty(strokes: seq<InkStroke>) {
    forall i :: 0 <= i < |strokes| ==> |strokes[i].points| > 0
  }

  /** Replays a gesture: the state after each event in turn. */
  function Replay(s: InkState, events: seq<MotionEvent>): InkState
    decreases |events|
  {
    if |events| == 0 then s else Replay(OnPointerEvent(s, events[0]).state, events[1..])
  }

  /** Over any gesture, strokes already committed stay as they were, new ones
      are only added at the end, and every stroke has a point. */
  lemma {:induction false} ReplayKeepsStrokes(s: InkState, events: seq<MotionEvent>)
    requires StrokesNonEmpty(s.inkStrokes)
    ensures var t := Replay(s, events);
            && StrokesNonEmpty(t.inkStrokes)
            && |s.inkStrokes| <= |t.inkStrokes|
            && t.inkStrokes[..|s.inkStrokes|] == s.inkStrokes
    decreases |events|
  {
    if |events| > 0 {
      var next := OnPointerEvent(s, events[0]).state;
      assert StrokesNonEmpty(next.inkStrokes);
      ReplayKeepsStrokes(next, events[1..]);
      var t := Replay(s, events);
      assert t == Replay(next, events[1..]);
      assert next.inkStrokes[..|s.inkStrokes|] == s.inkStrokes;
      assert t.inkStrokes[..|s.inkStrokes|] == t.inkStrokes[..|next.inkStrokes|][..|s.inkStrokes|];
    }
  }

  /** The Clear button: drops the committed and the in-progress strokes. */
  function Clear(s: InkState): (r: InkState)
    ensures r.inkStrokes == [] && r.currentStroke == []
    ensures r.results == s.results && r.currentResult == s.currentResult
    ensures r.preContext == s.preContext && r.isRecognizing == s.isRecognizing
    ensures r.isDrawing == s.isDrawing
  {
    s.(inkStrokes := [], currentStroke := [])
  }

  /** A Clear in the middle of a stroke leaves nothing to commit: the lift
      that follows adds no stroke. */
  lemma ClearThenLiftAddsNothing(s: InkState, e: MotionEvent)
    requires s.isDrawing && e.action.ActionUp?
    ensures OnPointerEvent(Clear(s), e).state.inkStrokes == []
    ensures OnPointerEvent(Clear(s), e).consumed
  {
  }

  // ---------------------------------------------------------------------
  // Starting a recognition
  // ---------------------------------------------------------------------

  /** What looking up the recognition model for the selected language gives:
      a model, no model (`null`), or an exception. */
  datatype ModelLookup = ModelFound | ModelMissing | LookupThrew

  /** The request handed to the recognizer. */
  datatype RecognitionRequest = RecognitionRequest(
    ink: seq<seq<Point>>, preContext: string, writingWidth: real, writingHeight: real)

  datatype StartOutcome = StartOutcome(state: InkState, request: Option<RecognitionRequest>)

  function StrokePoints(strokes: seq<InkStroke>): (r: seq<seq<Point>>)
    ensures |r| == |strokes|
    ensures forall i :: 0 <= i < |r| ==> r[i] == strokes[i].points
  {
    seq(|strokes|, i requires 0 <= i < |strokes| => strokes[i].points)
  }

  /** `recognizeInk()` up to the call into the recognizer. */
  function RecognizeInk(s: InkState, lookup: ModelLookup): (r: StartOutcome)
    // with no strokes nothing happens at all
    ensures |s.inkStrokes| == 0 ==> r.state == s && r.request.None?
    ensures r.request.Some? <==> |s.inkStrokes| > 0 && lookup.ModelFound?
    // a request carries every stroke, in order, and the current pre-context
    ensures r.request.Some? ==>
      && r.state == s.(isRecognizing := true)
      && r.request.value.ink == StrokePoints(s.inkStrokes)
      && r.request.value.preContext == s.preContext
    ensures r.request.None? ==>
      r.state == s || r.state == s.(isRecognizing := false)
  {
    if |s.inkStrokes| == 0 then StartOutcome(s, None)
    else
      match lookup
      case ModelMissing => StartOutcome(s, None)
      case LookupThrew => StartOutcome(s.(isRecognizing := false), None)
      case ModelFound =>
        StartOutcome(
          s.(isRecognizing := true),
          Some(RecognitionRequest(StrokePoints(s.inkStrokes), s.preContext, 800.0, 600.0)))
  }

  /** The Recognize button is enabled only with a downloaded model, some ink,
      and no recognition in flight. */
  predicate RecognizeEnabled(s: InkState) {
    s.isLanguageDownloaded && |s.inkStrokes| > 0 && !s.isRecognizing
  }

  /** Pressing Recognize: a disabled button does nothing; the click handler
      repeats the model and strokes checks before calling `recognizeInk`. */
  function PressRecognize(s: InkState, lookup: ModelLookup): (r: StartOutcome)
    ensures !RecognizeEnabled(s) ==> r == StartOutcome(s, None)
    ensures RecognizeEnabled(s) ==> r == RecognizeInk(s, lookup)
    ensures r.request.Some? <==> RecognizeEnabled(s) && lookup.ModelFound?
    ensures r.request.Some? ==> !s.isRecognizing && s.isLanguageDownloaded && r.state.isRecognizing
  {
    if RecognizeEnabled(s) && s.isLanguageDownloaded && |s.inkStrokes| > 0 then
      RecognizeInk(s, lookup)
    else
      StartOutcome(s, None)
  }

  // ---------------------------------------------------------------------
  // Completing a recognition
  // ---------------------------------------------------------------------

  function Clamp01(v: real): (r: real)
    ensures 0.0 <= r <= 1.0
    ensures 0.0 <= v <= 1.0 ==> r == v
  {
    if v < 0.0 then 0.0 else if v > 1.0 then 1.0 else v
  }

  /** Scores of the first two candidates, when both are present and the top one
      is positive. */
  predicate ScoresComparable(candidates: seq<Candidate>) {
    && |candidates| > 1
    && candidates[0].score.Some? && candidates[1].score.Some?
    && candidates[0].score.value > 0.0
  }

  /** Confidence of the top candidate: one minus the runner-up's score relative
      to the top score, or 0.9 when that ratio cannot be formed. */
  function Confidence(candidates: seq<Candidate>): (r: real)
    requires |candidates| > 0
    ensures 0.0 <= r <= 1.0
    ensures !ScoresComparable(candidates) ==> r == DefaultConfidence
  {
    if |candidates| > 1 then
      var top := candidates[0].score;
      var second := candidates[1].score;
      if top.Some? && second.Some? && top.value > 0.0 then
        1.0 - Clamp01(second.value / top.value)
      else
        DefaultConfidence
    else
      DefaultConfidence
  }

  /** Reading of the formula: full confidence exactly when the runner-up
      scores nothing, none when it scores at least as much as the top. */
  lemma ConfidenceExtremes(candidates: seq<Candidate>)
    requires ScoresComparable(candidates)
    ensures var top := candidates[0].score.value;
            var second := candidates[1].score.value;
            && (Confidence(candidates) == 1.0 <==> second <= 0.0)
            && (Confidence(candidates) == 0.0 <==> second >= top)
  {
    var top := candidates[0].score.value;
    var second := candidates[1].score.value;
    if second >= top {
      assert second / top >= 1.0 by { DivAtLeastOne(second, top); }
    }
    if second <= 0.0 {
      assert second / top <= 0.0 by { DivNonPositive(second, top); }
    }
  }

  lemma DivAtLeastOne(a: real, b: real)
    requires b > 0.0 && a >= b
    ensures a / b >= 1.0
  {
    assert a / b * b == a;
  }

  lemma DivNonPositive(a: real, b: real)
    requires b > 0.0 && a <= 0.0
    ensures a / b <= 0.0
  {
    assert a / b * b == a;
  }

  /** A stronger runner-up never raises the confidence. */
  lemma {:induction false} ConfidenceAntitone(c1: seq<Candidate>, c2: seq<Candidate>)
    requires ScoresComparable(c1) && ScoresComparable(c2)
    requires c1[0].score == c2[0].score
    requires c1[1].score.value <= c2[1].score.value
    ensures Confidence(c2) <= Confidence(c1)
  {
    var top := c1[0].score.value;
    assert c1[1].score.value / top <= c2[1].score.value / top by {
      DivMonotone(c1[1].score.value, c2[1].score.value, top);
    }
  }

  lemma DivMonotone(a: real, b: real, c: real)
    requires c > 0.0 && a <= b
    ensures a / c <= b / c
  {
    assert a / c * c == a;
    assert b / c * c == b;
  }

  /** Kotlin's `takeLast(n)`. */
  function TakeLast(s: string, n: nat): (r: string)
    ensures |r| == if |s| < n then |s| else n
    ensures r == s[|s| - |r|..]
  {
    if |s| <= n then s else s[|s| - n..]
  }

  /** The pre-context after `text` was recognised: the old pre-context followed
      by the text, cut down to its last 20 characters when it is longer. */
  function UpdatePreContext(pre: string, text: string): (r: string)
    ensures |r| <= PreContextLimit
    ensures |r| == if |pre| + |text| > PreContextLimit then PreContextLimit else |pre| + |text|
    ensures r == (pre + text)[|pre + text| - |r|..]
  {
    if |pre| + |text| > PreContextLimit then TakeLast(pre + text, PreContextLimit)
    else pre + text
  }

  /** The last 20 characters of a history depend only on the last 20 characters
      of its beginning: updating the rolling buffer of `history` with `text`
      gives the rolling buffer of `history + text`. */
  lemma RollingBuffer(history: string, text: string)
    ensures UpdatePreContext(TakeLast(history, PreContextLimit), text)
            == TakeLast(history + text, PreContextLimit)
  {
    var n := PreContextLimit;
    var all := history + text;
    if |history| > n && |text| > 0 {
      var pre := history[|history| - n..];
      assert pre == TakeLast(history, n);
      assert pre + text == all[|history| - n..];
      assert UpdatePreContext(pre, text) == (pre + text)[|text|..];
      assert (pre + text)[|text|..] == all[|history| - n + |text|..];
    } else if |history| > n {
      assert all == history;
    }
  }

  /** Concatenation of everything recognised, in order. */
  function Concat(texts: seq<string>): string
    decreases |texts|
  {
    if |texts| == 0 then "" else Concat(texts[..|texts| - 1]) + texts[|texts| - 1]
  }

  /** The pre-context after a series of recognitions. */
  function PreContextAfter(pre: string, texts: seq<string>): string
    decreases |texts|
  {
    if |texts| == 0 then pre
    else UpdatePreContext(PreContextAfter(pre, texts[..|texts| - 1]), texts[|texts| - 1])
  }

  /** Starting from the empty pre-context, the buffer always holds the last 20
      characters of everything recognised so far. */
  lemma {:induction false} PreContextIsTail(texts: seq<string>)
    ensures PreContextAfter("", texts) == TakeLast(Concat(texts), PreContextLimit)
    ensures |PreContextAfter("", texts)| <= PreContextLimit
    decreases |texts|
  {
    if |texts| > 0 {
      var init := texts[..|texts| - 1];
      PreContextIsTail(init);
      RollingBuffer(Concat(init), texts[|texts| - 1]);
    }
  }

  /** What the recognizer reports back. */
  datatype RecognitionOutcome = Recognized(candidates: seq<Candidate>) | RecognitionFailed

  /** The recognizer's success and failure listeners. `now` stands for the
      clock that stamps the new result's id and timestamp. */
  function OnRecognitionDone(s: InkState, outcome: RecognitionOutcome, now: int): (r: InkState)
    ensures !r.isRecognizing
    // drawing state is untouched
    ensures r.inkStrokes == s.inkStrokes && r.currentStroke == s.currentStroke
    ensures r.isDrawing == s.isDrawing
    // a non-empty candidate list adds exactly one result, at the end, and selects it
    ensures outcome.Recognized? && |outcome.candidates| > 0 ==>
      var top := outcome.candidates[0];
      && |r.results| == |s.results| + 1
      && r.results[..|s.results|] == s.results
      && r.currentResult == Some(r.results[|s.results|])
      && r.results[|s.results|].text == top.text
      && r.results[|s.results|].language == s.selectedLanguage
      && r.results[|s.results|].confidence == Confidence(outcome.candidates)
      && r.preContext == UpdatePreContext(s.preContext, top.text)
    // otherwise only the in-flight flag changes
    ensures outcome.RecognitionFailed? || |outcome.candidates| == 0 ==>
      r == s.(isRecognizing := false)
  {
    var s' := s.(isRecognizing := false);
    match outcome
    case RecognitionFailed => s'
    case Recognized(candidates) =>
      if |candidates| > 0 then
        var top := candidates[0];
        var result := RecognitionResult(now, top.text, Confidence(candidates), s.selectedLanguage, now);
        s'.(results := s.results + [result],
            currentResult := Some(result),
            preContext := UpdatePreContext(s.preContext, top.text))
      else
        s'
  }

  /** The pre-context never outgrows its limit, whatever the recognizer does. */
  lemma PreContextBounded(s: InkState, outcome: RecognitionOutcome, now: int)
    requires |s.preContext| <= PreContextLimit
    ensures |OnRecognitionDone(s, outcome, now).preContext| <= PreContextLimit
  {
  }

  /** Every confidence shown in the history lies in [0, 1]. */
  predicate ConfidencesInRange(results: seq<RecognitionResult>) {
    forall i :: 0 <= i < |results| ==> 0.0 <= results[i].confidence <= 1.0
  }

  lemma {:induction false} ConfidencesStayInRange(s: InkState, outcome: RecognitionOutcome, now: int)
    requires ConfidencesInRange(s.results)
    ensures ConfidencesInRange(OnRecognitionDone(s, outcome, now).results)
  {
    var r := OnRecognitionDone(s, outcome, now);
    if outcome.Recognized? && |outcome.candidates| > 0 {
      forall i | 0 <= i < |r.results| ensures 0.0 <= r.results[i].confidence <= 1.0 {
        if i < |s.results| {
          assert r.results[i] == r.results[..|s.results|][i];
        }
      }
    }
  }
}

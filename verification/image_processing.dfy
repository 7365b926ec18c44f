/** The image-labeling screen: what a labeling run adds to the history, how
    labels and history are ordered for display, the "Top" summary of a
    history card, which card the screen shows, and the colour band of a
    confidence. The labeler's output is an input. */
module ImageProcessing {
  import opened Wrappers
  import Sorting

  /** One label as the labeler reports it. */
  datatype DetectorLabel = DetectorLabel(text: string, confidence: real, index: int)

  datatype ImageLabelInfo = ImageLabelInfo(text: string, confidence: real, index: int)

  datatype LabeledImage = LabeledImage(id: int, imageUri: string, labels: seq<ImageLabelInfo>, timestamp: int)

  datatype ImageState = ImageState(
    labeledImages: seq<LabeledImage>,
    isProcessing: bool,
    selectedImage: Option<LabeledImage>)

  function Initial(): ImageState {
    ImageState([], false, None)
  }

  /** The selection is always one of the images in the history. */
  predicate SelectionInHistory(s: ImageState) {
    s.selectedImage.Some? ==> s.selectedImage.value in s.labeledImages
  }

  function ToLabelInfo(l: DetectorLabel): ImageLabelInfo {
    ImageLabelInfo(l.text, l.confidence, l.index)
  }

  /** The labeler's labels in this app's record type, one for one. */
  function ToLabelInfos(labels: seq<DetectorLabel>): (r: seq<ImageLabelInfo>)
    ensures |r| == |labels|
    ensures forall i :: 0 <= i < |r| ==>
      r[i].text == labels[i].text && r[i].confidence == labels[i].confidence && r[i].index == labels[i].index
  {
    seq(|labels|, i requires 0 <= i < |labels| => ToLabelInfo(labels[i]))
  }

  /** Starting `processImage`. */
  function StartProcessing(s: ImageState): (r: ImageState)
    ensures r.isProcessing && r.labeledImages == s.labeledImages && r.selectedImage == s.selectedImage
  {
    s.(isProcessing := true)
  }

  /** How a labeling run ends: the file could not be read, the labeler failed,
      or it returned labels. */
  datatype LabelOutcome = LoadFailed | LabelerFailed | Labeled(labels: seq<DetectorLabel>)

  /** The end of `processImage`; `now` stamps the new record's id and time. */
  function FinishProcessing(s: ImageState, imageUri: string, outcome: LabelOutcome, now: int): (r: ImageState)
    ensures !r.isProcessing
    ensures outcome.Labeled? ==>
      && |r.labeledImages| == |s.labeledImages| + 1
      && r.labeledImages[..|s.labeledImages|] == s.labeledImages
      && var added := r.labeledImages[|s.labeledImages|];
         && added.imageUri == imageUri
         && added.labels == ToLabelInfos(outcome.labels)
         && r.selectedImage == Some(added)
    ensures !outcome.Labeled? ==>
      r.labeledImages == s.labeledImages && r.selectedImage == s.selectedImage
    ensures SelectionInHistory(s) ==> SelectionInHistory(r)
  {
    match outcome
    case Labeled(labels) =>
      var added := LabeledImage(now, imageUri, ToLabelInfos(labels), now);
      ImageState(s.labeledImages + [added], false, Some(added))
    case _ => s.(isProcessing := false)
  }

  /** Tapping a history card selects it. */
  function SelectImage(s: ImageState, image: LabeledImage): (r: ImageState)
    requires image in s.labeledImages
    ensures SelectionInHistory(r) && r.labeledImages == s.labeledImages
  {
    s.(selectedImage := Some(image))
  }

  // ---------------------------------------------------------------------
  // Ordering and the Top summary
  // ---------------------------------------------------------------------

  function LabelConfidence(l: ImageLabelInfo): real {
    l.confidence
  }

  function ImageTime(i: LabeledImage): real {
    i.timestamp as real
  }

  /** The label list of the selected image: most confident first. */
  function LabelsView(image: LabeledImage): (r: seq<ImageLabelInfo>)
    ensures Sorting.SortedDescending(r, LabelConfidence)
    ensures multiset(r) == multiset(image.labels)
  {
    Sorting.SortDescending(image.labels, LabelConfidence)
  }

  /** The history list: newest first. */
  function HistoryView(s: ImageState): (r: seq<LabeledImage>)
    ensures Sorting.SortedDescending(r, ImageTime)
    ensures multiset(r) == multiset(s.labeledImages)
  {
    Sorting.SortDescending(s.labeledImages, ImageTime)
  }

  /** Kotlin's `joinToString(sep)`. */
  function Join(parts: seq<string>, sep: string): string
    decreases |parts|
  {
    if |parts| == 0 then ""
    else if |parts| == 1 then parts[0]
    else Join(parts[..|parts| - 1], sep) + sep + parts[|parts| - 1]
  }

  function Texts(labels: seq<ImageLabelInfo>): (r: seq<string>)
    ensures |r| == |labels|
    ensures forall i :: 0 <= i < |r| ==> r[i] == labels[i].text
  {
    seq(|labels|, i requires 0 <= i < |labels| => labels[i].text)
  }

  /** The two most confident labels of a history card. */
  function TopLabels(image: LabeledImage): (r: seq<ImageLabelInfo>)
    ensures |r| == if |image.labels| < 2 then |image.labels| else 2
    ensures multiset(r) <= multiset(image.labels)
    ensures forall i, l :: 0 <= i < |r| && l in multiset(image.labels) - multiset(r) ==>
      LabelConfidence(r[i]) >= LabelConfidence(l)
    ensures Sorting.SortedDescending(r, LabelConfidence)
  {
    var sorted := LabelsView(image);
    Sorting.TopOf(image.labels, sorted, LabelConfidence, 2);
    Sorting.Take(sorted, 2)
  }

  /** The "Top: ..." line of a history card: the texts of at most two labels,
      most confident first, separated by ", ". */
  function TopSummary(image: LabeledImage): (r: string)
    ensures |image.labels| == 1 ==> r == image.labels[0].text
    ensures |image.labels| >= 2 ==>
      var top := TopLabels(image);
      r == top[0].text + ", " + top[1].text
  {
    var top := TopLabels(image);
    var texts := Texts(top);
    assert |image.labels| == 1 ==> top[0] == image.labels[0] by {
      if |image.labels| == 1 {
        assert multiset(image.labels) == multiset{image.labels[0]} by {
          assert image.labels == [image.labels[0]];
        }
        assert top[0] in multiset(top);
      }
    }
    assert |top| == 2 ==> Join(texts, ", ") == Join(texts[..1], ", ") + ", " + top[1].text;
    assert |top| == 2 ==> Join(texts[..1], ", ") == top[0].text;
    Join(texts, ", ")
  }

  // ---------------------------------------------------------------------
  // Which card shows
  // ---------------------------------------------------------------------

  datatype LabelsPanel = LabelsCard | NoLabelsHint | HelpCard | NoPanel

  /** The if / else-if chain under the buttons. */
  function Panel(s: ImageState): (r: LabelsPanel)
    ensures r == LabelsCard <==> s.selectedImage.Some? && |s.selectedImage.value.labels| > 0
    ensures r == NoLabelsHint <==> s.selectedImage.Some? && |s.selectedImage.value.labels| == 0
    ensures r == HelpCard ==> !s.isProcessing && |s.labeledImages| == 0
  {
    if s.selectedImage.Some? && |s.selectedImage.value.labels| > 0 then LabelsCard
    else if s.selectedImage.Some? && |s.selectedImage.value.labels| == 0 then NoLabelsHint
    else if !s.isProcessing && |s.labeledImages| == 0 then HelpCard
    else NoPanel
  }

  /** While the selection comes from the history, the help card shows exactly
      when nothing has been processed and nothing is in progress. */
  lemma HelpCardIff(s: ImageState)
    requires SelectionInHistory(s)
    ensures Panel(s) == HelpCard <==> !s.isProcessing && |s.labeledImages| == 0
  {
  }

  /** After a successful run the screen shows either the labels or the
      no-labels hint, never the help card. */
  lemma AfterLabelingShowsResult(s: ImageState, uri: string, labels: seq<DetectorLabel>, now: int)
    ensures var r := FinishProcessing(s, uri, Labeled(labels), now);
            Panel(r) == (if |labels| > 0 then LabelsCard else NoLabelsHint)
  {
  }

  // ---------------------------------------------------------------------
  // Confidence colours
  // ---------------------------------------------------------------------

  datatype ConfidenceColor = Green | LightGreen | Amber | DeepOrange {
    function Argb(): int {
      match this
      case Green => 0xFF38_8E3C
      case LightGreen => 0xFF68_9F38
      case Amber => 0xFFFF_A000
      case DeepOrange => 0xFFFF_7043
    }

    /** Higher is better. */
    function Rank(): int {
      match this
      case Green => 3
      case LightGreen => 2
      case Amber => 1
      case DeepOrange => 0
    }
  }

  /** `getConfidenceColor`: the first band whose lower bound the confidence
      reaches. */
  function GetConfidenceColor(confidence: real): (r: ConfidenceColor)
    ensures r == Green <==> confidence >= 0.8
    ensures r == LightGreen <==> 0.6 <= confidence < 0.8
    ensures r == Amber <==> 0.4 <= confidence < 0.6
    ensures r == DeepOrange <==> confidence < 0.4
  {
    if confidence >= 0.8 then Green
    else if confidence >= 0.6 then LightGreen
    else if confidence >= 0.4 then Amber
    else DeepOrange
  }

  /** A more confident label never gets a worse colour. */
  lemma ColorMonotone(c1: real, c2: real)
    requires c1 <= c2
    ensures GetConfidenceColor(c1).Rank() <= GetConfidenceColor(c2).Rank()
  {
  }

  /** The four colours are distinct. */
  lemma ColorsDistinct(a: ConfidenceColor, b: ConfidenceColor)
    requires a != b
    ensures a.Argb() != b.Argb()
  {
  }
}

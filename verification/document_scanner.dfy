/** The document-scanner screen: turning a scanner result into a scanned
    document, deleting a document, the scanning flag, and the "time ago"
    caption. The scanner activity's result is an input; the clock is a
    parameter. */
module DocumentScanner {
  import opened Wrappers
  import Decimal

  const MinuteMs: int := 60 * 1000
  const HourMs: int := 60 * 60 * 1000
  const DayMs: int := 24 * 60 * 60 * 1000

  datatype ScannedDocument = ScannedDocument(
    id: int, imageUris: seq<string>, pdfUri: Option<string>, pageCount: int, timestamp: int)

  datatype ScannerState = ScannerState(
    scannedDocuments: seq<ScannedDocument>,
    isScanning: bool,
    selectedDocument: Option<ScannedDocument>)

  function Initial(): ScannerState {
    ScannerState([], false, None)
  }

  /** One scanned page; its image may be missing. */
  datatype ScanPage = ScanPage(imageUri: Option<string>)

  datatype ScanPdf = ScanPdf(uri: string, pageCount: int)

  /** What the scanner hands back: the page list and the PDF may each be
      missing. */
  datatype ScanningResult = ScanningResult(pages: Option<seq<ScanPage>>, pdf: Option<ScanPdf>)

  /** The activity result: whether it was RESULT_OK, and the scanning result
      read from its intent, which may be missing. */
  datatype ActivityResult = ActivityResult(resultOk: bool, scanning: Option<ScanningResult>)

  /** The image URIs of the pages that have one, in page order. */
  function PageUris(pages: seq<ScanPage>): (r: seq<string>)
    ensures |r| <= |pages|
    ensures |r| == |pages| <==> forall i :: 0 <= i < |pages| ==> pages[i].imageUri.Some?
    decreases |pages|
  {
    if |pages| == 0 then []
    else
      var init := PageUris(pages[..|pages| - 1]);
      var last := pages[|pages| - 1];
      assert forall i :: 0 <= i < |pages| - 1 ==> pages[..|pages| - 1][i] == pages[i];
      match last.imageUri
      case Some(u) => init + [u]
      case None => init
  }

  /** A URI is collected exactly when some page carries it. */
  lemma {:induction false} PageUrisMembers(pages: seq<ScanPage>, u: string)
    ensures u in PageUris(pages) <==> exists i :: 0 <= i < |pages| && pages[i].imageUri == Some(u)
    decreases |pages|
  {
    if |pages| > 0 {
      var init := pages[..|pages| - 1];
      PageUrisMembers(init, u);
      assert forall i :: 0 <= i < |pages| - 1 ==> init[i] == pages[i];
      if u in PageUris(init) {
        var i :| 0 <= i < |init| && init[i].imageUri == Some(u);
        assert pages[i].imageUri == Some(u);
      }
    }
  }

  /** Collecting URIs page by page respects page order: the URIs of two runs
      of pages are the URIs of the first run followed by those of the second. */
  lemma {:induction false} PageUrisAppend(a: seq<ScanPage>, b: seq<ScanPage>)
    ensures PageUris(a + b) == PageUris(a) + PageUris(b)
    decreases |b|
  {
    if |b| > 0 {
      var b' := b[..|b| - 1];
      var ab := a + b;
      assert ab[..|ab| - 1] == a + b';
      assert ab[|ab| - 1] == b[|b| - 1];
      PageUrisAppend(a, b');
    } else {
      assert a + b == a;
    }
  }

  /** The document built from a scanner result, if it has anything to keep:
      page images are kept only when present; the page count comes from the
      PDF and is 0 without one. */
  function DocumentFrom(result: ScanningResult, now: int): (r: Option<ScannedDocument>)
    ensures var uris := if result.pages.Some? then PageUris(result.pages.value) else [];
            r.Some? <==> |uris| > 0 || result.pdf.Some?
    ensures r.Some? ==>
      && r.value.imageUris == (if result.pages.Some? then PageUris(result.pages.value) else [])
      && r.value.pdfUri == (if result.pdf.Some? then Some(result.pdf.value.uri) else None)
      && r.value.pageCount == (if result.pdf.Some? then result.pdf.value.pageCount else 0)
  {
    var uris := if result.pages.Some? then PageUris(result.pages.value) else [];
    var pdfUri := if result.pdf.Some? then Some(result.pdf.value.uri) else None;
    var pageCount := if result.pdf.Some? then result.pdf.value.pageCount else 0;
    if |uris| > 0 || pdfUri.Some? then
      Some(ScannedDocument(now, uris, pdfUri, pageCount, now))
    else
      None
  }

  /** The scanner launcher's callback. */
  function OnScannerResult(s: ScannerState, result: ActivityResult, now: int): (r: ScannerState)
    ensures !r.isScanning
    ensures r.selectedDocument == s.selectedDocument
    ensures |s.scannedDocuments| <= |r.scannedDocuments| <= |s.scannedDocuments| + 1
    ensures r.scannedDocuments[..|s.scannedDocuments|] == s.scannedDocuments
    ensures |r.scannedDocuments| == |s.scannedDocuments| + 1 <==>
      result.resultOk && result.scanning.Some? && DocumentFrom(result.scanning.value, now).Some?
    ensures |r.scannedDocuments| == |s.scannedDocuments| + 1 ==>
      r.scannedDocuments[|s.scannedDocuments|] == DocumentFrom(result.scanning.value, now).value
  {
    var s' := s.(isScanning := false);
    if result.resultOk && result.scanning.Some? then
      match DocumentFrom(result.scanning.value, now)
      case Some(doc) => s'.(scannedDocuments := s.scannedDocuments + [doc])
      case None => s'
    else
      s'
  }

  /** Starting the scanner raises the flag; a failure to start lowers it. */
  function StartScanner(s: ScannerState): (r: ScannerState)
    ensures r.isScanning && r.scannedDocuments == s.scannedDocuments
  {
    s.(isScanning := true)
  }

  function OnStartFailure(s: ScannerState): (r: ScannerState)
    ensures !r.isScanning && r.scannedDocuments == s.scannedDocuments
    ensures r.selectedDocument == s.selectedDocument
  {
    s.(isScanning := false)
  }

  // ---------------------------------------------------------------------
  // Delete
  // ---------------------------------------------------------------------

  /** Kotlin's `filter { it.id != id }`. */
  function WithoutId(docs: seq<ScannedDocument>, id: int): (r: seq<ScannedDocument>)
    ensures |r| <= |docs|
    ensures forall d :: d in r <==> d in docs && d.id != id
    decreases |docs|
  {
    if |docs| == 0 then []
    else
      var init := WithoutId(docs[..|docs| - 1], id);
      var last := docs[|docs| - 1];
      assert docs == docs[..|docs| - 1] + [last];
      if last.id != id then init + [last] else init
  }

  /** Filtering keeps the relative order of what it keeps. */
  lemma {:induction false} WithoutIdAppend(a: seq<ScannedDocument>, b: seq<ScannedDocument>, id: int)
    ensures WithoutId(a + b, id) == WithoutId(a, id) + WithoutId(b, id)
    decreases |b|
  {
    if |b| > 0 {
      var b' := b[..|b| - 1];
      assert (a + b)[..|a + b| - 1] == a + b';
      WithoutIdAppend(a, b', id);
    } else {
      assert a + b == a;
    }
  }

  /** A list with no document of that id is left as it is. */
  lemma {:induction false} WithoutAbsentId(docs: seq<ScannedDocument>, id: int)
    requires forall i :: 0 <= i < |docs| ==> docs[i].id != id
    ensures WithoutId(docs, id) == docs
    decreases |docs|
  {
    if |docs| > 0 {
      WithoutAbsentId(docs[..|docs| - 1], id);
      assert docs == docs[..|docs| - 1] + [docs[|docs| - 1]];
    }
  }

  /** A document card's delete action: removes every document with the card's
      id and clears the selection when it had that id. */
  function DeleteDocument(s: ScannerState, id: int): (r: ScannerState)
    ensures r.scannedDocuments == WithoutId(s.scannedDocuments, id)
    ensures forall d :: d in r.scannedDocuments <==> d in s.scannedDocuments && d.id != id
    ensures r.selectedDocument.None? <==>
      s.selectedDocument.None? || s.selectedDocument.value.id == id
    ensures r.selectedDocument.Some? ==> r.selectedDocument == s.selectedDocument
    ensures r.isScanning == s.isScanning
  {
    var remaining := WithoutId(s.scannedDocuments, id);
    if s.selectedDocument.Some? && s.selectedDocument.value.id == id then
      s.(scannedDocuments := remaining, selectedDocument := None)
    else
      s.(scannedDocuments := remaining)
  }

  // ---------------------------------------------------------------------
  // Time ago
  // ---------------------------------------------------------------------

  datatype TimeAgo = JustNow | Minutes(n: int) | Hours(n: int) | Days(n: int)

  /** `getTimeAgo`, given `diff = now - timestamp` in milliseconds. */
  function GetTimeAgo(diff: int): (r: TimeAgo)
    ensures r.JustNow? <==> diff < MinuteMs
    ensures r.Minutes? <==> MinuteMs <= diff < HourMs
    ensures r.Hours? <==> HourMs <= diff < DayMs
    ensures r.Days? <==> DayMs <= diff
    ensures r.Minutes? ==> 1 <= r.n <= 59 && r.n * MinuteMs <= diff < (r.n + 1) * MinuteMs
    ensures r.Hours? ==> 1 <= r.n <= 23 && r.n * HourMs <= diff < (r.n + 1) * HourMs
    ensures r.Days? ==> 1 <= r.n && r.n * DayMs <= diff < (r.n + 1) * DayMs
  {
    if diff < MinuteMs then JustNow
    else if diff < HourMs then Minutes(diff / MinuteMs)
    else if diff < DayMs then Hours(diff / HourMs)
    else Days(diff / DayMs)
  }

  /** The caption shown for a bucket. */
  function Caption(t: TimeAgo): (r: string)
    requires !t.JustNow? ==> t.n >= 0
    ensures t.JustNow? <==> r == "just now"
  {
    match t
    case JustNow => "just now"
    case Minutes(n) => Decimal.Render(n) + " minutes ago"
    case Hours(n) => Decimal.Render(n) + " hours ago"
    case Days(n) => Decimal.Render(n) + " days ago"
  }

  /** The caption names the bucket's count: its leading digits read back as
      that count. */
  lemma CaptionCount(diff: int)
    requires diff >= MinuteMs
    ensures var t := GetTimeAgo(diff);
            var digits := Decimal.Render(t.n);
            && Caption(t)[..|digits|] == digits
            && Decimal.Parse(digits) == t.n
  {
    Decimal.ParseRender(GetTimeAgo(diff).n);
  }
}

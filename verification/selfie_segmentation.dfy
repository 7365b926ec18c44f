/** The selfie-segmentation screen: the per-pixel compositing rule that paints
    background over every pixel whose mask confidence is below a threshold,
    the foreground statistics computed from a mask, the mask used when the
    segmenter fails, the downscaling of captured photos, and the info and
    hint conditions. The segmenter's confidences are an input. */
module SelfieSegmentation {
  import opened Wrappers

  /** Longest side a captured photo is scaled to. */
  const MaxDimension: int := 1024
  /** A mask pixel counts as foreground above this confidence. */
  const ForegroundCutoff: real := 0.5
  /** Percentage above which people are reported, and below which the hint shows. */
  const PeopleCutoff: real := 5.0
  const DefaultThreshold: real := 0.9
  /** ARGB of the default sky-blue background. */
  const SkyBlue: int := 0xFF87_CEEB

  /** An ARGB bitmap as a list of rows. */
  datatype Bitmap = Bitmap(width: int, height: int, rows: seq<seq<int>>)

  predicate ValidBitmap(b: Bitmap) {
    && b.width >= 1 && b.height >= 1 && |b.rows| == b.height
    && forall y :: 0 <= y < b.height ==> |b.rows[y]| == b.width
  }

  /** A segmentation mask: one foreground confidence per mask pixel, row-major,
      and the foreground percentage computed from it. */
  datatype MaskData = MaskData(confidences: seq<real>, width: int, height: int, foregroundPercentage: real)

  predicate ValidMask(m: MaskData) {
    m.width >= 1 && m.height >= 1 && |m.confidences| == m.width * m.height
  }

  function PixelAt(b: Bitmap, x: int, y: int): int
    requires ValidBitmap(b) && 0 <= x < b.width && 0 <= y < b.height
  {
    b.rows[y][x]
  }

  lemma RowMajorInBounds(x: int, y: int, w: int, h: int)
    requires 0 <= x < w && 0 <= y < h
    ensures 0 <= y * w + x < w * h
  {
    assert y * w <= (h - 1) * w;
  }

  function Clamp(v: int, lo: int, hi: int): (r: int)
    requires lo <= hi
    ensures lo <= r <= hi
    ensures lo <= v <= hi ==> r == v
  {
    if v < lo then lo else if v > hi then hi else v
  }

  /** The mask column (or row) that bitmap column (or row) `x` reads: `x`
      divided by the bitmap-to-mask scale, truncated, then clamped to the
      mask. */
  function MaskCoord(x: int, size: int, maskSize: int): (r: int)
    requires 0 <= x && size >= 1 && maskSize >= 1
    ensures 0 <= r < maskSize
  {
    Clamp((x * maskSize) / size, 0, maskSize - 1)
  }

  /** Mask coordinates stay inside the mask, so the lookup index
      `maskY * maskWidth + maskX` is inside the confidence buffer. */
  lemma MaskIndexInBounds(m: MaskData, x: int, y: int, w: int, h: int)
    requires ValidMask(m) && 0 <= x && 0 <= y && w >= 1 && h >= 1
    ensures 0 <= MaskCoord(y, h, m.height) * m.width + MaskCoord(x, w, m.width) < |m.confidences|
  {
    RowMajorInBounds(MaskCoord(x, w, m.width), MaskCoord(y, h, m.height), m.width, m.height);
  }

  /** The confidence the mask gives bitmap pixel (x, y). */
  function ConfidenceAt(b: Bitmap, m: MaskData, x: int, y: int): real
    requires ValidBitmap(b) && ValidMask(m) && 0 <= x < b.width && 0 <= y < b.height
  {
    MaskIndexInBounds(m, x, y, b.width, b.height);
    m.confidences[MaskCoord(y, b.height, m.height) * m.width + MaskCoord(x, b.width, m.width)]
  }

  /** A pixel is replaced when its confidence is strictly below the threshold. */
  predicate Replaced(b: Bitmap, m: MaskData, threshold: real, x: int, y: int)
    requires ValidBitmap(b) && ValidMask(m) && 0 <= x < b.width && 0 <= y < b.height
  {
    ConfidenceAt(b, m, x, y) < threshold
  }

  /** What pixel (x, y) of the composite holds. */
  function CompositePixel(b: Bitmap, m: MaskData, background: int, threshold: real, x: int, y: int): int
    requires ValidBitmap(b) && ValidMask(m) && 0 <= x < b.width && 0 <= y < b.height
  {
    if Replaced(b, m, threshold, x, y) then background else PixelAt(b, x, y)
  }

  /** The composite as a value: used to state properties relating several
      composites. */
  function Composite(b: Bitmap, m: MaskData, background: int, threshold: real): (r: Bitmap)
    requires ValidBitmap(b) && ValidMask(m)
    ensures ValidBitmap(r) && r.width == b.width && r.height == b.height
    ensures forall x, y :: 0 <= x < b.width && 0 <= y < b.height ==>
      PixelAt(r, x, y) == (if ConfidenceAt(b, m, x, y) < threshold then background else PixelAt(b, x, y))
  {
    Bitmap(b.width, b.height,
      seq(b.height, y requires 0 <= y < b.height =>
        seq(b.width, x requires 0 <= x < b.width => CompositePixel(b, m, background, threshold, x, y))))
  }

  /** `createSegmentedBitmap`: copies the bitmap and, row by row, paints the
      background colour over every pixel whose mask confidence is below the
      threshold. */
  method CreateSegmentedBitmap(b: Bitmap, m: MaskData, background: int, threshold: real)
    returns (r: Bitmap)
    requires ValidBitmap(b) && ValidMask(m)
    ensures ValidBitmap(r) && r.width == b.width && r.height == b.height
    ensures forall x, y :: 0 <= x < b.width && 0 <= y < b.height ==>
      PixelAt(r, x, y) == (if ConfidenceAt(b, m, x, y) < threshold then background else PixelAt(b, x, y))
  {
    var w := b.width;
    var h := b.height;
    var pixels := b.rows;
    var y := 0;
    while y < h
      invariant 0 <= y <= h
      invariant |pixels| == h
      invariant forall j :: 0 <= j < h ==> |pixels[j]| == w
      invariant forall j, i :: 0 <= j < y && 0 <= i < w ==>
        pixels[j][i] == CompositePixel(b, m, background, threshold, i, j)
      invariant forall j :: y <= j < h ==> pixels[j] == b.rows[j]
    {
      var x := 0;
      while x < w
        invariant 0 <= x <= w
        invariant |pixels| == h
        invariant forall j :: 0 <= j < h ==> |pixels[j]| == w
        invariant forall j, i :: 0 <= j < y && 0 <= i < w ==>
          pixels[j][i] == CompositePixel(b, m, background, threshold, i, j)
        invariant forall i :: 0 <= i < x ==> pixels[y][i] == CompositePixel(b, m, background, threshold, i, y)
        invariant forall i :: x <= i < w ==> pixels[y][i] == b.rows[y][i]
        invariant forall j :: y < j < h ==> pixels[j] == b.rows[j]
      {
        MaskIndexInBounds(m, x, y, w, h);
        var maskX := MaskCoord(x, w, m.width);
        var maskY := MaskCoord(y, h, m.height);
        var confidence := m.confidences[maskY * m.width + maskX];
        if confidence < threshold {
          pixels := pixels[y := pixels[y][x := background]];
        }
        x := x + 1;
      }
      y := y + 1;
    }
    r := Bitmap(w, h, pixels);
  }

  /** The pixels a threshold replaces, as (x, y) pairs. */
  function ReplacedSet(b: Bitmap, m: MaskData, threshold: real): set<(int, int)>
    requires ValidBitmap(b) && ValidMask(m)
  {
    set x, y | 0 <= x < b.width && 0 <= y < b.height && Replaced(b, m, threshold, x, y) :: (x, y)
  }

  /** Raising the threshold can only replace more pixels. */
  lemma ThresholdMonotone(b: Bitmap, m: MaskData, t1: real, t2: real)
    requires ValidBitmap(b) && ValidMask(m) && t1 <= t2
    ensures ReplacedSet(b, m, t1) <= ReplacedSet(b, m, t2)
  {
  }

  /** Compositing again with the same mask, colour and threshold changes
      nothing. */
  lemma CompositeIdempotent(b: Bitmap, m: MaskData, background: int, threshold: real)
    requires ValidBitmap(b) && ValidMask(m)
    ensures var once := Composite(b, m, background, threshold);
            Composite(once, m, background, threshold) == once
  {
    var once := Composite(b, m, background, threshold);
    var twice := Composite(once, m, background, threshold);
    forall y | 0 <= y < b.height ensures twice.rows[y] == once.rows[y] {
      forall x | 0 <= x < b.width ensures twice.rows[y][x] == once.rows[y][x] {
        assert ConfidenceAt(once, m, x, y) == ConfidenceAt(b, m, x, y);
        assert PixelAt(twice, x, y) == PixelAt(once, x, y);
      }
    }
  }

  // ---------------------------------------------------------------------
  // Foreground statistics and the failure fallback
  // ---------------------------------------------------------------------

  /** How many confidences exceed `cutoff`. */
  function CountAbove(s: seq<real>, cutoff: real): (n: nat)
    ensures n <= |s|
    decreases |s|
  {
    if |s| == 0 then 0
    else CountAbove(s[..|s| - 1], cutoff) + (if s[|s| - 1] > cutoff then 1 else 0)
  }

  /** The foreground percentage is 100 times the share of mask pixels above
      0.5, counted over the `width * height` pixels of the mask. */
  method ForegroundPercentage(confidences: seq<real>, width: int, height: int) returns (pct: real)
    requires width >= 1 && height >= 1 && |confidences| == width * height
    ensures pct == 100.0 * (CountAbove(confidences, ForegroundCutoff) as real) / ((width * height) as real)
    ensures 0.0 <= pct <= 100.0
  {
    var foregroundPixels := 0;
    var totalPixels := width * height;
    var i := 0;
    while i < totalPixels
      invariant 0 <= i <= totalPixels
      invariant foregroundPixels == CountAbove(confidences[..i], ForegroundCutoff)
    {
      assert confidences[..i + 1][..i] == confidences[..i];
      if confidences[i] > ForegroundCutoff {
        foregroundPixels := foregroundPixels + 1;
      }
      i := i + 1;
    }
    assert confidences[..totalPixels] == confidences;
    pct := (foregroundPixels as real) / (totalPixels as real) * 100.0;
    PercentInRange(foregroundPixels, totalPixels);
  }

  lemma PercentInRange(count: nat, total: int)
    requires 1 <= total && count <= total
    ensures 0.0 <= (count as real) / (total as real) * 100.0 <= 100.0
    ensures (count as real) / (total as real) * 100.0 == 100.0 * (count as real) / (total as real)
  {
    var q := (count as real) / (total as real);
    assert q * (total as real) == count as real;
    assert q <= 1.0;
  }

  /** The segmenter's success listener: wraps its buffer with the statistics. */
  method OnSegmentationSuccess(confidences: seq<real>, width: int, height: int) returns (m: MaskData)
    requires width >= 1 && height >= 1 && |confidences| == width * height
    ensures ValidMask(m)
    ensures m.confidences == confidences && m.width == width && m.height == height
    ensures 0.0 <= m.foregroundPercentage <= 100.0
  {
    var pct := ForegroundPercentage(confidences, width, height);
    m := MaskData(confidences, width, height, pct);
  }

  /** The segmenter's failure listener: a 1x1 mask holding one zero
      confidence, with no foreground. */
  function FallbackMask(): (m: MaskData)
    ensures ValidMask(m) && m.width == 1 && m.height == 1
    ensures m.foregroundPercentage == 0.0
    ensures forall i :: 0 <= i < |m.confidences| ==> m.confidences[i] == 0.0
  {
    MaskData([0.0], 1, 1, 0.0)
  }

  /** After a segmenter failure every pixel is painted with the background,
      for any positive threshold. */
  lemma FallbackPaintsEverything(b: Bitmap, background: int, threshold: real)
    requires ValidBitmap(b) && threshold > 0.0
    ensures var r := Composite(b, FallbackMask(), background, threshold);
            forall x, y :: 0 <= x < b.width && 0 <= y < b.height ==> PixelAt(r, x, y) == background
  {
    var m := FallbackMask();
    forall x, y | 0 <= x < b.width && 0 <= y < b.height
      ensures ConfidenceAt(b, m, x, y) == 0.0
    {
      MaskIndexInBounds(m, x, y, b.width, b.height);
    }
  }

  // ---------------------------------------------------------------------
  // Info row and hint
  // ---------------------------------------------------------------------

  /** The "Detected People" row reads Yes. */
  predicate DetectedPeople(m: MaskData) {
    m.foregroundPercentage > PeopleCutoff
  }

  /** The hint asking for a clearer photo of a person. */
  predicate ShowNoPersonHint(hasCapturedImage: bool, mask: Option<MaskData>, isProcessing: bool) {
    hasCapturedImage && mask.Some? && mask.value.foregroundPercentage < PeopleCutoff && !isProcessing
  }

  /** The hint and a Yes never show together; at exactly 5% neither shows. */
  lemma PeopleAndHintExclusive(hasCapturedImage: bool, m: MaskData, isProcessing: bool)
    ensures !(DetectedPeople(m) && ShowNoPersonHint(hasCapturedImage, Some(m), isProcessing))
    ensures m.foregroundPercentage == PeopleCutoff ==>
      !DetectedPeople(m) && !ShowNoPersonHint(hasCapturedImage, Some(m), isProcessing)
  {
  }

  /** A failed segmentation always reads No, and shows the hint once
      processing is over. */
  lemma FallbackShowsHint()
    ensures !DetectedPeople(FallbackMask())
    ensures ShowNoPersonHint(true, Some(FallbackMask()), false)
  {
  }

  // ---------------------------------------------------------------------
  // Downscaling captured photos
  // ---------------------------------------------------------------------

  datatype ScaleError = EmptyDimension

  function Min(a: real, b: real): real {
    if a <= b then a else b
  }

  /** The scaled size of a `width` x `height` photo: both sides multiplied by
      `min(1024 / width, 1024 / height)` and truncated. Scaling a side down to
      zero makes the bitmap factory throw. */
  function ScaledSize(width: int, height: int): (r: Result<(int, int), ScaleError>)
    requires width >= 1 && height >= 1
    ensures r.Success? ==>
      && 1 <= r.value.0 <= MaxDimension && 1 <= r.value.1 <= MaxDimension
      && (r.value.0 == MaxDimension || r.value.1 == MaxDimension)
    ensures r.Success? && width >= height ==> r.value.0 == MaxDimension
    ensures r.Success? && height >= width ==> r.value.1 == MaxDimension
    // the longer side becomes 1024, the shorter one its truncated share of 1024
    ensures width >= height ==>
      && (r.Success? <==> height * MaxDimension >= width)
      && (r.Success? ==> r.value == (MaxDimension, height * MaxDimension / width))
    ensures height >= width ==>
      && (r.Success? <==> width * MaxDimension >= height)
      && (r.Success? ==> r.value == (width * MaxDimension / height, MaxDimension))
  {
    var sides := TruncatedSides(width, height);
    ShareBounds(if width >= height then height * 1024 else width * 1024,
                if width >= height then width else height);
    if sides.0 <= 0 || sides.1 <= 0 then Failure(EmptyDimension) else Success(sides)
  }

  /** Both sides multiplied by `min(1024 / width, 1024 / height)` and
      truncated, as Kotlin's `(side * scaleFactor).toInt()` does for
      non-negative values. */
  function TruncatedSides(width: int, height: int): (r: (int, int))
    requires width >= 1 && height >= 1
    ensures width >= height ==> r == (MaxDimension, height * MaxDimension / width)
    ensures height >= width ==> r == (width * MaxDimension / height, MaxDimension)
  {
    var w, h := width as real, height as real;
    var scale := Min(1024.0 / w, 1024.0 / h);
    assert width >= height ==> (w * scale).Floor == 1024 && (h * scale).Floor == height * 1024 / width by {
      if width >= height {
        LongSideScale(width, height);
      }
    }
    assert height >= width ==> (h * scale).Floor == 1024 && (w * scale).Floor == width * 1024 / height by {
      if height >= width {
        LongSideScale(height, width);
        assert scale == 1024.0 / h;
      }
    }
    ((w * scale).Floor, (h * scale).Floor)
  }

  /** A share `n / d` of 1024 with `n <= 1024 * d` is at most 1024, and is at
      least 1 exactly when `n >= d`. */
  lemma ShareBounds(n: int, d: int)
    requires d >= 1 && 0 <= n <= d * 1024
    ensures 0 <= n / d <= 1024
    ensures n / d >= 1 <==> n >= d
  {
    var q, m := n / d, n % d;
    assert n == d * q + m && 0 <= m < d;
    if q >= 1 {
      assert d * q >= d;
    }
    if q == 0 {
      assert n == m;
    }
  }

  lemma ScaledSideBounded(a: real, b: real)
    requires a >= 1.0 && b >= 1.0
    ensures a * Min(1024.0 / a, 1024.0 / b) <= 1024.0
    ensures a >= b ==> a * Min(1024.0 / a, 1024.0 / b) == 1024.0
  {
    assert a * (1024.0 / a) == 1024.0;
    if 1024.0 / b < 1024.0 / a {
      assert b * (1024.0 / b) == 1024.0;
      assert a * (1024.0 / b) < a * (1024.0 / a);
      if a >= b {
        assert (1024.0 / b) * b <= (1024.0 / b) * a;
      }
    }
  }

  /** Scaling by 1024 over the longer side takes that side to exactly 1024
      and the shorter one to its share of 1024, rounded down. */
  lemma LongSideScale(long: int, short: int)
    requires 1 <= short <= long
    ensures Min(1024.0 / (long as real), 1024.0 / (short as real)) == 1024.0 / (long as real)
    ensures ((long as real) * (1024.0 / (long as real))).Floor == 1024
    ensures ((short as real) * (1024.0 / (long as real))).Floor == short * 1024 / long
  {
    var l, sh := long as real, short as real;
    assert 1024.0 / l <= 1024.0 / sh by {
      assert (1024.0 / l) * l == 1024.0 == (1024.0 / sh) * sh;
      assert (1024.0 / sh) * sh <= (1024.0 / sh) * l;
    }
    assert l * (1024.0 / l) == 1024.0;
    assert sh * (1024.0 / l) == ((short * 1024) as real) / l;
    FloorRatio(short * 1024, long);
  }

  /** Truncating an exact quotient of naturals is integer division. */
  lemma FloorRatio(n: int, d: int)
    requires n >= 0 && d >= 1
    ensures ((n as real) / (d as real)).Floor == n / d
  {
    var q, m := n / d, n % d;
    var x := (n as real) / (d as real);
    assert n == q * d + m && 0 <= m < d;
    assert x == (q as real) + (m as real) / (d as real);
    assert 0.0 <= (m as real) / (d as real) < 1.0;
  }

  /** A photo whose sides differ more than 1024-fold loses its short side. */
  lemma ExtremeAspectFails()
    ensures ScaledSize(2048, 1).Failure?
  {
    assert Min(1024.0 / 2048.0, 1024.0 / 1.0) == 0.5;
  }

  // ---------------------------------------------------------------------
  // Screen state
  // ---------------------------------------------------------------------

  datatype SelfieState = SelfieState(
    bitmap: Option<Bitmap>,
    mask: Option<MaskData>,
    cached: Option<Bitmap>,
    isProcessing: bool,
    background: int,
    threshold: real)

  predicate ValidState(s: SelfieState) {
    && (s.bitmap.Some? ==> ValidBitmap(s.bitmap.value))
    && (s.mask.Some? ==> ValidMask(s.mask.value))
  }

  /** The cached composite is the composite of the current bitmap and mask with
      the current colour and threshold. */
  predicate CacheCurrent(s: SelfieState)
    requires ValidState(s)
  {
    s.bitmap.Some? && s.mask.Some? ==>
      s.cached == Some(Composite(s.bitmap.value, s.mask.value, s.background, s.threshold))
  }

  /** The segmentation callback: keeps the mask, precomputes the composite
      and ends processing. */
  function OnSegmented(s: SelfieState, scaled: Bitmap, m: MaskData): (r: SelfieState)
    requires ValidBitmap(scaled) && ValidMask(m) && ValidState(s)
    ensures ValidState(r) && !r.isProcessing && r.mask == Some(m)
    ensures r.bitmap == Some(scaled) ==> CacheCurrent(r)
  {
    s.(mask := Some(m), cached := Some(Composite(scaled, m, s.background, s.threshold)), isProcessing := false)
  }

  /** Changing the colour or the threshold recomputes the composite when there
      is a bitmap and a mask. */
  function OnSettingsChanged(s: SelfieState, background: int, threshold: real): (r: SelfieState)
    requires ValidState(s)
    ensures ValidState(r) && CacheCurrent(r)
    ensures r.background == background && r.threshold == threshold
    ensures r.bitmap == s.bitmap && r.mask == s.mask && r.isProcessing == s.isProcessing
  {
    var s' := s.(background := background, threshold := threshold);
    if s.bitmap.Some? && s.mask.Some? then
      s'.(cached := Some(Composite(s.bitmap.value, s.mask.value, background, threshold)))
    else
      s'
  }
}

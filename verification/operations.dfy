/** The seven preprocessing operations of the registry. Every OpenCV call is
    opaque: it is named by a `Call` value carrying the arguments the operation
    derives, and evaluated by the `Kernels` record. What is modelled is the
    operations' own logic: parameter defaults, clamps and odd-size rules,
    identity short-circuits, the skew-angle decisions, the per-sample rules of
    normalisation blending, unsharp masking and Sauvola binarisation, and the
    progress fractions each operation reports. */
module Operations {
  import opened Wrappers
  import opened Values
  import opened Registry

  /** One channel of samples, row-major. */
  type Plane = seq<int>

  /** A numpy image: its shape, and its channels as `cv2.split` would return
      them (a 2-D array is one plane). */
  datatype Image = Image(shape: seq<nat>, planes: seq<Plane>)

  /** The OpenCV calls whose pixel arithmetic is not modelled, with the
      arguments the operations pass. */
  datatype Call =
    | BgrToGray
    | BgrToLab
    | LabToBgr
    | GaussianBlur(ksize: int, sigma: real)
    | Bilateral(diameter: int, sigmaColor: real, sigmaSpace: real)
    | NonLocalMeans(h: real, templateWindow: int, searchWindow: int)
    | NonLocalMeansColored(h: real, templateWindow: int, searchWindow: int)
    | WarpAffine(angle: real, centerX: int, centerY: int, width: int, height: int)
    | AdaptiveGaussian(blockSize: int, bias: int)
    | Otsu

  /** Box-filtered local statistics of one sample: the window mean of the
      samples and the window mean of their squares. */
  datatype Moments = Moments(mean: real, meanOfSquares: real)

  /** OpenCV and numpy routines, left uninterpreted. An OpenCV call either
      returns an image or raises `cv2.error` for an input it does not
      accept (a channel count it does not support, say). */
  datatype Kernels = Kernels(
    apply: (Call, Image) -> Result<Image, string>,
    stretch: Plane -> Plane,                          // cv2.normalize(NORM_MINMAX, 0, 255) on one channel
    equalize: (Plane, real, int) -> Plane,            // CLAHE(clipLimit, tile grid) applied to one channel
    contourAngle: Image -> Option<real>,              // minAreaRect angle of the largest external contour
    houghAngle: Image -> Option<real>,                // median near-horizontal HoughLinesP segment angle
    localMoments: (Image, int) -> seq<seq<Moments>>,  // cv2.blur of the samples and of their squares
    sqrt: real -> real)

  /** The message of the `TypeError` raised when a parameter cannot take part
      in arithmetic (the exact Python wording is not modelled). */
  function TypeError(key: string): string {
    "TypeError: unsupported operand for parameter '" + key + "'"
  }

  const ShapeMismatch: string := "error: input sizes do not match"
  const EmptyArray: string := "ValueError: zero-size array has no minimum"
  const NotEnoughDims: string := "ValueError: not enough values to unpack"

  // ------------------------------------------------------------------
  // normalize
  // ------------------------------------------------------------------

  predicate Constant(ch: Plane) {
    forall i, j :: 0 <= i < |ch| && 0 <= j < |ch| ==> ch[i] == ch[j]
  }

  predicate EightBit(ch: Plane) {
    forall i :: 0 <= i < |ch| ==> 0 <= ch[i] <= 255
  }

  function PlaneMin(ch: Plane): (m: int)
    requires |ch| > 0
    ensures m in ch
    ensures forall i :: 0 <= i < |ch| ==> m <= ch[i]
  {
    if |ch| == 1 then ch[0]
    else
      var rest := PlaneMin(ch[1..]);
      assert forall i :: 1 <= i < |ch| ==> ch[i] == ch[1..][i - 1];
      Min(ch[0], rest)
  }

  function PlaneMax(ch: Plane): (m: int)
    requires |ch| > 0
    ensures m in ch
    ensures forall i :: 0 <= i < |ch| ==> ch[i] <= m
  {
    if |ch| == 1 then ch[0]
    else
      var rest := PlaneMax(ch[1..]);
      assert forall i :: 1 <= i < |ch| ==> ch[i] == ch[1..][i - 1];
      Max(ch[0], rest)
  }

  /** `addWeighted(x, 1 - s, y, s, 0)` on one sample, before the cast. */
  function BlendValue(x: int, y: int, s: real): real {
    (1.0 - s) * x as real + s * y as real
  }

  /** `addWeighted(x, 1 - s, y, s, 0).astype(uint8)` on one sample: the
      float is truncated toward zero and wrapped into a byte. */
  function BlendSample(x: int, y: int, s: real): (r: int)
    ensures 0 <= r <= 255
  {
    Trunc(BlendValue(x, y, s)) % 256
  }

  /** A blend of two bytes with weights in [0, 1] lies between them, so
      the cast to uint8 does not wrap. */
  lemma BlendBetween(x: int, y: int, s: real)
    requires 0.0 <= s <= 1.0 && 0 <= x <= 255 && 0 <= y <= 255
    ensures (if x <= y then x else y) <= BlendSample(x, y, s) <= (if x <= y then y else x)
  {
    BlendValueBetween(x, y, s);
    var t := Trunc(BlendValue(x, y, s));
    if x <= y {
      TruncBetween(BlendValue(x, y, s), x, y);
    } else {
      TruncBetween(BlendValue(x, y, s), y, x);
    }
    assert 0 <= t < 256;
    assert BlendSample(x, y, s) == t % 256 == t;
  }

  lemma BlendValueBetween(x: int, y: int, s: real)
    requires 0.0 <= s <= 1.0
    ensures x <= y ==> x as real <= BlendValue(x, y, s) <= y as real
    ensures y < x ==> y as real <= BlendValue(x, y, s) <= x as real
  {
    var d := (y - x) as real;
    BlendShift(x as real, y as real, s);
    assert BlendValue(x, y, s) == x as real + s * d;
    ScaledBetween(s, d);
  }

  /** Truncation keeps a value between two integers that enclose it. */
  lemma TruncBetween(v: real, lo: int, hi: int)
    requires lo as real <= v <= hi as real
    ensures lo <= Trunc(v) <= hi
  {
  }

  /** Weights (1 - s, s) move x by the fraction s of the way to y. */
  lemma BlendShift(x: real, y: real, s: real)
    ensures (1.0 - s) * x + s * y == x + s * (y - x)
  {
    calc {
      (1.0 - s) * x + s * y;
      x - s * x + s * y;
      x + s * (y - x);
    }
  }

  /** Strength 0 leaves a byte unchanged. */
  lemma BlendZero(x: int, y: int)
    requires 0 <= x <= 255
    ensures BlendSample(x, y, 0.0) == x
  {
    BlendShift(x as real, y as real, 0.0);
  }

  lemma ScaledBetween(s: real, d: real)
    requires 0.0 <= s <= 1.0
    ensures d >= 0.0 ==> 0.0 <= s * d <= d
    ensures d < 0.0 ==> d <= s * d <= 0.0
  {
    if d >= 0.0 {
      assert s * d <= 1.0 * d;
    } else {
      assert s * (-d) <= 1.0 * (-d);
    }
  }

  /** A channel is constant exactly when its minimum is its maximum. */
  lemma ConstantIffFlat(ch: Plane)
    requires |ch| > 0
    ensures Constant(ch) <==> PlaneMin(ch) == PlaneMax(ch)
  {
    if PlaneMin(ch) == PlaneMax(ch) {
      forall i, j | 0 <= i < |ch| && 0 <= j < |ch| ensures ch[i] == ch[j] {
        assert PlaneMin(ch) <= ch[i] <= PlaneMax(ch) && PlaneMin(ch) <= ch[j] <= PlaneMax(ch);
      }
    } else {
      var a :| 0 <= a < |ch| && ch[a] == PlaneMin(ch);
      var b :| 0 <= b < |ch| && ch[b] == PlaneMax(ch);
      assert ch[a] != ch[b];
    }
  }

  /** The stretched channel blended sample by sample into the original. */
  function Blend(ch: Plane, full: Plane, s: real): (r: Plane)
    requires |full| == |ch|
    ensures |r| == |ch|
    ensures forall i :: 0 <= i < |ch| ==> r[i] == BlendSample(ch[i], full[i], s)
  {
    seq(|ch|, i requires 0 <= i < |ch| => BlendSample(ch[i], full[i], s))
  }

  /** At strength 0 the blend gives an 8-bit channel back. */
  lemma BlendNothing(ch: Plane, full: Plane)
    requires |full| == |ch| && EightBit(ch)
    ensures Blend(ch, full, 0.0) == ch
  {
    forall i | 0 <= i < |ch| ensures Blend(ch, full, 0.0)[i] == ch[i] {
      BlendZero(ch[i], full[i]);
    }
  }

  /** `_normalize_channel`: min-max stretch of one channel, blended with the
      original by `strength`. */
  function NormalizeChannel(k: Kernels, ch: Plane, s: real): (r: Result<Plane, string>)
    ensures |ch| == 0 ==> r == Failure(EmptyArray)
    ensures |ch| > 0 && Constant(ch) ==> r == Success(ch)
    ensures |ch| > 0 && !Constant(ch) && s >= 1.0 ==> r == Success(k.stretch(ch))
    ensures |ch| > 0 && !Constant(ch) && s < 1.0 && |k.stretch(ch)| != |ch| ==> r == Failure(ShapeMismatch)
    ensures |ch| > 0 && !Constant(ch) && s < 1.0 && |k.stretch(ch)| == |ch| ==>
      r.Success? && |r.value| == |ch| &&
      forall i :: 0 <= i < |ch| ==> r.value[i] == BlendSample(ch[i], k.stretch(ch)[i], s)
    ensures r.Success? && s == 0.0 && EightBit(ch) ==> r.value == ch
  {
    if |ch| == 0 then Failure(EmptyArray)
    else
      ConstantIffFlat(ch);
      if PlaneMin(ch) == PlaneMax(ch) then Success(ch)
      else
        var full := k.stretch(ch);
        if s >= 1.0 then Success(full)
        else if |full| != |ch| then Failure(ShapeMismatch)
        else
          assert EightBit(ch) ==> Blend(ch, full, 0.0) == ch by {
            if EightBit(ch) { BlendNothing(ch, full); }
          }
          Success(Blend(ch, full, s))
  }

  /** With a strength in [0, 1], normalising an 8-bit channel whose stretch
      is 8-bit gives an 8-bit channel, every sample between its original
      and stretched values. */
  lemma NormalizeStaysInRange(k: Kernels, ch: Plane, s: real)
    requires 0.0 <= s <= 1.0 && EightBit(ch) && EightBit(k.stretch(ch))
    ensures NormalizeChannel(k, ch, s).Success? ==> EightBit(NormalizeChannel(k, ch, s).value)
    ensures NormalizeChannel(k, ch, s).Success? && s < 1.0 && !Constant(ch) ==>
      forall i :: 0 <= i < |ch| ==>
        var lo := if ch[i] <= k.stretch(ch)[i] then ch[i] else k.stretch(ch)[i];
        var hi := if ch[i] <= k.stretch(ch)[i] then k.stretch(ch)[i] else ch[i];
        lo <= NormalizeChannel(k, ch, s).value[i] <= hi
  {
    if |ch| > 0 && !Constant(ch) && s < 1.0 && |k.stretch(ch)| == |ch| {
      forall i | 0 <= i < |ch|
        ensures var y := k.stretch(ch)[i];
          (if ch[i] <= y then ch[i] else y) <= BlendSample(ch[i], y, s) <= (if ch[i] <= y then y else ch[i])
      {
        BlendBetween(ch[i], k.stretch(ch)[i], s);
      }
    }
  }

  /** A negative strength pushes the blend below 0, and the cast to uint8
      wraps it: black blended against white at strength -1 becomes 1. */
  lemma NegativeStrengthWraps()
    ensures BlendValue(0, 255, -1.0) == -255.0
    ensures BlendSample(0, 255, -1.0) == 1
  {
  }

  /** The channel loop of the colour path: channel `i` is announced with
      fraction 0.2 + 0.25 i before it is normalised. */
  function NormalizeEach(k: Kernels, planes: seq<Plane>, s: real, i: nat): (r: OpRun<seq<Plane>>)
    requires i <= |planes|
    ensures |r.reports| <= |planes| - i
    ensures forall j :: 0 <= j < |r.reports| ==> r.reports[j] == 0.2 + ((i + j) as real) * 0.25
    ensures r.result.Success? ==> |r.result.value| == |planes| - i && |r.reports| == |planes| - i
    ensures r.result.Success? ==>
      forall j :: i <= j < |planes| ==> NormalizeChannel(k, planes[j], s) == Success(r.result.value[j - i])
    ensures r.result.Failure? ==> exists j :: i <= j < |planes| && NormalizeChannel(k, planes[j], s).Failure?
    decreases |planes| - i
  {
    if i == |planes| then OpRun(Success([]), [])
    else
      var f := 0.2 + (i as real) * 0.25;
      match NormalizeChannel(k, planes[i], s)
      case Failure(e) => OpRun(Failure(e), [f])
      case Success(p) =>
        var rest := NormalizeEach(k, planes, s, i + 1);
        OpRun(if rest.result.Success? then Success([p] + rest.result.value) else rest.result, [f] + rest.reports)
  }

  /** The `strength` parameter as a blend weight, `strength / 100`. */
  function Weight(params: Params): Option<real> {
    match Number(params, "strength", 50.0)
    case None => None
    case Some(pct) => Some(pct / 100.0)
  }

  /** The reports of the colour path stay paced while there are at most
      four channels: channel 3 is announced at 0.95. */
  lemma ChannelReportsPaced(reports: seq<real>)
    requires forall j :: 0 <= j < |reports| ==> reports[j] == 0.2 + (j as real) * 0.25
    ensures |reports| <= 4 ==> Paced([0.1] + reports) && Paced([0.1] + reports + [1.0])
  {
    var shown := [0.1] + reports;
    assert forall j :: 0 <= j < |shown| ==> shown[j] == if j == 0 then 0.1 else 0.2 + ((j - 1) as real) * 0.25;
    var done := shown + [1.0];
    assert forall j :: 0 <= j < |shown| ==> done[j] == shown[j];
  }

  /** `normalize_image`. */
  function NormalizeOp(k: Kernels, img: Image, params: Params): (r: OpRun<Image>)
    ensures Completes(r)
    ensures |img.shape| == 2 || |img.planes| <= 4 ==> Paced(r.reports)
    ensures Weight(params).None? ==> r.result.Failure? && r.reports == [0.1]
    ensures r.result.Success? ==>
      Weight(params).Some? && r.result.value.shape == img.shape && |r.result.value.planes| == |img.planes|
    ensures r.result.Success? ==>
      forall j :: 0 <= j < |img.planes| ==>
        NormalizeChannel(k, img.planes[j], Weight(params).value) == Success(r.result.value.planes[j])
  {
    match Weight(params)
    case None => OpRun(Failure(TypeError("strength")), [0.1])
    case Some(s) =>
      var each := NormalizeEach(k, img.planes, s, 0);
      ChannelReportsPaced(each.reports);
      var shown := if |img.shape| == 2 then [0.1] else [0.1] + each.reports;
      match each.result
      case Failure(e) => OpRun(Failure(e), shown)
      case Success(ps) => OpRun(Success(Image(img.shape, ps)), shown + [1.0])
  }

  /** The colour path announces channel i at 0.2 + 0.25 i, so an image
      with five or more channels that all normalise reports 1.2 before
      its fifth channel, past the end of the progress range. */
  lemma NormalizeReportsPastOne(k: Kernels, img: Image, params: Params)
    requires |img.shape| != 2 && |img.planes| >= 5 && Weight(params).Some?
    requires forall j :: 0 <= j < |img.planes| ==> NormalizeChannel(k, img.planes[j], Weight(params).value).Success?
    ensures var r := NormalizeOp(k, img, params);
      |r.reports| > 5 && r.reports[5] == 1.2 && !Paced(r.reports)
  {
    var each := NormalizeEach(k, img.planes, Weight(params).value, 0);
    assert each.result.Success?;
    assert each.reports[4] == 1.2;
    var r := NormalizeOp(k, img, params);
    assert r.reports[5] == each.reports[4];
  }

  // ------------------------------------------------------------------
  // grayscale
  // ------------------------------------------------------------------

  function Product(dims: seq<nat>): nat {
    if |dims| == 0 then 1 else dims[0] * Product(dims[1..])
  }

  /** `ndarray.squeeze()`: drops every axis of length one. */
  function Squeeze(shape: seq<nat>): (r: seq<nat>)
    ensures forall d :: d in r <==> d in shape && d != 1
    ensures Product(r) == Product(shape)
    ensures |r| <= |shape|
  {
    if |shape| == 0 then []
    else
      var rest := Squeeze(shape[1..]);
      assert forall d :: d in shape <==> d == shape[0] || d in shape[1..];
      if shape[0] == 1 then rest else [shape[0]] + rest
  }

  /** The image is grayscale already: 2-D, or 3-D with one channel. */
  predicate SingleChannel(img: Image) {
    |img.shape| == 2 || (|img.shape| == 3 && img.shape[2] == 1)
  }

  /** `to_grayscale`. Only a colour conversion can fail, when OpenCV
      rejects the image (a channel count other than 3 or 4, or a 1-D
      array); the failure comes after the 0.2 report. */
  function GrayscaleOp(k: Kernels, img: Image): (r: OpRun<Image>)
    ensures Completes(r) && Paced(r.reports)
    ensures r.result.Success? ==> r.reports == [0.2, 1.0]
    ensures r.result.Failure? ==> r.reports == [0.2] && !SingleChannel(img) && r.result == k.apply(BgrToGray, img)
    ensures |img.shape| == 2 ==> r.result == Success(img)
    ensures |img.shape| == 3 && img.shape[2] == 1 ==>
      r.result.Success? && r.result.value.planes == img.planes && 1 !in r.result.value.shape &&
      Product(r.result.value.shape) == Product(img.shape)
    ensures !SingleChannel(img) ==> r.result == k.apply(BgrToGray, img)
  {
    if |img.shape| == 2 then OpRun(Success(img), [0.2, 1.0])
    else if |img.shape| == 3 && img.shape[2] == 1 then OpRun(Success(Image(Squeeze(img.shape), img.planes)), [0.2, 1.0])
    else
      match k.apply(BgrToGray, img)
      case Failure(e) => OpRun(Failure(e), [0.2])
      case Success(g) => OpRun(Success(g), [0.2, 1.0])
  }

  /** Converting to grayscale twice is converting once, whenever the first
      conversion gives a 2-D image: always for a single-channel (h, w, 1)
      image with h and w other than 1. */
  lemma GrayscaleIdempotent(k: Kernels, img: Image)
    ensures var once := GrayscaleOp(k, img).result;
      once.Success? && |once.value.shape| == 2 ==> GrayscaleOp(k, once.value).result == once
    ensures |img.shape| == 3 && img.shape[2] == 1 && img.shape[0] != 1 && img.shape[1] != 1 ==>
      |GrayscaleOp(k, img).result.value.shape| == 2
  {
    if |img.shape| == 3 && img.shape[2] == 1 && img.shape[0] != 1 && img.shape[1] != 1 {
      var s := img.shape;
      assert s[1..][1..][1..] == [];
      assert Squeeze(s[1..][1..]) == [];
      assert Squeeze(s[1..]) == [s[1]];
    }
  }

  // ------------------------------------------------------------------
  // deskew
  // ------------------------------------------------------------------

  /** `_detect_skew_contour`'s folding of the minAreaRect angle. */
  function FoldRectAngle(a: real): (r: real)
    ensures -90.0 <= a <= 90.0 ==> -45.0 <= r <= 45.0
    ensures r == a || r == a + 90.0 || r == a - 90.0
    ensures -45.0 <= a <= 45.0 ==> r == a
  {
    if a < -45.0 then a + 90.0 else if a > 45.0 then a - 90.0 else a
  }

  function ContourSkew(k: Kernels, gray: Image): Option<real> {
    match k.contourAngle(gray)
    case None => None
    case Some(a) => Some(FoldRectAngle(a))
  }

  /** The contour estimate is rejected when missing or larger than the limit. */
  predicate NeedsFallback(contour: Option<real>, maxAngle: real) {
    contour.None? || Abs(contour.value) > maxAngle
  }

  /** The angle `deskew_image` rotates by: the contour estimate, else the
      Hough estimate, else 0, clamped to [-maxAngle, maxAngle]. */
  function SkewAngle(contour: Option<real>, hough: Option<real>, maxAngle: real): (r: real)
    ensures maxAngle >= 0.0 ==> -maxAngle <= r <= maxAngle
    ensures !NeedsFallback(contour, maxAngle) ==> r == contour.value
    ensures NeedsFallback(contour, maxAngle) && hough.Some? && Abs(hough.value) <= maxAngle ==> r == hough.value
    ensures NeedsFallback(contour, maxAngle) && hough.None? && maxAngle >= 0.0 ==> r == 0.0
  {
    var chosen := if NeedsFallback(contour, maxAngle) then hough else contour;
    var a := if chosen.None? then 0.0 else chosen.value;
    ClampReal(-maxAngle, maxAngle, a)
  }

  /** The image the skew estimators look at: colour images are converted,
      which OpenCV may refuse. */
  function GrayView(k: Kernels, img: Image): Result<Image, string> {
    if |img.shape| == 3 then k.apply(BgrToGray, img) else Success(img)
  }

  /** The Hough estimate, consulted only when the contour estimate is rejected. */
  function HoughIfNeeded(k: Kernels, gray: Image, maxAngle: real): Option<real> {
    if NeedsFallback(ContourSkew(k, gray), maxAngle) then k.houghAngle(gray) else None
  }

  /** The angle `deskew_image` settles on for a gray view and a numeric
      `maxAngle`. */
  function DeskewAngle(k: Kernels, gray: Image, maxAngle: real): real {
    SkewAngle(ContourSkew(k, gray), HoughIfNeeded(k, gray, maxAngle), maxAngle)
  }

  /** The rotation about the image centre `deskew_image` applies. */
  function Rotation(angle: real, shape: seq<nat>): Call
    requires |shape| >= 2
  {
    WarpAffine(angle, shape[1] / 2, shape[0] / 2, shape[1], shape[0])
  }

  /** The fractions `deskew_image` reports, in order; 0.4 only when the
      Hough estimator runs. */
  function DeskewScript(fallback: bool): (script: seq<real>)
    ensures Paced(script) && |script| == (if fallback then 5 else 4) && script[|script| - 1] == 1.0
  {
    if fallback then [0.1, 0.2, 0.4, 0.6, 1.0] else [0.1, 0.2, 0.6, 1.0]
  }

  /** `deskew_image`. The Hough estimator only runs (and only reports 0.4)
      when the contour estimate is rejected. */
  function DeskewOp(k: Kernels, img: Image, params: Params): (r: OpRun<Image>)
    ensures Completes(r) && Paced(r.reports)
    ensures GrayView(k, img).Failure? ==> r == OpRun(Failure(GrayView(k, img).error), [0.1])
    ensures Number(params, "maxAngle", 15.0).None? ==> r.result.Failure?
    ensures GrayView(k, img).Success? && Number(params, "maxAngle", 15.0).Some? ==>
      var angle := DeskewAngle(k, GrayView(k, img).value, Number(params, "maxAngle", 15.0).value);
      (Abs(angle) < 0.1 ==> r.result == Success(img)) &&
      (Abs(angle) >= 0.1 ==>
        r.result == if |img.shape| < 2 then Failure(NotEnoughDims) else k.apply(Rotation(angle, img.shape), img))
  {
    match GrayView(k, img)
    case Failure(e) => OpRun(Failure(e), [0.1])
    case Success(gray) =>
    var contour := ContourSkew(k, gray);
    var maxAngle := Number(params, "maxAngle", 15.0);
    if contour.Some? && maxAngle.None? then
      // `abs(angle) > max_angle` raises
      OpRun(Failure(TypeError("maxAngle")), Upto(DeskewScript(false), 2))
    else
      var fallback := contour.None? || NeedsFallback(contour, maxAngle.value);
      var script := DeskewScript(fallback);
      match maxAngle
      case None =>
        // `-max_angle` raises
        OpRun(Failure(TypeError("maxAngle")), Upto(script, |script| - 2))
      case Some(m) =>
        var angle := DeskewAngle(k, gray, m);
        if Abs(angle) < 0.1 then OpRun(Success(img), Upto(script, |script|))
        else if |img.shape| < 2 then OpRun(Failure(NotEnoughDims), Upto(script, |script| - 1))
        else
          match k.apply(Rotation(angle, img.shape), img)
          case Failure(e) => OpRun(Failure(e), Upto(script, |script| - 1))
          case Success(rotated) => OpRun(Success(rotated), Upto(script, |script|))
  }

  // ------------------------------------------------------------------
  // denoise
  // ------------------------------------------------------------------

  /** The filter `denoise_image` runs for a choice and a strength, or
      `None` when the strength does not convert: bilateral needs `int()`
      and multiplication, Gaussian only `int()` (which also reads integer
      text), non-local means a comparison with ints. */
  function DenoiseCall(choice: Value, strength: Value, colour: bool): (c: Option<Call>)
    ensures choice == Str("bilateral") ==> (c.Some? <==> AsNumber(strength).Some?)
    ensures choice == Str("bilateral") && c.Some? ==>
      c.value.Bilateral? && 5 <= c.value.diameter <= 15 &&
      c.value.sigmaColor == c.value.sigmaSpace == AsNumber(strength).value * 7.5
    ensures choice == Str("gaussian") ==> (c.Some? <==> IntOf(strength).Some?)
    ensures choice == Str("gaussian") && c.Some? ==>
      c.value.GaussianBlur? && c.value.ksize % 2 == 1 && c.value.ksize >= 3 &&
      (IntOf(strength).value >= 3 ==> 0 <= c.value.ksize - IntOf(strength).value <= 1)
    ensures choice != Str("bilateral") && choice != Str("gaussian") ==> (c.Some? <==> AsNumber(strength).Some?)
    ensures choice != Str("bilateral") && choice != Str("gaussian") && c.Some? ==>
      (if colour then c.value.NonLocalMeansColored? else c.value.NonLocalMeans?) &&
      c.value.templateWindow == 7 && c.value.searchWindow == 21 && 3.0 <= c.value.h <= 30.0 &&
      (3.0 <= AsNumber(strength).value <= 30.0 ==> c.value.h == AsNumber(strength).value)
  {
    if choice == Str("bilateral") then
      match AsNumber(strength)
      case None => None
      case Some(s) => Some(Bilateral(ClampInt(5, 15, Trunc(s)), s * 7.5, s * 7.5))
    else if choice == Str("gaussian") then
      match IntOf(strength)
      case None => None
      case Some(n) => Some(GaussianBlur(OddAtLeast3(n), 0.0))
    else
      match AsNumber(strength)
      case None => None
      case Some(s) =>
        var h := ClampReal(3.0, 30.0, s);
        Some(if colour then NonLocalMeansColored(h, 7, 21) else NonLocalMeans(h, 7, 21))
  }

  /** `img.astype(np.uint8)` on integer samples: each one wraps modulo 256. */
  function AsBytes(img: Image): (r: Image)
    ensures r.shape == img.shape && SameLayout(img.planes, r.planes)
    ensures forall i, j :: 0 <= i < |img.planes| && 0 <= j < |img.planes[i]| ==>
      r.planes[i][j] == img.planes[i][j] % 256
    ensures EightBitImage(r)
  {
    Image(img.shape, seq(|img.planes|, i requires 0 <= i < |img.planes| =>
      seq(|img.planes[i]|, j requires 0 <= j < |img.planes[i]| => img.planes[i][j] % 256)))
  }

  /** The cast changes nothing on an image that already holds bytes. */
  lemma AsBytesKeepsBytes(img: Image)
    requires EightBitImage(img)
    ensures AsBytes(img) == img
  {
    var r := AsBytes(img);
    forall i | 0 <= i < |img.planes| ensures r.planes[i] == img.planes[i] {
      assert EightBit(img.planes[i]);
    }
    assert r.planes == img.planes;
  }

  /** `denoise_image`: a strength that does not convert fails after the
      0.2 report; otherwise the filter decides, on the image cast to
      bytes, and OpenCV may refuse it (a bilateral filter on four
      channels, for one). */
  function DenoiseOp(k: Kernels, img: Image, params: Params): (r: OpRun<Image>)
    ensures Completes(r) && Paced(r.reports)
    ensures var call := DenoiseCall(Get(params, "method", Str("nlm")), Get(params, "strength", Int(10)), |img.shape| == 3);
      (call.None? ==> r.result.Failure? && r.reports == [0.1, 0.2]) &&
      (call.Some? ==> r.result == k.apply(call.value, AsBytes(img)))
  {
    match DenoiseCall(Get(params, "method", Str("nlm")), Get(params, "strength", Int(10)), |img.shape| == 3)
    case None => OpRun(Failure(TypeError("strength")), [0.1, 0.2])
    case Some(call) =>
      match k.apply(call, AsBytes(img))
      case Failure(e) => OpRun(Failure(e), [0.1, 0.2])
      case Success(out) => OpRun(Success(out), [0.1, 0.2, 1.0])
  }

  /** Gaussian denoising reads the strength with `int()`, so integer text
      acts as the integer, while a bilateral filter multiplies it and
      refuses text. */
  lemma DenoiseStrengthText(k: Kernels, img: Image, n: int)
    ensures DenoiseOp(k, img, map["method" := Str("gaussian"), "strength" := Str(IntText(n))])
         == DenoiseOp(k, img, map["method" := Str("gaussian"), "strength" := Int(n)])
    ensures DenoiseOp(k, img, map["method" := Str("bilateral"), "strength" := Str(IntText(n))]).result.Failure?
  {
    IntTextRoundTrip(n);
    var text := map["method" := Str("gaussian"), "strength" := Str(IntText(n))];
    var num := map["method" := Str("gaussian"), "strength" := Int(n)];
    assert Get(text, "method", Str("nlm")) == Str("gaussian") == Get(num, "method", Str("nlm"));
    assert IntOf(Get(text, "strength", Int(10))) == Some(n) == IntOf(Get(num, "strength", Int(10)));
    var bil := map["method" := Str("bilateral"), "strength" := Str(IntText(n))];
    assert Get(bil, "method", Str("nlm")) == Str("bilateral");
    assert AsNumber(Get(bil, "strength", Int(10))).None?;
  }

  // ------------------------------------------------------------------
  // contrast
  // ------------------------------------------------------------------

  /** The fractions `clahe_contrast` reports; 0.5 only on the colour path. */
  function ContrastScript(colour: bool): (script: seq<real>)
    ensures Paced(script) && |script| == (if colour then 4 else 3) && script[|script| - 1] == 1.0
  {
    if colour then [0.1, 0.3, 0.5, 1.0] else [0.1, 0.3, 1.0]
  }

  /** The CLAHE tile grid size: `max(2, min(16, int(tileSize)))`, or
      `None` when `int()` raises. */
  function TileSize(params: Params): (r: Option<int>)
    ensures r.Some? <==> IntOf(Get(params, "tileSize", Int(8))).Some?
    ensures r.Some? ==> 2 <= r.value <= 16
    ensures r.Some? && 2 <= IntOf(Get(params, "tileSize", Int(8))).value <= 16 ==>
      r.value == IntOf(Get(params, "tileSize", Int(8))).value
  {
    match IntOf(Get(params, "tileSize", Int(8)))
    case None => None
    case Some(n) => Some(ClampInt(2, 16, n))
  }

  /** CLAHE on every plane of a grayscale image. */
  function EqualizeAll(k: Kernels, planes: seq<Plane>, clip: real, tile: int): (r: seq<Plane>)
    ensures |r| == |planes| && forall i :: 0 <= i < |planes| ==> r[i] == k.equalize(planes[i], clip, tile)
  {
    seq(|planes|, i requires 0 <= i < |planes| => k.equalize(planes[i], clip, tile))
  }

  /** `clahe_contrast`. The tile size is read first (`int()` may raise),
      then `createCLAHE` needs a numeric clip limit. Colour images are
      equalised on the L channel of LAB only; the two chrominance channels
      are passed back untouched. */
  function ContrastOp(k: Kernels, img: Image, params: Params): (r: OpRun<Image>)
    ensures Completes(r) && Paced(r.reports)
    ensures TileSize(params).None? || Number(params, "clipLimit", 2.0).None? ==>
      r.result.Failure? && r.reports == [0.1]
    ensures TileSize(params).Some? && Number(params, "clipLimit", 2.0).Some? ==>
      var clip := Number(params, "clipLimit", 2.0).value;
      var tile := TileSize(params).value;
      (|img.shape| == 2 ==> r.result == Success(Image(img.shape, EqualizeAll(k, img.planes, clip, tile)))) &&
      (|img.shape| != 2 ==>
        match k.apply(BgrToLab, img)
        case Failure(e) => r.result == Failure(e)
        case Success(lab) =>
          (|lab.planes| != 3 ==> r.result == Failure(NotEnoughDims)) &&
          (|lab.planes| == 3 ==>
            r.result == k.apply(LabToBgr, Image(lab.shape, [k.equalize(lab.planes[0], clip, tile), lab.planes[1], lab.planes[2]]))))
  {
    match (TileSize(params), Number(params, "clipLimit", 2.0))
    case (None, _) => OpRun(Failure(TypeError("tileSize")), Upto(ContrastScript(false), 1))
    case (_, None) => OpRun(Failure(TypeError("clipLimit")), Upto(ContrastScript(false), 1))
    case (Some(tile), Some(clip)) =>
      if |img.shape| == 2 then
        OpRun(Success(Image(img.shape, EqualizeAll(k, img.planes, clip, tile))), Upto(ContrastScript(false), 3))
      else
        match k.apply(BgrToLab, img)
        case Failure(e) => OpRun(Failure(e), Upto(ContrastScript(true), 2))
        case Success(lab) =>
          if |lab.planes| != 3 then OpRun(Failure(NotEnoughDims), Upto(ContrastScript(true), 2))
          else
            var l := k.equalize(lab.planes[0], clip, tile);
            match k.apply(LabToBgr, Image(lab.shape, [l, lab.planes[1], lab.planes[2]]))
            case Failure(e) => OpRun(Failure(e), Upto(ContrastScript(true), 3))
            case Success(out) => OpRun(Success(out), Upto(ContrastScript(true), 4))
  }

  /** Only the clamped tile size matters: a tile size beyond [2, 16] acts
      as the nearest bound, and integer text acts as the integer. */
  lemma ContrastTileClamped(k: Kernels, img: Image, params: Params, n: int)
    ensures ContrastOp(k, img, params["tileSize" := Int(n)]) == ContrastOp(k, img, params["tileSize" := Int(ClampInt(2, 16, n))])
    ensures ContrastOp(k, img, params["tileSize" := Str(IntText(n))]) == ContrastOp(k, img, params["tileSize" := Int(n)])
  {
    IntTextRoundTrip(n);
    assert TileSize(params["tileSize" := Int(n)]) == TileSize(params["tileSize" := Int(ClampInt(2, 16, n))]);
    assert TileSize(params["tileSize" := Str(IntText(n))]) == TileSize(params["tileSize" := Int(n)]);
    assert Number(params["tileSize" := Int(n)], "clipLimit", 2.0) == Number(params, "clipLimit", 2.0);
    assert Number(params["tileSize" := Int(ClampInt(2, 16, n))], "clipLimit", 2.0) == Number(params, "clipLimit", 2.0);
    assert Number(params["tileSize" := Str(IntText(n))], "clipLimit", 2.0) == Number(params, "clipLimit", 2.0);
  }

  // ------------------------------------------------------------------
  // sharpen
  // ------------------------------------------------------------------

  function Clip255(v: real): (r: real)
    ensures 0.0 <= r <= 255.0
  {
    if v < 0.0 then 0.0 else if v > 255.0 then 255.0 else v
  }

  /** The unsharp mask on one sample: `clip(x (1 + a) - b a, 0, 255)` cast to uint8. */
  function SharpenSample(x: int, blurred: int, amount: real): (r: int)
    ensures 0 <= r <= 255
    ensures 0 <= x <= 255 && x == blurred ==> r == x
  {
    Trunc(Clip255(x as real * (1.0 + amount) - blurred as real * amount))
  }

  predicate SameLayout(a: seq<Plane>, b: seq<Plane>) {
    |a| == |b| && forall i :: 0 <= i < |a| ==> |a[i]| == |b[i]|
  }

  function SharpenPlanes(a: seq<Plane>, b: seq<Plane>, amount: real): (r: seq<Plane>)
    requires SameLayout(a, b)
    ensures SameLayout(a, r)
    ensures forall i, j :: 0 <= i < |a| && 0 <= j < |a[i]| ==> r[i][j] == SharpenSample(a[i][j], b[i][j], amount)
  {
    seq(|a|, i requires 0 <= i < |a| =>
      seq(|a[i]|, j requires 0 <= j < |a[i]| => SharpenSample(a[i][j], b[i][j], amount)))
  }

  /** The Gaussian kernel size `max(3, int(radius * 2) | 1)`. */
  function SharpenKernel(radius: real): (ksize: int)
    ensures ksize % 2 == 1 && ksize >= 3
  {
    OddAtLeast3(Trunc(radius * 2.0))
  }

  /** `int(radius * 2)` on a text radius repeats the text, so "1" reads as
      11 while "-1" becomes the unreadable "-1-1". When it reads, the
      kernel size is computed and only the blur refuses the text sigma. */
  predicate DoubledTextReads(v: Value) {
    v.Str? && ParseInt(v.s + v.s).Some?
  }

  /** The fractions `sharpen_image` reports when it filters. */
  function SharpenScript(): (script: seq<real>)
    ensures Paced(script) && |script| == 4 && script[3] == 1.0 && script[0] == 0.1
  {
    [0.1, 0.3, 0.6, 1.0]
  }

  /** `sharpen_image`. */
  function SharpenOp(k: Kernels, img: Image, params: Params): (r: OpRun<Image>)
    ensures Completes(r) && Paced(r.reports)
    ensures Number(params, "amount", 50.0).None? ==> r.result.Failure?
    ensures Number(params, "amount", 50.0).Some? && Number(params, "amount", 50.0).value <= 0.0 ==>
      r.result == Success(img)
    ensures Number(params, "amount", 50.0).Some? && Number(params, "amount", 50.0).value > 0.0 ==>
      (Number(params, "radius", 1.0).None? ==>
        r.result.Failure? && r.reports == if DoubledTextReads(params["radius"]) then [0.1, 0.3] else [0.1]) &&
      (Number(params, "radius", 1.0).Some? ==>
        var a := Number(params, "amount", 50.0).value / 100.0;
        var radius := Number(params, "radius", 1.0).value;
        match k.apply(GaussianBlur(SharpenKernel(radius), radius), img)
        case Failure(e) => r.result == Failure(e)
        case Success(blurred) =>
          (img.shape == blurred.shape && SameLayout(img.planes, blurred.planes) ==>
            r.result == Success(Image(img.shape, SharpenPlanes(img.planes, blurred.planes, a)))) &&
          (img.shape != blurred.shape || !SameLayout(img.planes, blurred.planes) ==>
            r.result == Failure(ShapeMismatch)))
  {
    match Number(params, "amount", 50.0)
    case None => OpRun(Failure(TypeError("amount")), Upto(SharpenScript(), 1))
    case Some(pct) =>
      var a := pct / 100.0;
      if a <= 0.0 then OpRun(Success(img), Upto(SharpenScript(), 1) + [1.0])
      else
        match Number(params, "radius", 1.0)
        case None =>
          var reached := if DoubledTextReads(params["radius"]) then 2 else 1;
          OpRun(Failure(TypeError("radius")), Upto(SharpenScript(), reached))
        case Some(radius) =>
          match k.apply(GaussianBlur(SharpenKernel(radius), radius), img)
          case Failure(e) => OpRun(Failure(e), Upto(SharpenScript(), 2))
          case Success(blurred) =>
            if img.shape != blurred.shape || !SameLayout(img.planes, blurred.planes) then
              OpRun(Failure(ShapeMismatch), Upto(SharpenScript(), 3))
            else
              OpRun(Success(Image(img.shape, SharpenPlanes(img.planes, blurred.planes, a))), Upto(SharpenScript(), 4))
  }

  /** A radius given as digit text gets past `int(radius * 2)` and the
      0.3 report before the blur refuses it; negative text does not read
      once doubled and fails at once. */
  lemma {:induction false} SharpenTextRadius(k: Kernels, img: Image, params: Params, m: nat)
    requires Number(params, "amount", 50.0).Some? && Number(params, "amount", 50.0).value > 0.0
    ensures var r := SharpenOp(k, img, params["radius" := Str(DecimalString(m))]);
      r.result.Failure? && r.reports == [0.1, 0.3]
    ensures var r := SharpenOp(k, img, params["radius" := Str("-" + DecimalString(m))]);
      r.result.Failure? && r.reports == [0.1]
  {
    var d := DecimalString(m);
    forall i | 0 <= i < |d + d| ensures IsDigit((d + d)[i]) {
      if i < |d| { assert (d + d)[i] == d[i]; } else { assert (d + d)[i] == d[i - |d|]; }
    }
    assert DoubledTextReads(Str(d));
    var t := ("-" + d) + ("-" + d);
    assert t[1..][|d|] == '-';
    assert !IsDigit(t[0]);
    assert !DoubledTextReads(Str("-" + d));
    assert Number(params["radius" := Str(d)], "amount", 50.0) == Number(params, "amount", 50.0);
    assert Number(params["radius" := Str("-" + d)], "amount", 50.0) == Number(params, "amount", 50.0);
  }

  /** Every plane of the image holds bytes. */
  predicate EightBitImage(img: Image) {
    forall i :: 0 <= i < |img.planes| ==> EightBit(img.planes[i])
  }

  /** Unsharp masking leaves an 8-bit image alone where blurring does:
      with no high-frequency part there is nothing to add back. */
  lemma SharpenKeepsBlurFixedPoint(k: Kernels, img: Image, params: Params)
    requires EightBitImage(img)
    requires Number(params, "radius", 1.0).Some?
    requires var radius := Number(params, "radius", 1.0).value;
      k.apply(GaussianBlur(SharpenKernel(radius), radius), img) == Success(img)
    ensures Number(params, "amount", 50.0).Some? ==> SharpenOp(k, img, params).result == Success(img)
  {
    if Number(params, "amount", 50.0).Some? && Number(params, "amount", 50.0).value > 0.0 {
      var a := Number(params, "amount", 50.0).value / 100.0;
      var planes := SharpenPlanes(img.planes, img.planes, a);
      assert SameLayout(img.planes, img.planes);
      forall i | 0 <= i < |img.planes| ensures planes[i] == img.planes[i] {
        forall j | 0 <= j < |img.planes[i]| ensures planes[i][j] == img.planes[i][j] {
          assert EightBit(img.planes[i]);
        }
      }
      assert planes == img.planes;
    }
  }

  // ------------------------------------------------------------------
  // threshold
  // ------------------------------------------------------------------

  /** Sauvola's threshold `T = mean (1 + k (std / R - 1))` with R = 128. */
  function SauvolaThreshold(mean: real, std: real, k: real): real {
    mean * (1.0 + k * (std / 128.0 - 1.0))
  }

  /** For non-negative k and mean, more local contrast can only raise T. */
  lemma SauvolaMonotone(mean: real, k: real, std1: real, std2: real)
    requires mean >= 0.0 && k >= 0.0 && std1 <= std2
    ensures SauvolaThreshold(mean, std1, k) <= SauvolaThreshold(mean, std2, k)
  {
    assert k * (std1 / 128.0 - 1.0) <= k * (std2 / 128.0 - 1.0);
  }

  /** `np.maximum(sq_mean - mean ** 2, 0)`. */
  function Variance(m: Moments): (v: real)
    ensures v >= 0.0 && v >= m.meanOfSquares - m.mean * m.mean
    ensures m.meanOfSquares - m.mean * m.mean >= 0.0 ==> v == m.meanOfSquares - m.mean * m.mean
  {
    if m.meanOfSquares - m.mean * m.mean < 0.0 then 0.0 else m.meanOfSquares - m.mean * m.mean
  }

  /** One output sample of `_sauvola_threshold`: 255 exactly when the gray
      value exceeds the local threshold. */
  function SauvolaSample(sqrt: real -> real, g: int, m: Moments, k: real): (r: int)
    ensures r == 255 <==> g as real > SauvolaThreshold(m.mean, sqrt(Variance(m)), k)
    ensures r == 0 || r == 255
  {
    if g as real > SauvolaThreshold(m.mean, sqrt(Variance(m)), k) then 255 else 0
  }

  predicate Matches(planes: seq<Plane>, stats: seq<seq<Moments>>) {
    |planes| == |stats| && forall i :: 0 <= i < |planes| ==> |planes[i]| == |stats[i]|
  }

  function SauvolaPlanes(sqrt: real -> real, planes: seq<Plane>, stats: seq<seq<Moments>>, k: real): (r: seq<Plane>)
    requires Matches(planes, stats)
    ensures SameLayout(planes, r)
    ensures forall i, j :: 0 <= i < |planes| && 0 <= j < |planes[i]| ==>
      r[i][j] == SauvolaSample(sqrt, planes[i][j], stats[i][j], k)
  {
    seq(|planes|, i requires 0 <= i < |planes| =>
      seq(|planes[i]|, j requires 0 <= j < |planes[i]| => SauvolaSample(sqrt, planes[i][j], stats[i][j], k)))
  }

  /** The fractions `threshold_image` reports; on the Sauvola path the
      middle three come from `_sauvola_threshold`. */
  function ThresholdScript(sauvola: bool): (script: seq<real>)
    ensures Paced(script) && |script| == (if sauvola then 6 else 3) && script[|script| - 1] == 1.0
  {
    if sauvola then [0.1, 0.3, 0.4, 0.7, 0.9, 1.0] else [0.1, 0.3, 1.0]
  }

  /** `k` as numpy takes it in `k * (std / R - 1.0)`: a number, or a list
      holding one number, which broadcasts over the image like that
      number. Anything else fails. */
  function SauvolaK(v: Value): (r: Option<real>)
    ensures !v.List? ==> r == AsNumber(v)
    ensures v.List? && |v.items| == 1 ==> r == AsNumber(v.items[0])
    ensures v.List? && |v.items| != 1 ==> r.None?
  {
    match v
    case List(xs) => if |xs| == 1 then AsNumber(xs[0]) else None
    case _ => AsNumber(v)
  }

  /** `_sauvola_threshold`, with its own progress reports 0.4, 0.7 and 0.9. */
  function SauvolaOp(k: Kernels, gray: Image, window: int, kValue: Value): (r: OpRun<Image>)
    ensures 1 <= |r.reports| <= 3 && (r.result.Success? ==> |r.reports| == 3)
    ensures forall i :: 0 <= i < |r.reports| ==> r.reports[i] == ThresholdScript(true)[i + 2]
    ensures r.result.Success? ==>
      var stats := k.localMoments(gray, window);
      SauvolaK(kValue).Some? && Matches(gray.planes, stats) &&
      r.result.value == Image(gray.shape, SauvolaPlanes(k.sqrt, gray.planes, stats, SauvolaK(kValue).value))
    ensures Matches(gray.planes, k.localMoments(gray, window)) && SauvolaK(kValue).Some? ==> r.result.Success?
  {
    var stats := k.localMoments(gray, window);
    var own := ThresholdScript(true)[2..5];
    if !Matches(gray.planes, stats) then OpRun(Failure(ShapeMismatch), own[..1])
    else
      match SauvolaK(kValue)
      case None => OpRun(Failure(TypeError("k")), own[..2])
      case Some(kv) => OpRun(Success(Image(gray.shape, SauvolaPlanes(k.sqrt, gray.planes, stats, kv))), own)
  }

  /** A one-element list of k binarises exactly as k itself. */
  lemma SauvolaSingletonK(k: Kernels, gray: Image, window: int, x: Value)
    requires !x.List?
    ensures SauvolaOp(k, gray, window, List([x])) == SauvolaOp(k, gray, window, x)
  {
  }

  /** The block size `max(3, int(blockSize) | 1)`, or `None` when `int()`
      raises. */
  function BlockSize(params: Params): (r: Option<int>)
    ensures r.Some? <==> IntOf(Get(params, "blockSize", Int(15))).Some?
    ensures r.Some? ==> r.value % 2 == 1 && r.value >= 3
    ensures r.Some? && IntOf(Get(params, "blockSize", Int(15))).value >= 3 ==>
      0 <= r.value - IntOf(Get(params, "blockSize", Int(15))).value <= 1
  {
    match IntOf(Get(params, "blockSize", Int(15)))
    case None => None
    case Some(n) => Some(OddAtLeast3(n))
  }

  /** `threshold_image`. Any choice other than "adaptive" and "sauvola" is
      Otsu. Colour input is converted to gray first, which OpenCV may
      refuse. */
  function ThresholdOp(k: Kernels, img: Image, params: Params): (r: OpRun<Image>)
    ensures Completes(r) && Paced(r.reports)
    ensures BlockSize(params).None? ==> r.result.Failure? && r.reports == [0.1]
    ensures BlockSize(params).Some? ==>
      var block := BlockSize(params).value;
      var choice := Get(params, "method", Str("otsu"));
      match GrayView(k, img)
      case Failure(e) => r.result == Failure(e) && r.reports == [0.1]
      case Success(gray) =>
        (choice == Str("adaptive") ==> r.result == k.apply(AdaptiveGaussian(block, 8), gray)) &&
        (choice == Str("sauvola") ==> r.result == SauvolaOp(k, gray, block, Get(params, "k", Float(0.5))).result) &&
        (choice != Str("adaptive") && choice != Str("sauvola") ==> r.result == k.apply(Otsu, gray))
  {
    var choice := Get(params, "method", Str("otsu"));
    match BlockSize(params)
    case None => OpRun(Failure(TypeError("blockSize")), Upto(ThresholdScript(false), 1))
    case Some(block) =>
      match GrayView(k, img)
      case Failure(e) => OpRun(Failure(e), Upto(ThresholdScript(false), 1))
      case Success(gray) =>
        if choice == Str("sauvola") then
          // 0.1 and 0.3, then Sauvola's own reports, then 1.0 if it returned
          var sv := SauvolaOp(k, gray, block, Get(params, "k", Float(0.5)));
          OpRun(sv.result, Upto(ThresholdScript(true), 2 + |sv.reports| + (if sv.result.Success? then 1 else 0)))
        else
          var call := if choice == Str("adaptive") then AdaptiveGaussian(block, 8) else Otsu;
          match k.apply(call, gray)
          case Failure(e) => OpRun(Failure(e), Upto(ThresholdScript(false), 2))
          case Success(out) => OpRun(Success(out), Upto(ThresholdScript(false), 3))
  }

  /** `| 1` makes the block size odd: an even size acts as the next odd
      one, and integer text acts as the integer. */
  lemma ThresholdBlockOdd(k: Kernels, img: Image, params: Params, m: int)
    requires m >= 1
    ensures ThresholdOp(k, img, params["blockSize" := Int(2 * m)]) == ThresholdOp(k, img, params["blockSize" := Int(2 * m + 1)])
    ensures ThresholdOp(k, img, params["blockSize" := Str(IntText(m))]) == ThresholdOp(k, img, params["blockSize" := Int(m)])
  {
    IntTextRoundTrip(m);
    assert BlockSize(params["blockSize" := Int(2 * m)]) == BlockSize(params["blockSize" := Int(2 * m + 1)]);
    assert BlockSize(params["blockSize" := Str(IntText(m))]) == BlockSize(params["blockSize" := Int(m)]);
    assert Get(params["blockSize" := Int(2 * m)], "method", Str("otsu")) == Get(params, "method", Str("otsu"));
    assert Get(params["blockSize" := Int(2 * m + 1)], "method", Str("otsu")) == Get(params, "method", Str("otsu"));
    assert Get(params["blockSize" := Str(IntText(m))], "method", Str("otsu")) == Get(params, "method", Str("otsu"));
    assert Get(params["blockSize" := Int(m)], "method", Str("otsu")) == Get(params, "method", Str("otsu"));
    assert Get(params["blockSize" := Int(2 * m)], "k", Float(0.5)) == Get(params, "k", Float(0.5));
    assert Get(params["blockSize" := Int(2 * m + 1)], "k", Float(0.5)) == Get(params, "k", Float(0.5));
    assert Get(params["blockSize" := Str(IntText(m))], "k", Float(0.5)) == Get(params, "k", Float(0.5));
    assert Get(params["blockSize" := Int(m)], "k", Float(0.5)) == Get(params, "k", Float(0.5));
  }

  // ------------------------------------------------------------------
  // dispatch
  // ------------------------------------------------------------------

  /** The AttributeError every operation but grayscale raises, right
      after its first report, when its parameters are not a dictionary. */
  function NoGet(params: Value): string {
    "'" + TypeName(params) + "' object has no attribute 'get'"
  }

  /** Invoke a registered operation on the parameters the executor passes:
      grayscale ignores them, the others call `.get` on them. */
  function Apply(k: Kernels, op: Operation, img: Image, params: Value): (r: OpRun<Image>)
    ensures Completes(r)
    ensures |img.shape| == 2 || |img.planes| <= 4 ==> Paced(r.reports)
    ensures op == Grayscale ==> r == GrayscaleOp(k, img)
    ensures op != Grayscale && !params.Dict? ==> r == OpRun(Failure(NoGet(params)), [0.1])
  {
    if op == Grayscale then GrayscaleOp(k, img)
    else if !params.Dict? then OpRun(Failure(NoGet(params)), [0.1])
    else
      match op
      case Normalize => NormalizeOp(k, img, params.fields)
      case Deskew => DeskewOp(k, img, params.fields)
      case Denoise => DenoiseOp(k, img, params.fields)
      case Contrast => ContrastOp(k, img, params.fields)
      case Sharpen => SharpenOp(k, img, params.fields)
      case Threshold => ThresholdOp(k, img, params.fields)
  }

  /** The operation oracle the pipeline executor calls, by registry name. */
  function RunNamed(k: Kernels, name: string, img: Image, params: Value): (r: OpRun<Image>)
    ensures !IsOperation(name) ==> r.result.Failure? && r.reports == []
    ensures IsOperation(name) ==> r == Apply(k, GetOperation(name).value, img, params)
    ensures Completes(r)
  {
    match GetOperation(name)
    case None => OpRun(Failure("Unknown operation: " + name), [])
    case Some(op) => Apply(k, op, img, params)
  }
}

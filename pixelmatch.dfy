/**
 * The comparison entry point of lib/index.ts (pixelmatch; dist/index.js calls
 * it match): it validates the buffers, merges the caller's options over the
 * defaults, takes a fast path when the two images hold the same bytes, and
 * otherwise sweeps the frame row by row, counting the pixels whose colour
 * distance exceeds the threshold and that neither image excuses as
 * anti-aliasing, and painting the diff image as it goes.
 *
 * The count and the painted bytes are specified by pure functions (Outcome,
 * Drawn) over a per-pixel verdict (Classify); the method Match is proved
 * against them, and the lemmas at the end state what the source promises
 * about them.
 */
module Pixelmatch {
  import opened Wrappers
  import opened Raster
  import opened ColorMetric
  import opened AntiAliasing
  import opened Painter
  import opened Sweep

  /** The two published builds of the class; they differ only in the default threshold. */
  datatype Build = Lib | Dist

  /** A complete set of options. */
  datatype Options = Options(threshold: real, includeAA: bool, alpha: real,
                             aaColor: Color, diffColor: Color, diffMask: bool)

  /** The options a caller passes; any of them may be missing. */
  datatype PartialOptions = PartialOptions(threshold: Option<real>, includeAA: Option<bool>, alpha: Option<real>,
                                           aaColor: Option<Color>, diffColor: Option<Color>, diffMask: Option<bool>)

  const NoOptions := PartialOptions(None, None, None, None, None, None)

  /** The class's default options: a threshold of 0.005 (0.1 in the dist build), yellow anti-aliasing, red differences. */
  function Defaults(build: Build): (o: Options)
    ensures 0.0 < o.threshold <= 1.0 && 0.0 <= o.alpha <= 1.0
    ensures !o.includeAA && !o.diffMask
  {
    Options(if build == Lib then 0.005 else 0.1, false, 0.1, Color(255.0, 255.0, 0.0), Color(255.0, 0.0, 0.0), false)
  }

  /** Object.assign({}, defaults, options): each option the caller gives overrides the default. */
  function Merge(base: Options, given: PartialOptions): (o: Options)
    ensures given.threshold.Some? ==> o.threshold == given.threshold.value
    ensures given.threshold.None? ==> o.threshold == base.threshold
    ensures given.includeAA.Some? ==> o.includeAA == given.includeAA.value
    ensures given.includeAA.None? ==> o.includeAA == base.includeAA
    ensures given.alpha.Some? ==> o.alpha == given.alpha.value
    ensures given.alpha.None? ==> o.alpha == base.alpha
    ensures given.aaColor.Some? ==> o.aaColor == given.aaColor.value
    ensures given.aaColor.None? ==> o.aaColor == base.aaColor
    ensures given.diffColor.Some? ==> o.diffColor == given.diffColor.value
    ensures given.diffColor.None? ==> o.diffColor == base.diffColor
    ensures given.diffMask.Some? ==> o.diffMask == given.diffMask.value
    ensures given.diffMask.None? ==> o.diffMask == base.diffMask
  {
    Options(given.threshold.GetOr(base.threshold), given.includeAA.GetOr(base.includeAA),
            given.alpha.GetOr(base.alpha), given.aaColor.GetOr(base.aaColor),
            given.diffColor.GetOr(base.diffColor), given.diffMask.GetOr(base.diffMask))
  }

  /** Passing no options leaves the defaults; passing all of them ignores the defaults. */
  lemma MergeExtremes(base: Options, base': Options, o: Options)
    ensures Merge(base, NoOptions) == base
    ensures var all := PartialOptions(Some(o.threshold), Some(o.includeAA), Some(o.alpha),
                                      Some(o.aaColor), Some(o.diffColor), Some(o.diffMask));
      Merge(base, all) == o && Merge(base', all) == o
  {
  }

  /** The dist build behaves as the lib build with a default threshold of 0.1. */
  lemma DistIsLib(given: PartialOptions)
    ensures Merge(Defaults(Dist), given) == Merge(Defaults(Lib), given.(threshold := Some(given.threshold.GetOr(0.1))))
  {
  }

  /** An image buffer: the kind of typed array and its bytes. */
  datatype Image = Image(kind: ElementKind, data: seq<Byte>)

  /** What the validation sees of the output buffer. */
  datatype Target = Target(kind: ElementKind, length: int)

  /** The three errors the entry point throws. */
  datatype MatchError =
    | BadPixelData       // 'Image data: Uint8Array, Uint8ClampedArray or Buffer expected.'
    | SizeMismatch       // 'Image sizes do not match.'
    | DimensionMismatch  // 'Image data size does not match width/height.'

  predicate PixelData(img1: Image, img2: Image, output: Option<Target>) {
    img1.kind != NotPixelData && img2.kind != NotPixelData && (output.Some? ==> output.value.kind != NotPixelData)
  }

  predicate SameSizes(img1: Image, img2: Image, output: Option<Target>) {
    |img1.data| == |img2.data| && (output.Some? ==> output.value.length == |img1.data|)
  }

  /**
   * The validation, in the source's order: each error is reported exactly when
   * its condition fails and every earlier one held, and a buffer set that
   * passes fits the frame.
   */
  function Check(img1: Image, img2: Image, output: Option<Target>, width: int, height: int): (e: Option<MatchError>)
    ensures e == Some(BadPixelData) <==> !PixelData(img1, img2, output)
    ensures e == Some(SizeMismatch) <==> PixelData(img1, img2, output) && !SameSizes(img1, img2, output)
    ensures e == Some(DimensionMismatch) <==>
      PixelData(img1, img2, output) && SameSizes(img1, img2, output) && |img1.data| != 4 * Area(width, height)
    ensures e == None ==>
      Fits(img1.data, width, height) && Fits(img2.data, width, height) &&
      (output.Some? ==> output.value.length == |img1.data|)
  {
    AreaValue(width, height);
    if img1.kind == NotPixelData || img2.kind == NotPixelData || (output.Some? && output.value.kind == NotPixelData) then
      Some(BadPixelData)
    else if |img1.data| != |img2.data| || (output.Some? && output.value.length != |img1.data|) then
      Some(SizeMismatch)
    else if |img1.data| != 4 * Area(width, height) then
      Some(DimensionMismatch)
    else
      None
  }

  /** Swapping the two images does not change the validation. */
  lemma CheckSymmetric(img1: Image, img2: Image, output: Option<Target>, width: int, height: int)
    ensures Check(img1, img2, output, width, height) == Check(img2, img1, output, width, height)
  {
  }

  /** The i-th element of a Uint32Array view of the buffer: the four bytes of pixel i, least significant first. */
  function Word(img: seq<Byte>, i: int): int
    requires 0 <= i && 4 * i + 4 <= |img|
  {
    var b0, b1, b2, b3: int := img[4 * i], img[4 * i + 1], img[4 * i + 2], img[4 * i + 3];
    b0 + 256 * (b1 + 256 * (b2 + 256 * b3))
  }

  lemma Digits(a: Byte, b: int, c: Byte, d: int)
    requires a + 256 * b == c + 256 * d
    ensures a == c && b == d
  {
  }

  /** Two 32-bit words are equal exactly when the pixels they view are. */
  lemma WordsEqual(img1: seq<Byte>, img2: seq<Byte>, i: int)
    requires 0 <= i && 4 * i + 4 <= |img1| && 4 * i + 4 <= |img2|
    ensures Word(img1, i) == Word(img2, i) <==> PixelAt(img1, 4 * i) == PixelAt(img2, 4 * i)
  {
    if Word(img1, i) == Word(img2, i) {
      var a1, a2, a3: int := img1[4 * i + 1], img1[4 * i + 2], img1[4 * i + 3];
      var c1, c2, c3: int := img2[4 * i + 1], img2[4 * i + 2], img2[4 * i + 3];
      Digits(img1[4 * i], a1 + 256 * (a2 + 256 * a3), img2[4 * i], c1 + 256 * (c2 + 256 * c3));
      Digits(img1[4 * i + 1], a2 + 256 * a3, img2[4 * i + 1], c2 + 256 * c3);
      Digits(img1[4 * i + 2], a3, img2[4 * i + 2], c3);
    }
  }

  /** The identity check: compares the buffers a 32-bit word at a time and stops at the first difference. */
  method PixelsIdentical(img1: seq<Byte>, img2: seq<Byte>, len: int) returns (identical: bool)
    requires 0 <= len && |img1| == 4 * len && |img2| == 4 * len
    ensures identical <==> img1 == img2
  {
    identical := true;
    var i := 0;
    while i < len
      invariant 0 <= i <= len
      invariant forall j | 0 <= j < i :: PixelAt(img1, 4 * j) == PixelAt(img2, 4 * j)
    {
      WordsEqual(img1, img2, i);
      if Word(img1, i) != Word(img2, i) {
        identical := false;
        break;
      }
      i := i + 1;
    }
    if identical {
      PixelwiseEqual(img1, img2);
    }
  }

  /** The largest squared distance still taken as a match: 35215 is the metric's ceiling, scaled by threshold squared. */
  function MaxDelta(threshold: real): (m: real)
    ensures m >= 0.0
  {
    if threshold < 0.0 then MulNonNegative(-threshold, -threshold); 35215.0 * threshold * threshold
    else MulNonNegative(threshold, threshold); 35215.0 * threshold * threshold
  }

  /** A larger threshold, in absolute value, accepts larger distances. */
  lemma MaxDeltaMonotone(t1: real, t2: real)
    requires 0.0 <= t1 <= t2 || t2 <= t1 <= 0.0
    ensures MaxDelta(t1) <= MaxDelta(t2)
  {
    var a, b := if t1 < 0.0 then -t1 else t1, if t2 < 0.0 then -t2 else t2;
    assert t1 * t1 == a * a && t2 * t2 == b * b;
    MulNonNegative(b - a, b + a);
    assert b * b - a * a == (b - a) * (b + a);
  }

  /** What the sweep makes of one pixel. */
  datatype Verdict =
    | Similar      // within the threshold: painted grey
    | AntiAliased  // beyond it, but excused as anti-aliasing: painted in aaColor, not counted
    | Different    // beyond it and not excused: painted in diffColor and counted

  /**
   * The verdict on pixel p: beyond maxDelta and not excused is Different;
   * excused when includeAA is off and p looks anti-aliased in either image
   * against the other.
   */
  function Classify(img1: seq<Byte>, img2: seq<Byte>, p: Point, width: int, height: int,
                    maxDelta: real, includeAA: bool): (v: Verdict)
    requires Fits(img1, width, height) && Fits(img2, width, height) && InFrame(p, width, height)
    ensures Readable(img1, p, width) && Readable(img2, p, width)
    ensures v == Similar <==> ColorDelta(img1, img2, Offset(p, width), Offset(p, width), false) <= maxDelta
    ensures v == AntiAliased ==> !includeAA
  {
    InFrameReadable(img1, p, width, height);
    InFrameReadable(img2, p, width, height);
    var pos := Offset(p, width);
    if ColorDelta(img1, img2, pos, pos, false) > maxDelta then
      if !includeAA && (LooksAntialiased(img1, img2, p, width, height) || LooksAntialiased(img2, img1, p, width, height)) then
        AntiAliased
      else
        Different
    else
      Similar
  }

  /** Every pixel of the frame with its verdict; Similar outside it. */
  function Verdicts(img1: seq<Byte>, img2: seq<Byte>, width: int, height: int, maxDelta: real, includeAA: bool): Point -> Verdict
    requires Fits(img1, width, height) && Fits(img2, width, height)
  {
    p => if InFrame(p, width, height) then Classify(img1, img2, p, width, height, maxDelta, includeAA) else Similar
  }

  /**
   * `verdict` gives every pixel of the frame its verdict. The sweep's methods
   * take the verdicts as such a ghost parameter, so that their proofs deal with
   * a pixel's verdict without unfolding how it is reached.
   */
  ghost predicate VerdictLink(verdict: Point -> Verdict, img1: seq<Byte>, img2: seq<Byte>, width: int, height: int,
                              maxDelta: real, includeAA: bool)
    requires Fits(img1, width, height) && Fits(img2, width, height)
  {
    forall p {:trigger Classify(img1, img2, p, width, height, maxDelta, includeAA)} | InFrame(p, width, height) ::
      verdict(p) == Classify(img1, img2, p, width, height, maxDelta, includeAA)
  }

  lemma LinkVerdicts(img1: seq<Byte>, img2: seq<Byte>, width: int, height: int, maxDelta: real, includeAA: bool)
    requires Fits(img1, width, height) && Fits(img2, width, height)
    ensures VerdictLink(Verdicts(img1, img2, width, height, maxDelta, includeAA), img1, img2, width, height, maxDelta, includeAA)
  {
  }

  /** The pixels the sweep counts. */
  function DiffHit(verdict: Point -> Verdict, width: int, height: int): Point -> bool {
    p => InFrame(p, width, height) && verdict(p) == Different
  }

  /** The number of pixels the sweep counts as different. */
  function DiffCount(img1: seq<Byte>, img2: seq<Byte>, width: int, height: int, maxDelta: real, includeAA: bool): nat
    requires Fits(img1, width, height) && Fits(img2, width, height)
  {
    Hits(DiffHit(Verdicts(img1, img2, width, height, maxDelta, includeAA), width, height), width, height)
  }

  function Gray(v: real): Color {
    Color(v, v, v)
  }

  /** The colour pixel p of the diff image gets for verdict v; None leaves it as it was. */
  function Colour(img1: seq<Byte>, p: Point, width: int, o: Options, v: Verdict): Option<Color>
    requires 0 <= Offset(p, width) && Offset(p, width) + 4 <= |img1|
  {
    match v
    case Similar => if o.diffMask then None else Some(Gray(GrayValue(img1, Offset(p, width), o.alpha)))
    case AntiAliased => if o.diffMask then None else Some(o.aaColor)
    case Different => Some(o.diffColor)
  }

  /** The colour of every pixel of the frame under the given verdicts. */
  function Paint(img1: seq<Byte>, verdict: Point -> Verdict, width: int, height: int, o: Options): Point -> Option<Color>
    requires Fits(img1, width, height)
  {
    p => if InFrame(p, width, height) then
           InFrameReadable(img1, p, width, height);
           Colour(img1, p, width, o, verdict(p))
         else None
  }

  /** The grey of the fast path for the pixel at offset k. */
  function GrayFill(img: seq<Byte>, alpha: real): int -> Color {
    k => if 0 <= k && k + 4 <= |img| then Gray(GrayValue(img, k, alpha)) else Gray(0.0)
  }

  /** The result of the entry point: an error, 0 for identical images, or else the number of differing pixels. */
  function Outcome(build: Build, img1: Image, img2: Image, output: Option<Target>, width: int, height: int,
                   given: PartialOptions): Result<nat, MatchError>
  {
    match Check(img1, img2, output, width, height)
    case Some(e) => Failure(e)
    case None =>
      if img1.data == img2.data then Success(0)
      else
        var o := Merge(Defaults(build), given);
        Success(DiffCount(img1.data, img2.data, width, height, MaxDelta(o.threshold), o.includeAA))
  }

  /** The output buffer's bytes after the entry point, starting from `s`: untouched on an error. */
  function Drawn(build: Build, img1: Image, img2: Image, s: seq<Byte>, kind: ElementKind, width: int, height: int,
                 given: PartialOptions): seq<Byte>
  {
    if Check(img1, img2, Some(Target(kind, |s|)), width, height) != None then s
    else
      var o := Merge(Defaults(build), given);
      if img1.data == img2.data then
        if o.diffMask then s else Fill(s, kind, GrayFill(img1.data, o.alpha), Area(width, height))
      else
        var verdict := Verdicts(img1.data, img2.data, width, height, MaxDelta(o.threshold), o.includeAA);
        Render(s, kind, Paint(img1.data, verdict, width, height, o), width, height, height)
  }

  /** One pixel's verdict, as the loop body reaches it: the anti-aliasing checks only beyond the threshold, the second only if the first fails. */
  method ComparePixel(img1: seq<Byte>, img2: seq<Byte>, x: int, y: int, width: int, height: int,
                      maxDelta: real, includeAA: bool) returns (v: Verdict)
    requires Fits(img1, width, height) && Fits(img2, width, height) && InFrame(Point(x, y), width, height)
    ensures v == Classify(img1, img2, Point(x, y), width, height, maxDelta, includeAA)
  {
    InFrameReadable(img1, Point(x, y), width, height);
    InFrameReadable(img2, Point(x, y), width, height);
    OffsetValue(Point(x, y), width);
    var pos := (y * width + x) * 4;
    var delta := ColorDelta(img1, img2, pos, pos, false);
    if delta > maxDelta {
      var excused := false;
      if !includeAA {
        excused := Antialiased(img1, img2, x, y, width, height);
        if !excused {
          excused := Antialiased(img2, img1, x, y, width, height);
        }
      }
      v := if excused then AntiAliased else Different;
    } else {
      v := Similar;
    }
  }

  /** Paints pixel (x, y) of the output for verdict v, as the loop body does. */
  method PaintVerdict(img1: seq<Byte>, output: array<Byte>, kind: ElementKind, x: int, y: int, width: int, height: int,
                      o: Options, v: Verdict)
    requires Fits(img1, width, height) && InFrame(Point(x, y), width, height) && output.Length == |img1|
    modifies output
    ensures Readable(img1, Point(x, y), width)
    ensures output[..] == PaintAt(old(output[..]), kind, Point(x, y), width, Colour(img1, Point(x, y), width, o, v))
  {
    InFrameReadable(img1, Point(x, y), width, height);
    OffsetValue(Point(x, y), width);
    var pos := (y * width + x) * 4;
    match v
    case Similar =>
      if !o.diffMask {
        DrawGrayPixel(img1, pos, o.alpha, output, kind);
      }
    case AntiAliased =>
      if !o.diffMask {
        DrawPixel(output, kind, pos, o.aaColor.r, o.aaColor.g, o.aaColor.b);
      }
    case Different =>
      DrawPixel(output, kind, pos, o.diffColor.r, o.diffColor.g, o.diffColor.b);
  }

  /** The inner loop: row y, columns 0 .. width - 1. */
  method SweepRow(img1: seq<Byte>, img2: seq<Byte>, output: array?<Byte>, kind: ElementKind, y: int,
                  width: int, height: int, o: Options, maxDelta: real, ghost verdict: Point -> Verdict, diff0: nat)
    returns (diff: nat)
    requires Fits(img1, width, height) && Fits(img2, width, height) && 0 <= y < height
    requires output != null ==> output.Length == |img1|
    requires VerdictLink(verdict, img1, img2, width, height, maxDelta, o.includeAA)
    modifies output
    ensures diff == diff0 + RowHits(DiffHit(verdict, width, height), y, width)
    ensures output != null ==>
      output[..] == RowRender(old(output[..]), kind, Paint(img1, verdict, width, height, o), width, height, y, width)
  {
    diff := diff0;
    var x := 0;
    while x < width
      invariant x == 0 || x <= width
      invariant diff == diff0 + RowHits(DiffHit(verdict, width, height), y, x)
      invariant output != null ==>
        output[..] == RowRender(old(output[..]), kind, Paint(img1, verdict, width, height, o), width, height, y, x)
    {
      var v := ComparePixel(img1, img2, x, y, width, height, maxDelta, o.includeAA);
      assert verdict(Point(x, y)) == v;
      if output != null {
        PaintVerdict(img1, output, kind, x, y, width, height, o, v);
      }
      if v == Different {
        diff := diff + 1;
      }
      x := x + 1;
    }
  }

  /** The outer loop: rows 0 .. height - 1. */
  method SweepFrame(img1: seq<Byte>, img2: seq<Byte>, output: array?<Byte>, kind: ElementKind,
                    width: int, height: int, o: Options, maxDelta: real, ghost verdict: Point -> Verdict)
    returns (diff: nat)
    requires Fits(img1, width, height) && Fits(img2, width, height)
    requires output != null ==> output.Length == |img1|
    requires VerdictLink(verdict, img1, img2, width, height, maxDelta, o.includeAA)
    modifies output
    ensures diff == Hits(DiffHit(verdict, width, height), width, height)
    ensures output != null ==>
      output[..] == Render(old(output[..]), kind, Paint(img1, verdict, width, height, o), width, height, height)
  {
    diff := 0;
    var y := 0;
    while y < height
      invariant y == 0 || y <= height
      invariant diff == Hits(DiffHit(verdict, width, height), width, y)
      invariant output != null ==>
        output[..] == Render(old(output[..]), kind, Paint(img1, verdict, width, height, o), width, height, y)
    {
      diff := SweepRow(img1, img2, output, kind, y, width, height, o, maxDelta, verdict, diff);
      y := y + 1;
    }
  }

  /** The fast path's loop: every pixel grey, in buffer order. */
  method PaintGray(img1: seq<Byte>, output: array<Byte>, kind: ElementKind, len: int, alpha: real)
    requires 0 <= len && 4 * len <= |img1| && output.Length == |img1|
    modifies output
    ensures output[..] == Fill(old(output[..]), kind, GrayFill(img1, alpha), len)
  {
    var i := 0;
    while i < len
      invariant 0 <= i <= len
      invariant output[..] == Fill(old(output[..]), kind, GrayFill(img1, alpha), i)
    {
      PaintGrayStep(img1, output, kind, i, alpha, old(output[..]));
      i := i + 1;
    }
  }

  /** The fast path's loop body: pixel i grey, extending the fill by one pixel. */
  method PaintGrayStep(img1: seq<Byte>, output: array<Byte>, kind: ElementKind, i: int, alpha: real, ghost s: seq<Byte>)
    requires 0 <= i && 4 * i + 4 <= |img1| && output.Length == |img1| == |s|
    requires output[..] == Fill(s, kind, GrayFill(img1, alpha), i)
    modifies output
    ensures output[..] == Fill(s, kind, GrayFill(img1, alpha), i + 1)
  {
    DrawGrayPixel(img1, 4 * i, alpha, output, kind);
  }

  /** The entry point: the count it returns and the bytes it leaves in the output, when there is one. */
  method Match(build: Build, img1: Image, img2: Image, output: array?<Byte>, outKind: ElementKind,
               width: int, height: int, options: PartialOptions) returns (r: Result<nat, MatchError>)
    modifies output
    ensures r == Outcome(build, img1, img2, if output == null then None else Some(Target(outKind, output.Length)),
                         width, height, options)
    ensures output != null ==> output[..] == Drawn(build, img1, img2, old(output[..]), outKind, width, height, options)
  {
    var target := if output == null then None else Some(Target(outKind, output.Length));
    var e := Check(img1, img2, target, width, height);
    if e.Some? {
      return Failure(e.value);
    }
    var o := Merge(Defaults(build), options);
    AreaValue(width, height);
    var len := width * height;
    var identical := PixelsIdentical(img1.data, img2.data, len);
    if identical {
      if output != null && !o.diffMask {
        PaintGray(img1.data, output, outKind, len, o.alpha);
      }
      return Success(0);
    }
    var maxDelta := MaxDelta(o.threshold);
    LinkVerdicts(img1.data, img2.data, width, height, maxDelta, o.includeAA);
    var diff := SweepFrame(img1.data, img2.data, output, outKind, width, height, o, maxDelta,
                           Verdicts(img1.data, img2.data, width, height, maxDelta, o.includeAA));
    return Success(diff);
  }

  /** Identical images have no difference at any pixel, for any threshold. */
  lemma IdenticalSimilar(img: seq<Byte>, p: Point, width: int, height: int, maxDelta: real, includeAA: bool)
    requires Fits(img, width, height) && InFrame(p, width, height) && 0.0 <= maxDelta
    ensures Classify(img, img, p, width, height, maxDelta, includeAA) == Similar
  {
    InFrameReadable(img, p, width, height);
  }

  /** Swapping the images keeps every verdict: the distance is symmetric and either image may excuse a pixel. */
  lemma ClassifySymmetric(img1: seq<Byte>, img2: seq<Byte>, p: Point, width: int, height: int,
                          maxDelta: real, includeAA: bool)
    requires Fits(img1, width, height) && Fits(img2, width, height) && InFrame(p, width, height)
    ensures Classify(img1, img2, p, width, height, maxDelta, includeAA) == Classify(img2, img1, p, width, height, maxDelta, includeAA)
  {
    InFrameReadable(img1, p, width, height);
    InFrameReadable(img2, p, width, height);
    ColorDeltaSwap(img1, img2, Offset(p, width), Offset(p, width));
  }

  /** Conditions that agree on the frame count alike. */
  lemma SameHits(f: Point -> bool, g: Point -> bool, width: int, height: int)
    requires forall p | InFrame(p, width, height) :: f(p) == g(p)
    ensures Hits(f, width, height) == Hits(g, width, height)
  {
    HitsMonotone(f, g, width, height);
    HitsMonotone(g, f, width, height);
  }

  lemma DiffCountSymmetric(img1: seq<Byte>, img2: seq<Byte>, width: int, height: int, maxDelta: real, includeAA: bool)
    requires Fits(img1, width, height) && Fits(img2, width, height)
    ensures DiffCount(img1, img2, width, height, maxDelta, includeAA) == DiffCount(img2, img1, width, height, maxDelta, includeAA)
  {
    var f := DiffHit(Verdicts(img1, img2, width, height, maxDelta, includeAA), width, height);
    var g := DiffHit(Verdicts(img2, img1, width, height, maxDelta, includeAA), width, height);
    forall p | InFrame(p, width, height)
      ensures f(p) == g(p)
    {
      ClassifySymmetric(img1, img2, p, width, height, maxDelta, includeAA);
    }
    SameHits(f, g, width, height);
  }

  /** The result does not depend on which image comes first. */
  lemma OutcomeSymmetric(build: Build, img1: Image, img2: Image, output: Option<Target>, width: int, height: int,
                         given: PartialOptions)
    ensures Outcome(build, img1, img2, output, width, height, given) == Outcome(build, img2, img1, output, width, height, given)
  {
    CheckSymmetric(img1, img2, output, width, height);
    if Check(img1, img2, output, width, height) == None && img1.data != img2.data {
      var o := Merge(Defaults(build), given);
      DiffCountSymmetric(img1.data, img2.data, width, height, MaxDelta(o.threshold), o.includeAA);
    }
  }

  /**
   * An error is reported exactly when validation fails, and then the output
   * keeps every byte it had: all checks run before the first write.
   */
  lemma ErrorLeavesOutput(build: Build, img1: Image, img2: Image, s: seq<Byte>, kind: ElementKind,
                          width: int, height: int, given: PartialOptions)
    ensures var e := Check(img1, img2, Some(Target(kind, |s|)), width, height);
      (Outcome(build, img1, img2, Some(Target(kind, |s|)), width, height, given).Failure? <==> e.Some?)
      && (e.Some? ==> Outcome(build, img1, img2, Some(Target(kind, |s|)), width, height, given) == Failure(e.value)
                      && Drawn(build, img1, img2, s, kind, width, height, given) == s)
  {
  }

  /** A valid output buffer only receives the diff image: the count is the one returned without it. */
  lemma OutcomeIgnoresOutput(build: Build, img1: Image, img2: Image, t: Target, width: int, height: int,
                             given: PartialOptions)
    requires Check(img1, img2, Some(t), width, height) == None
    ensures Outcome(build, img1, img2, Some(t), width, height, given) == Outcome(build, img1, img2, None, width, height, given)
  {
  }

  /** Identical images that pass validation give 0, whatever the options. */
  lemma IdenticalZero(build: Build, img: Image, output: Option<Target>, width: int, height: int, given: PartialOptions)
    requires Check(img, img, output, width, height) == None
    ensures Outcome(build, img, img, output, width, height, given) == Success(0)
  {
  }

  /** The count never exceeds the number of pixels. */
  lemma OutcomeBound(build: Build, img1: Image, img2: Image, output: Option<Target>, width: int, height: int,
                     given: PartialOptions)
    ensures var r := Outcome(build, img1, img2, output, width, height, given);
      r.Success? ==> 4 * r.value <= |img1.data|
  {
    if Check(img1, img2, output, width, height) == None && img1.data != img2.data {
      var o := Merge(Defaults(build), given);
      HitsBound(DiffHit(Verdicts(img1.data, img2.data, width, height, MaxDelta(o.threshold), o.includeAA), width, height),
                width, height);
    }
  }

  /** Accepting larger distances never adds a difference. */
  lemma DiffCountThreshold(img1: seq<Byte>, img2: seq<Byte>, width: int, height: int, maxDelta: real, maxDelta': real,
                           includeAA: bool)
    requires Fits(img1, width, height) && Fits(img2, width, height) && maxDelta <= maxDelta'
    ensures DiffCount(img1, img2, width, height, maxDelta', includeAA) <= DiffCount(img1, img2, width, height, maxDelta, includeAA)
  {
    var fewer := DiffHit(Verdicts(img1, img2, width, height, maxDelta', includeAA), width, height);
    var more := DiffHit(Verdicts(img1, img2, width, height, maxDelta, includeAA), width, height);
    forall p | InFrame(p, width, height)
      ensures fewer(p) ==> more(p)
    {
    }
    HitsMonotone(fewer, more, width, height);
  }

  /** A higher threshold reports at most as many differences, and the same errors. */
  lemma OutcomeThreshold(build: Build, img1: Image, img2: Image, output: Option<Target>, width: int, height: int,
                         given: PartialOptions, t: real, t': real)
    requires 0.0 <= t <= t'
    ensures var lo, hi := Outcome(build, img1, img2, output, width, height, given.(threshold := Some(t))),
                          Outcome(build, img1, img2, output, width, height, given.(threshold := Some(t')));
      (lo.Failure? <==> hi.Failure?) && (hi.Success? ==> hi.value <= lo.value)
  {
    if Check(img1, img2, output, width, height) == None && img1.data != img2.data {
      var o := Merge(Defaults(build), given);
      MaxDeltaMonotone(t, t');
      DiffCountThreshold(img1.data, img2.data, width, height, MaxDelta(t), MaxDelta(t'), o.includeAA);
    }
  }

  /** Turning off the anti-aliasing excuse never removes a difference. */
  lemma DiffCountIncludeAA(img1: seq<Byte>, img2: seq<Byte>, width: int, height: int, maxDelta: real)
    requires Fits(img1, width, height) && Fits(img2, width, height)
    ensures DiffCount(img1, img2, width, height, maxDelta, false) <= DiffCount(img1, img2, width, height, maxDelta, true)
  {
    var fewer := DiffHit(Verdicts(img1, img2, width, height, maxDelta, false), width, height);
    var more := DiffHit(Verdicts(img1, img2, width, height, maxDelta, true), width, height);
    forall p | InFrame(p, width, height)
      ensures fewer(p) ==> more(p)
    {
    }
    HitsMonotone(fewer, more, width, height);
  }

  /** With includeAA set the result is at least the one without it. */
  lemma OutcomeIncludeAA(build: Build, img1: Image, img2: Image, output: Option<Target>, width: int, height: int,
                         given: PartialOptions)
    ensures var excusing, counting := Outcome(build, img1, img2, output, width, height, given.(includeAA := Some(false))),
                                      Outcome(build, img1, img2, output, width, height, given.(includeAA := Some(true)));
      (excusing.Failure? <==> counting.Failure?) && (counting.Success? ==> excusing.value <= counting.value)
  {
    if Check(img1, img2, output, width, height) == None && img1.data != img2.data {
      var o := Merge(Defaults(build), given);
      DiffCountIncludeAA(img1.data, img2.data, width, height, MaxDelta(o.threshold));
    }
  }

  /** Once validation passes, the result is 0 exactly when no pixel of the frame is Different. */
  lemma ZeroMeansNoDifference(build: Build, img1: Image, img2: Image, output: Option<Target>, width: int, height: int,
                              given: PartialOptions)
    requires Check(img1, img2, output, width, height) == None
    ensures var o := Merge(Defaults(build), given);
      Outcome(build, img1, img2, output, width, height, given) == Success(0) <==>
      forall p | InFrame(p, width, height) ::
        Classify(img1.data, img2.data, p, width, height, MaxDelta(o.threshold), o.includeAA) != Different
  {
    var o := Merge(Defaults(build), given);
    var md := MaxDelta(o.threshold);
    if img1.data == img2.data {
      forall p | InFrame(p, width, height)
        ensures Classify(img1.data, img2.data, p, width, height, md, o.includeAA) != Different
      {
        IdenticalSimilar(img1.data, p, width, height, md, o.includeAA);
      }
    } else {
      var hit := DiffHit(Verdicts(img1.data, img2.data, width, height, md, o.includeAA), width, height);
      HitsNone(hit, width, height);
      assert forall p | InFrame(p, width, height) ::
        hit(p) == (Classify(img1.data, img2.data, p, width, height, md, o.includeAA) == Different);
    }
  }

  /**
   * In a frame of positive size the fast path for identical images paints
   * exactly what the sweep would have painted, every pixel being Similar.
   */
  lemma FastPathAgrees(build: Build, img1: Image, img2: Image, s: seq<Byte>, kind: ElementKind,
                       width: int, height: int, given: PartialOptions)
    requires Check(img1, img2, Some(Target(kind, |s|)), width, height) == None
    requires img1.data == img2.data && 0 < width && 0 < height
    ensures var o := Merge(Defaults(build), given);
      var verdict := Verdicts(img1.data, img2.data, width, height, MaxDelta(o.threshold), o.includeAA);
      Drawn(build, img1, img2, s, kind, width, height, given) ==
      Render(s, kind, Paint(img1.data, verdict, width, height, o), width, height, height)
  {
    var o := Merge(Defaults(build), given);
    var md := MaxDelta(o.threshold);
    var verdict := Verdicts(img1.data, img2.data, width, height, md, o.includeAA);
    var paint := Paint(img1.data, verdict, width, height, o);
    forall p | InFrame(p, width, height)
      ensures verdict(p) == Similar
    {
      IdenticalSimilar(img1.data, p, width, height, md, o.includeAA);
    }
    if o.diffMask {
      RenderNothing(s, kind, paint, width, height);
    } else {
      var colour := GrayFill(img1.data, o.alpha);
      forall p | InFrame(p, width, height)
        ensures paint(p) == Some(colour(Offset(p, width)))
      {
        InFrameReadable(img1.data, p, width, height);
      }
      FillIsRender(s, kind, colour, paint, width, height);
    }
  }

  /**
   * After the sweep, each pixel of the diff image shows its verdict: diffColor
   * for a difference; under diffMask nothing else is painted; otherwise
   * aaColor for an excused pixel and the faded grey of img1 for a similar one.
   * All painted pixels are opaque.
   */
  lemma DrawnPixel(build: Build, img1: Image, img2: Image, s: seq<Byte>, kind: ElementKind,
                   width: int, height: int, given: PartialOptions, p: Point)
    requires Check(img1, img2, Some(Target(kind, |s|)), width, height) == None
    requires img1.data != img2.data && InFrame(p, width, height)
    ensures Readable(s, p, width) && Readable(img1.data, p, width)
    ensures var o := Merge(Defaults(build), given);
      var v := Classify(img1.data, img2.data, p, width, height, MaxDelta(o.threshold), o.includeAA);
      var k := Offset(p, width);
      var px := PixelAt(Drawn(build, img1, img2, s, kind, width, height, given), k);
      && (v == Different ==> px == Rgba(Store(kind, o.diffColor.r), Store(kind, o.diffColor.g), Store(kind, o.diffColor.b), 255))
      && (v != Different && o.diffMask ==> px == PixelAt(s, k))
      && (v == AntiAliased && !o.diffMask ==> px == Rgba(Store(kind, o.aaColor.r), Store(kind, o.aaColor.g), Store(kind, o.aaColor.b), 255))
      && (v == Similar && !o.diffMask ==>
            var g := Store(kind, GrayValue(img1.data, k, o.alpha)); px == Rgba(g, g, g, 255))
  {
    InFrameReadable(s, p, width, height);
    InFrameReadable(img1.data, p, width, height);
    var o := Merge(Defaults(build), given);
    var verdict := Verdicts(img1.data, img2.data, width, height, MaxDelta(o.threshold), o.includeAA);
    RenderPixel(s, kind, Paint(img1.data, verdict, width, height, o), width, height, height, p);
  }

  /**
   * Validation accepts a negative width with a negative height when their
   * product matches the buffers; the sweep's loops then never run, so images
   * that differ give 0 and leave the output untouched.
   */
  lemma NegativeDimensions(build: Build, img1: Image, img2: Image, s: seq<Byte>, kind: ElementKind,
                           width: int, height: int, given: PartialOptions)
    requires Check(img1, img2, Some(Target(kind, |s|)), width, height) == None
    requires width < 0 && height < 0
    ensures Outcome(build, img1, img2, Some(Target(kind, |s|)), width, height, given) == Success(0)
    ensures img1.data != img2.data ==> Drawn(build, img1, img2, s, kind, width, height, given) == s
  {
  }

  /**
   * For identical images the fast path paints width * height pixels whatever
   * the signs, so with both dimensions negative it still makes every pixel of
   * the output opaque, where the sweep's loops would not have run at all: the
   * one case in which the fast path and the sweep disagree.
   */
  lemma NegativeIdenticalFill(build: Build, img: Image, s: seq<Byte>, kind: ElementKind,
                              width: int, height: int, given: PartialOptions)
    requires Check(img, img, Some(Target(kind, |s|)), width, height) == None
    requires width < 0 && height < 0 && !Merge(Defaults(build), given).diffMask
    ensures var o := Merge(Defaults(build), given);
      var verdict := Verdicts(img.data, img.data, width, height, MaxDelta(o.threshold), o.includeAA);
      var drawn := Drawn(build, img, img, s, kind, width, height, given);
      Render(s, kind, Paint(img.data, verdict, width, height, o), width, height, height) == s &&
      (forall i | 0 <= i && 4 * i + 4 <= |s| :: PixelAt(drawn, 4 * i).a == 255) &&
      4 <= |s| && (s[3] != 255 ==> drawn != s)
  {
    AreaValue(width, height);
    MulMonotone(1, -width, -height);
    assert (-width) * (-height) == width * height;
    var o := Merge(Defaults(build), given);
    var n := Area(width, height);
    var drawn := Drawn(build, img, img, s, kind, width, height, given);
    assert drawn == Fill(s, kind, GrayFill(img.data, o.alpha), n);
    forall i | 0 <= i && 4 * i + 4 <= |s|
      ensures PixelAt(drawn, 4 * i).a == 255
    {
      FillPixel(s, kind, GrayFill(img.data, o.alpha), n, i);
    }
    assert PixelAt(drawn, 4 * 0).a == drawn[3];
  }
}

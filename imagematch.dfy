/**
 * index.js, the first version of the comparison (imagematch). It validates
 * nothing and measures colour as the squared distance of the four RGBA bytes.
 * A pixel beyond the threshold is excused as anti-aliasing when, in both
 * images, some neighbour within `antialiasing` pixels contrasts with it by
 * more than the threshold while the other image keeps that contrast to within
 * the threshold. Every pixel of the output is painted: background grey, yellow
 * for an excused pixel, red for a difference.
 */
module Imagematch {
  import opened Wrappers
  import opened Raster
  import opened Painter
  import opened Sweep

  lemma SquareFacts(v: int)
    ensures v * v >= 0 && (v * v == 0 <==> v == 0)
    ensures -255 <= v <= 255 ==> v * v <= 65025
  {
    var a := if v < 0 then -v else v;
    assert v * v == a * a;
    if a > 0 {
      MulMonotone(1, a, a);
    }
    if a <= 255 {
      MulMonotone(a, 255, a);
      MulMonotone(a, 255, 255);
    }
  }

  /** colorDelta: the sum of the squared differences of the four bytes, alpha included. */
  function ColorDelta(img1: seq<Byte>, img2: seq<Byte>, k: int, m: int): (d: int)
    requires 0 <= k && k + 4 <= |img1| && 0 <= m && m + 4 <= |img2|
    ensures 0 <= d <= 4 * 65025
    ensures d == 0 <==> PixelAt(img1, k) == PixelAt(img2, m)
  {
    var r, g, b, a := img1[k] as int - img2[m] as int, img1[k + 1] as int - img2[m + 1] as int,
                      img1[k + 2] as int - img2[m + 2] as int, img1[k + 3] as int - img2[m + 3] as int;
    SquareFacts(r);
    SquareFacts(g);
    SquareFacts(b);
    SquareFacts(a);
    r * r + g * g + b * b + a * a
  }

  /** The distance does not depend on the order of the two pixels. */
  lemma ColorDeltaSwap(img1: seq<Byte>, img2: seq<Byte>, k: int, m: int)
    requires 0 <= k && k + 4 <= |img1| && 0 <= m && m + 4 <= |img2|
    ensures ColorDelta(img1, img2, k, m) == ColorDelta(img2, img1, m, k)
  {
    var r, g, b, a := img1[k] as int - img2[m] as int, img1[k + 1] as int - img2[m + 1] as int,
                      img1[k + 2] as int - img2[m + 2] as int, img1[k + 3] as int - img2[m + 3] as int;
    assert (-r) * (-r) == r * r && (-g) * (-g) == g * g && (-b) * (-b) == b * b && (-a) * (-a) == a * a;
  }

  /** 255 * 255 * 4 * threshold, the threshold 0.005 unless given. */
  function MaxDelta(threshold: Option<real>): (m: real)
    ensures threshold.None? ==> m == 1300.5
  {
    255.0 * 255.0 * 4.0 * threshold.GetOr(0.005)
  }

  /** The radius of the anti-aliasing search, 1 unless given; 0 turns the search off. */
  function Shift(antialiasing: Option<int>): int {
    antialiasing.GetOr(1)
  }

  function Max(a: int, b: int): int {
    if a > b then a else b
  }

  function Min(a: int, b: int): int {
    if a < b then a else b
  }

  /** p lies in the window of radius d around c, clamped to the frame. */
  predicate InReach(p: Point, c: Point, d: int, width: int, height: int) {
    Max(c.x - d, 0) <= p.x <= Min(c.x + d, width - 1) && Max(c.y - d, 0) <= p.y <= Min(c.y + d, height - 1)
  }

  function Abs(v: int): int {
    if v < 0 then -v else v
  }

  /**
   * Neighbour p excuses centre c: in img1 it contrasts with c by more than
   * maxDelta, and img2 at p keeps that contrast with img1 at c to within
   * maxDelta.
   */
  predicate Excuses(img1: seq<Byte>, img2: seq<Byte>, c: Point, p: Point, width: int, height: int, maxDelta: real)
    requires Fits(img1, width, height) && Fits(img2, width, height)
    requires InFrame(c, width, height) && InFrame(p, width, height)
  {
    InFrameReadable(img1, c, width, height);
    InFrameReadable(img1, p, width, height);
    InFrameReadable(img2, p, width, height);
    var local := ColorDelta(img1, img1, Offset(c, width), Offset(p, width));
    var delta := ColorDelta(img1, img2, Offset(c, width), Offset(p, width));
    Abs(delta - local) as real < maxDelta && local as real > maxDelta
  }

  /** antialiased: some neighbour within radius d of c, other than c, excuses it. */
  ghost predicate Antialiased(img1: seq<Byte>, img2: seq<Byte>, c: Point, width: int, height: int, maxDelta: real, d: int)
    requires Fits(img1, width, height) && Fits(img2, width, height) && InFrame(c, width, height)
  {
    exists p | InReach(p, c, d, width, height) && p != c ::
      InFrame(p, width, height) && Excuses(img1, img2, c, p, width, height, maxDelta)
  }

  /** The inner loop of antialiased: column x, rows y0 .. y2, the centre skipped. */
  method ReachColumn(img1: seq<Byte>, img2: seq<Byte>, x1: int, y1: int, x: int, y0: int, y2: int,
                     width: int, height: int, maxDelta: real) returns (found: bool)
    requires Fits(img1, width, height) && Fits(img2, width, height) && InFrame(Point(x1, y1), width, height)
    requires 0 <= x < width && 0 <= y0 && y2 < height
    ensures found <==> exists p: Point | p.x == x && y0 <= p.y <= y2 && p != Point(x1, y1) ::
      Excuses(img1, img2, Point(x1, y1), p, width, height, maxDelta)
  {
    OffsetValue(Point(x1, y1), width);
    var pos := (y1 * width + x1) * 4;
    var y := y0;
    while y <= y2
      invariant y == y0 || y0 <= y <= y2 + 1
      invariant forall p: Point | p.x == x && y0 <= p.y < y && p != Point(x1, y1) ::
        !Excuses(img1, img2, Point(x1, y1), p, width, height, maxDelta)
    {
      if x == x1 && y == y1 {
        y := y + 1;
        continue;
      }
      InFrameReadable(img1, Point(x, y), width, height);
      InFrameReadable(img1, Point(x1, y1), width, height);
      OffsetValue(Point(x, y), width);
      var localPos := (y * width + x) * 4;
      var localDelta := ColorDelta(img1, img1, pos, localPos);
      var delta := ColorDelta(img1, img2, pos, localPos);
      if Abs(delta - localDelta) as real < maxDelta && localDelta as real > maxDelta {
        assert Excuses(img1, img2, Point(x1, y1), Point(x, y), width, height, maxDelta);
        return true;
      }
      y := y + 1;
    }
    return false;
  }

  /** antialiased as the source runs it: columns x0 .. x2, each top to bottom, returning at the first excuse. */
  method AntialiasedScan(img1: seq<Byte>, img2: seq<Byte>, x1: int, y1: int, width: int, height: int,
                         maxDelta: real, d: int) returns (r: bool)
    requires Fits(img1, width, height) && Fits(img2, width, height) && InFrame(Point(x1, y1), width, height)
    ensures r == Antialiased(img1, img2, Point(x1, y1), width, height, maxDelta, d)
  {
    var x0, y0 := Max(x1 - d, 0), Max(y1 - d, 0);
    var x2, y2 := Min(x1 + d, width - 1), Min(y1 + d, height - 1);
    var x := x0;
    while x <= x2
      invariant x == x0 || x0 <= x <= x2 + 1
      invariant forall p: Point | x0 <= p.x < x && y0 <= p.y <= y2 && p != Point(x1, y1) ::
        !Excuses(img1, img2, Point(x1, y1), p, width, height, maxDelta)
    {
      var found := ReachColumn(img1, img2, x1, y1, x, y0, y2, width, height, maxDelta);
      if found {
        return true;
      }
      x := x + 1;
    }
    return false;
  }

  /** What the sweep makes of one pixel. */
  datatype Verdict =
    | Background  // within the threshold
    | Ignored     // beyond it, but excused as anti-aliasing in both images
    | Different   // beyond it and not excused: counted

  /**
   * The verdict on pixel p: beyond maxDelta and not excused is Different; a
   * nonzero radius `shift` excuses p when it looks anti-aliased in img1 against
   * img2 AND in img2 against img1.
   */
  ghost function Classify(img1: seq<Byte>, img2: seq<Byte>, p: Point, width: int, height: int,
                          maxDelta: real, shift: int): (v: Verdict)
    requires Fits(img1, width, height) && Fits(img2, width, height) && InFrame(p, width, height)
    ensures Readable(img1, p, width) && Readable(img2, p, width)
    ensures v == Background <==> ColorDelta(img1, img2, Offset(p, width), Offset(p, width)) as real <= maxDelta
    ensures v == Ignored ==> shift != 0
  {
    InFrameReadable(img1, p, width, height);
    InFrameReadable(img2, p, width, height);
    var pos := Offset(p, width);
    if ColorDelta(img1, img2, pos, pos) as real > maxDelta then
      if shift != 0 && Antialiased(img1, img2, p, width, height, maxDelta, shift) &&
         Antialiased(img2, img1, p, width, height, maxDelta, shift) then
        Ignored
      else
        Different
    else
      Background
  }

  ghost function Verdicts(img1: seq<Byte>, img2: seq<Byte>, width: int, height: int, maxDelta: real, shift: int): Point -> Verdict
    requires Fits(img1, width, height) && Fits(img2, width, height)
  {
    p => if InFrame(p, width, height) then Classify(img1, img2, p, width, height, maxDelta, shift) else Background
  }

  /** `verdict` gives every pixel of the frame its verdict; the sweep's methods take it as a ghost parameter. */
  ghost predicate VerdictLink(verdict: Point -> Verdict, img1: seq<Byte>, img2: seq<Byte>, width: int, height: int,
                              maxDelta: real, shift: int)
    requires Fits(img1, width, height) && Fits(img2, width, height)
  {
    forall p {:trigger Classify(img1, img2, p, width, height, maxDelta, shift)} | InFrame(p, width, height) ::
      verdict(p) == Classify(img1, img2, p, width, height, maxDelta, shift)
  }

  lemma LinkVerdicts(img1: seq<Byte>, img2: seq<Byte>, width: int, height: int, maxDelta: real, shift: int)
    requires Fits(img1, width, height) && Fits(img2, width, height)
    ensures VerdictLink(Verdicts(img1, img2, width, height, maxDelta, shift), img1, img2, width, height, maxDelta, shift)
  {
  }

  function DiffHit(verdict: Point -> Verdict, width: int, height: int): Point -> bool {
    p => InFrame(p, width, height) && verdict(p) == Different
  }

  /** The grey of drawBgPixel: brightness 0.30 r + 0.59 g + 0.11 b, faded to a tenth of its distance from white. */
  function BgValue(img: seq<Byte>, k: int): real
    requires 0 <= k && k + 4 <= |img|
  {
    var brightness := 0.30 * img[k] as real + 0.59 * img[k + 1] as real + 0.11 * img[k + 2] as real;
    255.0 - (255.0 - brightness) * 0.1
  }

  /** The background grey lies between 229.5 and 255, so a Uint8Array stores its integer part. */
  lemma BgValueRange(img: seq<Byte>, k: int)
    requires 0 <= k && k + 4 <= |img|
    ensures 229.5 <= BgValue(img, k) <= 255.0
    ensures Store(Uint8, BgValue(img, k)) == BgValue(img, k).Floor
  {
  }

  /** The colour pixel p of the output gets for verdict v. */
  function Colour(img1: seq<Byte>, p: Point, width: int, v: Verdict): Color
    requires 0 <= Offset(p, width) && Offset(p, width) + 4 <= |img1|
  {
    match v
    case Background => var g := BgValue(img1, Offset(p, width)); Color(g, g, g)
    case Ignored => Color(255.0, 255.0, 0.0)
    case Different => Color(255.0, 0.0, 0.0)
  }

  function Paint(img1: seq<Byte>, verdict: Point -> Verdict, width: int, height: int): Point -> Option<Color>
    requires Fits(img1, width, height)
  {
    p => if InFrame(p, width, height) then
           InFrameReadable(img1, p, width, height);
           Some(Colour(img1, p, width, verdict(p)))
         else None
  }

  /** The number imagematch returns. */
  ghost function Count(img1: seq<Byte>, img2: seq<Byte>, width: int, height: int,
                       threshold: Option<real>, antialiasing: Option<int>): nat
    requires Fits(img1, width, height) && Fits(img2, width, height)
  {
    Hits(DiffHit(Verdicts(img1, img2, width, height, MaxDelta(threshold), Shift(antialiasing)), width, height), width, height)
  }

  /** The output's bytes after imagematch, starting from `s`. */
  ghost function Picture(img1: seq<Byte>, img2: seq<Byte>, s: seq<Byte>, kind: ElementKind, width: int, height: int,
                         threshold: Option<real>, antialiasing: Option<int>): seq<Byte>
    requires Fits(img1, width, height) && Fits(img2, width, height) && |s| == |img1|
  {
    var verdict := Verdicts(img1, img2, width, height, MaxDelta(threshold), Shift(antialiasing));
    Render(s, kind, Paint(img1, verdict, width, height), width, height, height)
  }

  /** drawBgPixel. */
  method DrawBgPixel(output: array<Byte>, kind: ElementKind, img: seq<Byte>, pos: int)
    requires 0 <= pos && pos + 4 <= |img| && pos + 4 <= output.Length
    modifies output
    ensures output[..] == Painted(old(output[..]), kind, pos, BgValue(img, pos), BgValue(img, pos), BgValue(img, pos))
  {
    var brightness := 0.30 * img[pos] as real + 0.59 * img[pos + 1] as real + 0.11 * img[pos + 2] as real;
    var v := 255.0 - (255.0 - brightness) * 0.1;
    output[pos + 2] := Store(kind, v);
    output[pos + 1] := Store(kind, v);
    output[pos] := Store(kind, v);
    output[pos + 3] := 255;
  }

  /** drawDiffPixel: opaque red. */
  method DrawDiffPixel(output: array<Byte>, kind: ElementKind, pos: int)
    requires 0 <= pos && pos + 4 <= output.Length
    modifies output
    ensures output[..] == Painted(old(output[..]), kind, pos, 255.0, 0.0, 0.0)
  {
    output[pos + 3] := 255;
    output[pos] := 255;
    output[pos + 2] := 0;
    output[pos + 1] := 0;
  }

  /** drawIgnorePixel: opaque yellow. */
  method DrawIgnorePixel(output: array<Byte>, kind: ElementKind, pos: int)
    requires 0 <= pos && pos + 4 <= output.Length
    modifies output
    ensures output[..] == Painted(old(output[..]), kind, pos, 255.0, 255.0, 0.0)
  {
    output[pos + 3] := 255;
    output[pos + 1] := 255;
    output[pos] := 255;
    output[pos + 2] := 0;
  }

  /** The loop body of imagematch for pixel (x, y): its verdict, the anti-aliasing checks only beyond the threshold. */
  method ComparePixel(img1: seq<Byte>, img2: seq<Byte>, x: int, y: int, width: int, height: int,
                      maxDelta: real, shift: int) returns (v: Verdict)
    requires Fits(img1, width, height) && Fits(img2, width, height) && InFrame(Point(x, y), width, height)
    ensures v == Classify(img1, img2, Point(x, y), width, height, maxDelta, shift)
  {
    InFrameReadable(img1, Point(x, y), width, height);
    InFrameReadable(img2, Point(x, y), width, height);
    OffsetValue(Point(x, y), width);
    var pos := (y * width + x) * 4;
    var delta := ColorDelta(img1, img2, pos, pos);
    if delta as real > maxDelta {
      var excused := false;
      if shift != 0 {
        excused := AntialiasedScan(img1, img2, x, y, width, height, maxDelta, shift);
        if excused {
          excused := AntialiasedScan(img2, img1, x, y, width, height, maxDelta, shift);
        }
      }
      v := if excused then Ignored else Different;
    } else {
      v := Background;
    }
  }

  /** Paints pixel (x, y) of the output for verdict v. */
  method PaintVerdict(img1: seq<Byte>, output: array<Byte>, kind: ElementKind, x: int, y: int, width: int, height: int, v: Verdict)
    requires Fits(img1, width, height) && InFrame(Point(x, y), width, height) && output.Length == |img1|
    modifies output
    ensures Readable(img1, Point(x, y), width)
    ensures output[..] == PaintAt(old(output[..]), kind, Point(x, y), width, Some(Colour(img1, Point(x, y), width, v)))
  {
    InFrameReadable(img1, Point(x, y), width, height);
    OffsetValue(Point(x, y), width);
    var pos := (y * width + x) * 4;
    match v
    case Background => DrawBgPixel(output, kind, img1, pos);
    case Ignored => DrawIgnorePixel(output, kind, pos);
    case Different => DrawDiffPixel(output, kind, pos);
  }

  /** The inner loop of imagematch: row y, columns 0 .. width - 1. */
  method MatchRow(img1: seq<Byte>, img2: seq<Byte>, output: array<Byte>, kind: ElementKind, y: int,
                  width: int, height: int, maxDelta: real, shift: int, ghost verdict: Point -> Verdict, diff0: nat)
    returns (diff: nat)
    requires Fits(img1, width, height) && Fits(img2, width, height) && 0 <= y < height
    requires output.Length == |img1|
    requires VerdictLink(verdict, img1, img2, width, height, maxDelta, shift)
    modifies output
    ensures diff == diff0 + RowHits(DiffHit(verdict, width, height), y, width)
    ensures output[..] == RowRender(old(output[..]), kind, Paint(img1, verdict, width, height), width, height, y, width)
  {
    diff := diff0;
    var x := 0;
    while x < width
      invariant x == 0 || x <= width
      invariant diff == diff0 + RowHits(DiffHit(verdict, width, height), y, x)
      invariant output[..] == RowRender(old(output[..]), kind, Paint(img1, verdict, width, height), width, height, y, x)
    {
      var v := ComparePixel(img1, img2, x, y, width, height, maxDelta, shift);
      assert verdict(Point(x, y)) == v;
      assert Paint(img1, verdict, width, height)(Point(x, y)) == Some(Colour(img1, Point(x, y), width, v));
      PaintVerdict(img1, output, kind, x, y, width, height, v);
      if v == Different {
        diff := diff + 1;
      }
      x := x + 1;
    }
  }

  /** The outer loop of imagematch: rows 0 .. height - 1. */
  method MatchFrame(img1: seq<Byte>, img2: seq<Byte>, output: array<Byte>, kind: ElementKind,
                    width: int, height: int, maxDelta: real, shift: int, ghost verdict: Point -> Verdict)
    returns (diff: nat)
    requires Fits(img1, width, height) && Fits(img2, width, height) && output.Length == |img1|
    requires VerdictLink(verdict, img1, img2, width, height, maxDelta, shift)
    modifies output
    ensures diff == Hits(DiffHit(verdict, width, height), width, height)
    ensures output[..] == Render(old(output[..]), kind, Paint(img1, verdict, width, height), width, height, height)
  {
    diff := 0;
    var y := 0;
    while y < height
      invariant y == 0 || y <= height
      invariant diff == Hits(DiffHit(verdict, width, height), width, y)
      invariant output[..] == Render(old(output[..]), kind, Paint(img1, verdict, width, height), width, height, y)
    {
      diff := MatchRow(img1, img2, output, kind, y, width, height, maxDelta, shift, verdict, diff);
      y := y + 1;
    }
  }

  /** imagematch: the number of differing pixels, every pixel of the output painted by its verdict. */
  method Imagematch(img1: seq<Byte>, img2: seq<Byte>, output: array<Byte>, kind: ElementKind, width: int, height: int,
                    threshold: Option<real>, antialiasing: Option<int>) returns (diff: nat)
    requires Fits(img1, width, height) && Fits(img2, width, height) && output.Length == |img1|
    modifies output
    ensures diff == Count(img1, img2, width, height, threshold, antialiasing)
    ensures output[..] == Picture(img1, img2, old(output[..]), kind, width, height, threshold, antialiasing)
  {
    var maxDelta := 255.0 * 255.0 * 4.0 * (if threshold.None? then 0.005 else threshold.value);
    var shift := if antialiasing.None? then 1 else antialiasing.value;
    assert maxDelta == MaxDelta(threshold) && shift == Shift(antialiasing);
    LinkVerdicts(img1, img2, width, height, maxDelta, shift);
    diff := MatchFrame(img1, img2, output, kind, width, height, maxDelta, shift,
                       Verdicts(img1, img2, width, height, maxDelta, shift));
  }

  /** The distance never exceeds 255 * 255 * 4, so a threshold of 1 or more finds every pixel similar. */
  lemma ThresholdOneAcceptsAll(img1: seq<Byte>, img2: seq<Byte>, width: int, height: int, t: real, antialiasing: Option<int>)
    requires Fits(img1, width, height) && Fits(img2, width, height) && t >= 1.0
    ensures forall p | InFrame(p, width, height) ::
      Classify(img1, img2, p, width, height, MaxDelta(Some(t)), Shift(antialiasing)) == Background
    ensures Count(img1, img2, width, height, Some(t), antialiasing) == 0
  {
    var md, shift := MaxDelta(Some(t)), Shift(antialiasing);
    assert 260100.0 <= md;
    HitsNone(DiffHit(Verdicts(img1, img2, width, height, md, shift), width, height), width, height);
  }

  /** Identical images show no difference for any threshold of at least 0. */
  lemma IdenticalNoDifference(img: seq<Byte>, width: int, height: int, threshold: Option<real>, antialiasing: Option<int>)
    requires Fits(img, width, height) && MaxDelta(threshold) >= 0.0
    ensures Count(img, img, width, height, threshold, antialiasing) == 0
  {
    var md, shift := MaxDelta(threshold), Shift(antialiasing);
    forall p | InFrame(p, width, height)
      ensures Classify(img, img, p, width, height, md, shift) == Background
    {
      InFrameReadable(img, p, width, height);
    }
    HitsNone(DiffHit(Verdicts(img, img, width, height, md, shift), width, height), width, height);
  }

  /**
   * With no validation of the threshold, a negative one makes every pixel of
   * identical images Different: no distance lies below it and no neighbour can
   * excuse a pixel.
   */
  lemma NegativeThresholdAllDifferent(img: seq<Byte>, width: int, height: int, t: real, antialiasing: Option<int>)
    requires Fits(img, width, height) && 0 < width && 0 < height && t < 0.0
    ensures 4 * Count(img, img, width, height, Some(t), antialiasing) == |img|
  {
    var md, shift := MaxDelta(Some(t)), Shift(antialiasing);
    assert md < 0.0;
    forall p | InFrame(p, width, height)
      ensures Classify(img, img, p, width, height, md, shift) == Different
    {
      InFrameReadable(img, p, width, height);
      if shift != 0 {
        assert !Antialiased(img, img, p, width, height, md, shift);
      }
    }
    HitsAll(DiffHit(Verdicts(img, img, width, height, md, shift), width, height), width, height);
  }

  /** Swapping the images keeps every verdict: the distance is symmetric and both images must excuse a pixel. */
  lemma ClassifySymmetric(img1: seq<Byte>, img2: seq<Byte>, p: Point, width: int, height: int, maxDelta: real, shift: int)
    requires Fits(img1, width, height) && Fits(img2, width, height) && InFrame(p, width, height)
    ensures Classify(img1, img2, p, width, height, maxDelta, shift) == Classify(img2, img1, p, width, height, maxDelta, shift)
  {
    InFrameReadable(img1, p, width, height);
    InFrameReadable(img2, p, width, height);
    ColorDeltaSwap(img1, img2, Offset(p, width), Offset(p, width));
  }

  /** The count does not depend on which image comes first. */
  lemma CountSymmetric(img1: seq<Byte>, img2: seq<Byte>, width: int, height: int, threshold: Option<real>, antialiasing: Option<int>)
    requires Fits(img1, width, height) && Fits(img2, width, height)
    ensures Count(img1, img2, width, height, threshold, antialiasing) == Count(img2, img1, width, height, threshold, antialiasing)
  {
    var md, shift := MaxDelta(threshold), Shift(antialiasing);
    var f := DiffHit(Verdicts(img1, img2, width, height, md, shift), width, height);
    var g := DiffHit(Verdicts(img2, img1, width, height, md, shift), width, height);
    forall p | InFrame(p, width, height)
      ensures f(p) == g(p)
    {
      ClassifySymmetric(img1, img2, p, width, height, md, shift);
    }
    HitsMonotone(f, g, width, height);
    HitsMonotone(g, f, width, height);
  }

  /** The count never exceeds the number of pixels. */
  lemma CountBound(img1: seq<Byte>, img2: seq<Byte>, width: int, height: int, threshold: Option<real>, antialiasing: Option<int>)
    requires Fits(img1, width, height) && Fits(img2, width, height)
    ensures 4 * Count(img1, img2, width, height, threshold, antialiasing) <= |img1|
  {
    HitsBound(DiffHit(Verdicts(img1, img2, width, height, MaxDelta(threshold), Shift(antialiasing)), width, height),
              width, height);
  }

  /**
   * Every pixel of the output is painted opaque: red for a difference, yellow
   * for an excused pixel, the background grey of img1 otherwise.
   */
  lemma PicturePixel(img1: seq<Byte>, img2: seq<Byte>, s: seq<Byte>, kind: ElementKind, width: int, height: int,
                     threshold: Option<real>, antialiasing: Option<int>, p: Point)
    requires Fits(img1, width, height) && Fits(img2, width, height) && |s| == |img1| && InFrame(p, width, height)
    ensures Readable(s, p, width) && Readable(img1, p, width)
    ensures var v := Classify(img1, img2, p, width, height, MaxDelta(threshold), Shift(antialiasing));
      var k := Offset(p, width);
      var px := PixelAt(Picture(img1, img2, s, kind, width, height, threshold, antialiasing), k);
      && (v == Different ==> px == Rgba(255, 0, 0, 255))
      && (v == Ignored ==> px == Rgba(255, 255, 0, 255))
      && (v == Background ==> var g := Store(kind, BgValue(img1, k)); px == Rgba(g, g, g, 255))
  {
    InFrameReadable(s, p, width, height);
    InFrameReadable(img1, p, width, height);
    var verdict := Verdicts(img1, img2, width, height, MaxDelta(threshold), Shift(antialiasing));
    RenderPixel(s, kind, Paint(img1, verdict, width, height), width, height, height, p);
  }

  /** A black pixel beside a mid grey, and a white pixel beside the same grey. */
  const DarkEdge: seq<Byte> := [0, 0, 0, 255, 128, 128, 128, 255]
  const LightEdge: seq<Byte> := [255, 255, 255, 255, 128, 128, 128, 255]

  lemma EdgeFrame()
    ensures Fits(DarkEdge, 2, 1) && Fits(LightEdge, 2, 1)
    ensures Offset(Point(0, 0), 2) == 0 && Offset(Point(1, 0), 2) == 4
  {
    OffsetValue(Point(0, 0), 2);
    OffsetValue(Point(1, 0), 2);
  }

  /** The two images differ only in their first pixel, by 3 * 255 * 255. */
  lemma EdgeCentres()
    ensures ColorDelta(DarkEdge, LightEdge, 0, 0) == 195075 && ColorDelta(DarkEdge, LightEdge, 4, 4) == 0
  {
  }

  /** In DarkEdge the grey neighbour contrasts with the black pixel by 3 * 128 * 128, in either image. */
  lemma DarkContrast()
    ensures ColorDelta(DarkEdge, DarkEdge, 0, 4) == 49152 && ColorDelta(DarkEdge, LightEdge, 0, 4) == 49152
  {
  }

  /** In LightEdge the grey neighbour contrasts with the white pixel by 3 * 127 * 127, in either image. */
  lemma LightContrast()
    ensures ColorDelta(LightEdge, LightEdge, 0, 4) == 48387 && ColorDelta(LightEdge, DarkEdge, 0, 4) == 48387
  {
  }

  /** A neighbour in reach that excuses c both ways makes c Ignored once it differs beyond maxDelta. */
  lemma ExcusedBothWays(img1: seq<Byte>, img2: seq<Byte>, c: Point, q: Point, width: int, height: int, maxDelta: real, shift: int)
    requires Fits(img1, width, height) && Fits(img2, width, height) && InFrame(c, width, height) && InFrame(q, width, height)
    requires shift != 0 && InReach(q, c, shift, width, height) && q != c
    requires Classify(img1, img2, c, width, height, maxDelta, shift) != Background
    requires Excuses(img1, img2, c, q, width, height, maxDelta) && Excuses(img2, img1, c, q, width, height, maxDelta)
    ensures Classify(img1, img2, c, width, height, maxDelta, shift) == Ignored
  {
  }

  /** When the only neighbour q in reach does not excuse c, c is Different once it differs beyond maxDelta. */
  lemma LoneNeighbour(img1: seq<Byte>, img2: seq<Byte>, c: Point, q: Point, width: int, height: int, maxDelta: real, shift: int)
    requires Fits(img1, width, height) && Fits(img2, width, height) && InFrame(c, width, height) && InFrame(q, width, height)
    requires forall p | InReach(p, c, shift, width, height) && p != c :: p == q
    requires Classify(img1, img2, c, width, height, maxDelta, shift) != Background
    requires !Excuses(img1, img2, c, q, width, height, maxDelta)
    ensures Classify(img1, img2, c, width, height, maxDelta, shift) == Different
  {
  }

  /** In a 2 x 1 frame a count is that of its two pixels. */
  lemma TwoPixels(hit: Point -> bool)
    ensures Hits(hit, 2, 1) == (if hit(Point(0, 0)) then 1 else 0) + (if hit(Point(1, 0)) then 1 else 0)
  {
    assert Hits(hit, 2, 1) == RowHits(hit, 0, 2);
  }

  /** At maxDelta 2601 the grey neighbour excuses the first pixel in both images. */
  lemma EdgeExcused()
    ensures Fits(DarkEdge, 2, 1) && Fits(LightEdge, 2, 1)
    ensures Classify(DarkEdge, LightEdge, Point(0, 0), 2, 1, 2601.0, 1) == Ignored
    ensures Classify(DarkEdge, LightEdge, Point(1, 0), 2, 1, 2601.0, 1) == Background
  {
    EdgeFrame();
    EdgeCentres();
    DarkContrast();
    LightContrast();
    var c, q := Point(0, 0), Point(1, 0);
    assert Excuses(DarkEdge, LightEdge, c, q, 2, 1, 2601.0);
    assert Excuses(LightEdge, DarkEdge, c, q, 2, 1, 2601.0);
    ExcusedBothWays(DarkEdge, LightEdge, c, q, 2, 1, 2601.0, 1);
  }

  /** At maxDelta 65025 the neighbour's own contrast no longer exceeds the threshold, so nothing excuses the first pixel. */
  lemma EdgeCounted()
    ensures Fits(DarkEdge, 2, 1) && Fits(LightEdge, 2, 1)
    ensures Classify(DarkEdge, LightEdge, Point(0, 0), 2, 1, 65025.0, 1) == Different
    ensures Classify(DarkEdge, LightEdge, Point(1, 0), 2, 1, 65025.0, 1) == Background
  {
    EdgeFrame();
    EdgeCentres();
    DarkContrast();
    LightContrast();
    var c, q := Point(0, 0), Point(1, 0);
    assert !Excuses(DarkEdge, LightEdge, c, q, 2, 1, 65025.0);
    forall p | InReach(p, c, 1, 2, 1) && p != c
      ensures p == q
    {
    }
    LoneNeighbour(DarkEdge, LightEdge, c, q, 2, 1, 65025.0, 1);
  }

  /**
   * Unlike the later class, a higher threshold can report MORE differences:
   * the excuse needs a neighbour whose contrast exceeds the threshold, so
   * raising the threshold can withdraw it. Comparing the two 2 x 1 images
   * above, threshold 0.01 excuses the first pixel (count 0) while 0.25 counts
   * it (count 1).
   */
  lemma ThresholdNotMonotone()
    ensures Fits(DarkEdge, 2, 1) && Fits(LightEdge, 2, 1)
    ensures Count(DarkEdge, LightEdge, 2, 1, Some(0.01), None) == 0
    ensures Count(DarkEdge, LightEdge, 2, 1, Some(0.25), None) == 1
  {
    EdgeExcused();
    EdgeCounted();
    assert MaxDelta(Some(0.01)) == 2601.0 && MaxDelta(Some(0.25)) == 65025.0;
    TwoPixels(DiffHit(Verdicts(DarkEdge, LightEdge, 2, 1, 2601.0, 1), 2, 1));
    TwoPixels(DiffHit(Verdicts(DarkEdge, LightEdge, 2, 1, 65025.0, 1), 2, 1));
  }
}

/**
 * The perceptual colour distance of pixelmatch (lib/index.ts and its compiled
 * copy dist/index.js): semi-transparent pixels are blended over white, turned
 * into YIQ, and compared either by luma alone or by a weighted squared distance
 * (Kotsarenko and Ramos, "Measuring perceived color difference using YIQ NTSC
 * transmission color space in mobile applications"). Numbers are exact reals.
 */
module ColorMetric {
  import opened Raster

  /** Blend channel value `c` of opacity `a` (0 to 1) over white. */
  function Blend(c: real, a: real): (r: real)
    ensures 0.0 <= a <= 1.0 && 0.0 <= c <= 255.0 ==> c <= r <= 255.0
    ensures a == 1.0 ==> r == c
    ensures a == 0.0 ==> r == 255.0
  {
    BlendBetween(c, a);
    255.0 + (c - 255.0) * a
  }

  /** Blending by an opacity between 0 and 1 lands between the colour and white. */
  lemma BlendBetween(c: real, a: real)
    ensures 0.0 <= a <= 1.0 && 0.0 <= c <= 255.0 ==>
      c <= 255.0 + (c - 255.0) * a <= 255.0
  {
    if 0.0 <= a <= 1.0 && 0.0 <= c <= 255.0 {
      MulNonNegative(255.0 - c, a);
      MulNonNegative(255.0 - c, 1.0 - a);
      assert (c - 255.0) * a == -((255.0 - c) * a);
      assert (255.0 - c) * (1.0 - a) == (255.0 - c) - (255.0 - c) * a;
    }
  }

  lemma MulNonNegative(u: real, v: real)
    requires 0.0 <= u && 0.0 <= v
    ensures 0.0 <= u * v
  {
  }

  /** Y (luma) of the YIQ colour space. */
  function Rgb2Y(r: real, g: real, b: real): real {
    r * 0.29889531 + g * 0.58662247 + b * 0.11448223
  }

  /** I (orange-blue chroma) of the YIQ colour space. */
  function Rgb2I(r: real, g: real, b: real): real {
    r * 0.59597799 - g * 0.27417610 - b * 0.32180189
  }

  /** Q (purple-green chroma) of the YIQ colour space. */
  function Rgb2Q(r: real, g: real, b: real): real {
    r * 0.21147017 - g * 0.52261711 + b * 0.31114694
  }

  /** Colour channels of a pixel as rendered on a white canvas. */
  datatype Rgb = Rgb(r: real, g: real, b: real)

  /** A pixel with alpha below 255 is blended over white; an opaque one is taken as it is. */
  function OverWhite(px: Rgba): (c: Rgb)
    ensures px.a == 0 ==> c == Rgb(255.0, 255.0, 255.0)
    ensures px.a == 255 ==> c == Rgb(px.r as real, px.g as real, px.b as real)
    ensures 0.0 <= c.r <= 255.0 && 0.0 <= c.g <= 255.0 && 0.0 <= c.b <= 255.0
  {
    if px.a < 255 then
      var a := px.a as real / 255.0;
      Rgb(Blend(px.r as real, a), Blend(px.g as real, a), Blend(px.b as real, a))
    else
      Rgb(px.r as real, px.g as real, px.b as real)
  }

  /** Luma of a pixel over white; the three weights add up to 1.00000001. */
  function Luma(px: Rgba): (y: real)
    ensures 0.0 <= y <= 255.0 * 1.00000001
  {
    var c := OverWhite(px);
    Rgb2Y(c.r, c.g, c.b)
  }

  /**
   * _colorDelta: the difference between the pixel at offset `k` of `img1` and the
   * one at offset `m` of `img2`; the signed luma difference when `yOnly`, the
   * weighted squared YIQ distance otherwise. Byte-identical pixels give exactly 0.
   */
  function ColorDelta(img1: seq<Byte>, img2: seq<Byte>, k: int, m: int, yOnly: bool): (d: real)
    requires 0 <= k && k + 4 <= |img1|
    requires 0 <= m && m + 4 <= |img2|
    ensures PixelAt(img1, k) == PixelAt(img2, m) ==> d == 0.0
    ensures yOnly ==> d == Luma(PixelAt(img1, k)) - Luma(PixelAt(img2, m))
    ensures !yOnly ==> d >= 0.0  // a weighted sum of squares with positive weights
  {
    var p1, p2 := PixelAt(img1, k), PixelAt(img2, m);
    if p1 == p2 then 0.0
    else
      var c1, c2 := OverWhite(p1), OverWhite(p2);
      var y := Rgb2Y(c1.r, c1.g, c1.b) - Rgb2Y(c2.r, c2.g, c2.b);
      if yOnly then y
      else
        var i := Rgb2I(c1.r, c1.g, c1.b) - Rgb2I(c2.r, c2.g, c2.b);
        var q := Rgb2Q(c1.r, c1.g, c1.b) - Rgb2Q(c2.r, c2.g, c2.b);
        YiqDistance(y, i, q)
  }

  /** The weighted squared distance for YIQ differences `y`, `i`, `q`. */
  function YiqDistance(y: real, i: real, q: real): (d: real)
    ensures d >= 0.0
  {
    0.5053 * Square(y) + 0.299 * Square(i) + 0.1957 * Square(q)
  }

  /** `v` to the `n`-th power, by repeated multiplication. */
  function Power(v: real, n: nat): real
  {
    if n == 0 then 1.0 else v * Power(v, n - 1)
  }

  /** The second power is `v` times `v`, which no sign of `v` makes negative. */
  lemma SquareValue(v: real)
    ensures Power(v, 2) == v * v && 0.0 <= v * v
  {
    assert Power(v, 1) == v;
    if v < 0.0 {
      MulNonNegative(-v, -v);
    } else {
      MulNonNegative(v, v);
    }
  }

  /** The square of a YIQ difference (`y * y` and so on in the source). */
  function Square(v: real): (s: real)
    ensures s >= 0.0
  {
    SquareValue(v);
    Power(v, 2)
  }

  /** A difference and its negation have the same square. */
  lemma SquareEven(v: real)
    ensures Square(-v) == Square(v)
  {
    SquareValue(v);
    SquareValue(-v);
  }

  /**
   * Swapping the two pixels keeps the full distance and negates the luma
   * difference: the metric does not care which image is the first one.
   */
  lemma ColorDeltaSwap(img1: seq<Byte>, img2: seq<Byte>, k: int, m: int)
    requires 0 <= k && k + 4 <= |img1|
    requires 0 <= m && m + 4 <= |img2|
    ensures ColorDelta(img1, img2, k, m, false) == ColorDelta(img2, img1, m, k, false)
    ensures ColorDelta(img1, img2, k, m, true) == -ColorDelta(img2, img1, m, k, true)
  {
    var p1, p2 := PixelAt(img1, k), PixelAt(img2, m);
    if p1 != p2 {
      var c1, c2 := OverWhite(p1), OverWhite(p2);
      var y := Rgb2Y(c1.r, c1.g, c1.b) - Rgb2Y(c2.r, c2.g, c2.b);
      var i := Rgb2I(c1.r, c1.g, c1.b) - Rgb2I(c2.r, c2.g, c2.b);
      var q := Rgb2Q(c1.r, c1.g, c1.b) - Rgb2Q(c2.r, c2.g, c2.b);
      SquareEven(y);
      SquareEven(i);
      SquareEven(q);
    }
  }

  /** Two fully transparent pixels compare as equal, whatever their colour bytes. */
  lemma TransparentPixelsMatch(img1: seq<Byte>, img2: seq<Byte>, k: int, m: int, yOnly: bool)
    requires 0 <= k && k + 4 <= |img1|
    requires 0 <= m && m + 4 <= |img2|
    requires img1[k + 3] == 0 && img2[m + 3] == 0
    ensures ColorDelta(img1, img2, k, m, yOnly) == 0.0
  {
  }
}

/**
 * The diff image writers of pixelmatch (lib/index.ts, dist/index.js):
 * _drawPixel paints one pixel of the output buffer in a colour, fully opaque,
 * and _drawGrayPixel paints it in the luma of an input pixel faded toward
 * white. The output is a typed array updated in place; a number assigned to
 * one of its slots is stored as its element kind stores numbers.
 */
module Painter {
  import opened Raster
  import opened Wrappers
  import opened ColorMetric

  /** A colour to paint, one number per channel, before the buffer stores it. */
  datatype Color = Color(r: real, g: real, b: real)

  /**
   * The bytes of buffer `s` of element kind `kind` once the pixel at offset
   * `pos` is painted in r, g, b with alpha 255: that pixel holds the stored
   * colour, every other byte is left as it was.
   */
  function Painted(s: seq<Byte>, kind: ElementKind, pos: int, r: real, g: real, b: real): (t: seq<Byte>)
    requires 0 <= pos && pos + 4 <= |s|
    ensures |t| == |s|
    ensures PixelAt(t, pos) == Rgba(Store(kind, r), Store(kind, g), Store(kind, b), 255)
    ensures forall k | 0 <= k < |s| && !(pos <= k < pos + 4) :: t[k] == s[k]
  {
    s[pos := Store(kind, r)][pos + 1 := Store(kind, g)][pos + 2 := Store(kind, b)][pos + 3 := 255]
  }

  /** Painting a pixel twice leaves only the second colour. */
  lemma PaintedTwice(s: seq<Byte>, kind: ElementKind, pos: int, r: real, g: real, b: real, r': real, g': real, b': real)
    requires 0 <= pos && pos + 4 <= |s|
    ensures Painted(Painted(s, kind, pos, r, g, b), kind, pos, r', g', b') == Painted(s, kind, pos, r', g', b')
  {
    var u, v := Painted(Painted(s, kind, pos, r, g, b), kind, pos, r', g', b'), Painted(s, kind, pos, r', g', b');
    assert PixelAt(u, pos) == PixelAt(v, pos);
    assert forall k | 0 <= k < |s| :: u[k] == v[k];
  }

  /** Painting two different pixels gives the same bytes in either order. */
  lemma PaintedCommute(s: seq<Byte>, kind: ElementKind, pos: int, pos': int,
                       r: real, g: real, b: real, r': real, g': real, b': real)
    requires 0 <= pos && pos + 4 <= |s| && 0 <= pos' && pos' + 4 <= |s|
    requires pos + 4 <= pos' || pos' + 4 <= pos
    ensures Painted(Painted(s, kind, pos, r, g, b), kind, pos', r', g', b') ==
            Painted(Painted(s, kind, pos', r', g', b'), kind, pos, r, g, b)
  {
    var u := Painted(Painted(s, kind, pos, r, g, b), kind, pos', r', g', b');
    var v := Painted(Painted(s, kind, pos', r', g', b'), kind, pos, r, g, b);
    assert PixelAt(u, pos) == PixelAt(v, pos) && PixelAt(u, pos') == PixelAt(v, pos');
    assert forall k | 0 <= k < |s| :: u[k] == v[k];
  }

  /** The bytes of `s` once pixel p is painted in colour `c`, or left alone when there is none. */
  function PaintAt(s: seq<Byte>, kind: ElementKind, p: Point, width: int, c: Option<Color>): (t: seq<Byte>)
    requires 0 <= Offset(p, width) && Offset(p, width) + 4 <= |s|
    ensures |t| == |s|
  {
    match c
    case None => s
    case Some(col) => Painted(s, kind, Offset(p, width), col.r, col.g, col.b)
  }

  /** _drawPixel: output[pos .. pos + 3] := r, g, b, 255. */
  method DrawPixel(output: array<Byte>, kind: ElementKind, pos: int, r: real, g: real, b: real)
    requires 0 <= pos && pos + 4 <= output.Length
    modifies output
    ensures output[..] == Painted(old(output[..]), kind, pos, r, g, b)
  {
    output[pos] := Store(kind, r);
    output[pos + 1] := Store(kind, g);
    output[pos + 2] := Store(kind, b);
    output[pos + 3] := 255;
  }

  /**
   * The grey level _drawGrayPixel writes for the pixel at offset `i` of `img`:
   * the luma of its colour bytes, blended over white by `alpha` times its own
   * opacity.
   */
  function GrayValue(img: seq<Byte>, i: int, alpha: real): real
    requires 0 <= i && i + 4 <= |img|
  {
    Blend(Rgb2Y(img[i] as real, img[i + 1] as real, img[i + 2] as real), alpha * img[i + 3] as real / 255.0)
  }

  /** The luma of three bytes lies between 0 and 255 * 1.00000001 (the weights add up to 1.00000001). */
  lemma LumaRange(r: Byte, g: Byte, b: Byte)
    ensures 0.0 <= Rgb2Y(r as real, g as real, b as real) <= 255.0 * 1.00000001
  {
  }

  /**
   * For an alpha between 0 and 1 the grey level lies between the pixel's luma
   * and white, so a Uint8Array or Buffer stores its integer part and no slot
   * wraps around.
   */
  lemma GrayInRange(img: seq<Byte>, i: int, alpha: real)
    requires 0 <= i && i + 4 <= |img| && 0.0 <= alpha <= 1.0
    ensures var v := GrayValue(img, i, alpha);
      0.0 <= v < 256.0 && Store(Uint8, v) == v.Floor
  {
    var y := Rgb2Y(img[i] as real, img[i + 1] as real, img[i + 2] as real);
    var a := alpha * img[i + 3] as real / 255.0;
    LumaRange(img[i], img[i + 1], img[i + 2]);
    assert 0.0 <= a <= 1.0 by {
      MulNonNegative(alpha, img[i + 3] as real);
      assert alpha * img[i + 3] as real <= img[i + 3] as real by {
        MulNonNegative(1.0 - alpha, img[i + 3] as real);
      }
    }
    BlendRange(y, a);
  }

  /** Blending by an opacity between 0 and 1 lands between the value and white, whichever is larger. */
  lemma BlendRange(c: real, a: real)
    requires 0.0 <= a <= 1.0
    ensures c <= 255.0 ==> c <= Blend(c, a) <= 255.0
    ensures c >= 255.0 ==> 255.0 <= Blend(c, a) <= c
  {
    if c >= 255.0 {
      MulNonNegative(c - 255.0, a);
      MulNonNegative(c - 255.0, 1.0 - a);
      assert (c - 255.0) * (1.0 - a) == (c - 255.0) - (c - 255.0) * a;
    }
  }

  /** A transparent pixel, or an alpha of 0, turns white in the diff image. */
  lemma GrayTransparent(img: seq<Byte>, i: int, alpha: real)
    requires 0 <= i && i + 4 <= |img|
    requires img[i + 3] == 0 || alpha == 0.0
    ensures GrayValue(img, i, alpha) == 255.0
  {
    assert alpha * img[i + 3] as real == 0.0;
  }

  /** With alpha 1 an opaque pixel is painted in its own luma. */
  lemma GrayOpaque(img: seq<Byte>, i: int)
    requires 0 <= i && i + 4 <= |img| && img[i + 3] == 255
    ensures GrayValue(img, i, 1.0) == Rgb2Y(img[i] as real, img[i + 1] as real, img[i + 2] as real)
  {
  }

  /** _drawGrayPixel: paints pixel `i` of the output in the grey level of pixel `i` of `img`. */
  method DrawGrayPixel(img: seq<Byte>, i: int, alpha: real, output: array<Byte>, kind: ElementKind)
    requires 0 <= i && i + 4 <= |img| && i + 4 <= output.Length
    modifies output
    ensures output[..] == Painted(old(output[..]), kind, i, GrayValue(img, i, alpha), GrayValue(img, i, alpha), GrayValue(img, i, alpha))
  {
    var r, g, b := img[i], img[i + 1], img[i + 2];
    var val := Blend(Rgb2Y(r as real, g as real, b as real), alpha * img[i + 3] as real / 255.0);
    DrawPixel(output, kind, i, val, val, val);
  }
}

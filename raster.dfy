/**
 * Pixel buffers as the comparison engine sees them: interleaved RGBA bytes,
 * row-major, four bytes per pixel, and the way a typed array turns a number
 * written into it into a stored byte.
 */
module Raster {

  /** One sample of an 8-bit pixel buffer. */
  type Byte = b: int | 0 <= b < 256

  /** The element type of a buffer handed to the comparison. */
  datatype ElementKind =
    | Uint8         // Uint8Array or Node's Buffer: a store applies ToUint8
    | Uint8Clamped  // Uint8ClampedArray: a store applies ToUint8Clamp
    | NotPixelData  // not a view with one-byte elements: a plain Array, a Float32Array, ...
                    // (an Int8Array passes the source's test and has no kind of its own here)

  /** Truncation of a number toward zero, as JavaScript conversions to integers do it. */
  function Truncate(v: real): (t: int)
    ensures v >= 0.0 ==> t as real <= v < t as real + 1.0
    ensures v <= 0.0 ==> t as real - 1.0 < v <= t as real
  {
    if v >= 0.0 then v.Floor else -((-v).Floor)
  }

  /** ECMAScript ToUint8: truncate toward zero, then reduce modulo 2^8. */
  function ToUint8(v: real): (b: Byte)
    ensures 0.0 <= v < 256.0 ==> b == v.Floor
    ensures (Truncate(v) - b) % 256 == 0
  {
    Truncate(v) % 256
  }

  /** ECMAScript ToUint8Clamp: clamp to 0..255, then round to nearest, ties to even. */
  function ToUint8Clamp(v: real): (b: Byte)
    ensures v <= 0.0 ==> b == 0
    ensures v >= 255.0 ==> b == 255
    ensures 0.0 <= v <= 255.0 ==> b as real - 0.5 <= v <= b as real + 0.5
    ensures 0.0 <= v <= 255.0 && (v == b as real - 0.5 || v == b as real + 0.5) ==> b % 2 == 0
  {
    if v <= 0.0 then 0
    else if v >= 255.0 then 255
    else
      var f := v.Floor;
      if f as real + 0.5 < v then f + 1
      else if v < f as real + 0.5 then f
      else if f % 2 == 0 then f
      else f + 1
  }

  /**
   * The byte a buffer of element kind `kind` holds after the number `v` is
   * assigned to a slot. A byte value is stored as it is in either kind; a
   * Uint8Array keeps the integer part of a number below 256 and wraps larger
   * ones, a Uint8ClampedArray saturates at 0 and 255 and rounds in between.
   */
  function Store(kind: ElementKind, v: real): (b: Byte)
    ensures 0.0 <= v <= 255.0 && v == v.Floor as real ==> b == v.Floor
    ensures kind != Uint8Clamped && 0.0 <= v < 256.0 ==> b == v.Floor
    ensures kind != Uint8Clamped ==> (Truncate(v) - b) % 256 == 0
    ensures kind == Uint8Clamped && v <= 0.0 ==> b == 0
    ensures kind == Uint8Clamped && v >= 255.0 ==> b == 255
    ensures kind == Uint8Clamped && 0.0 <= v <= 255.0 ==> b as real - 0.5 <= v <= b as real + 0.5
    ensures kind == Uint8Clamped && 0.0 <= v <= 255.0 && (v == b as real - 0.5 || v == b as real + 0.5) ==> b % 2 == 0
  {
    if kind == Uint8Clamped then ToUint8Clamp(v) else ToUint8(v)
  }

  /** A pixel coordinate; (0, 0) is the top-left pixel. */
  datatype Point = Point(x: int, y: int)

  /** One pixel's four samples. */
  datatype Rgba = Rgba(r: Byte, g: Byte, b: Byte, a: Byte)

  /**
   * The number of pixels of a `width` by `height` frame, defined row by row, so
   * that the solver can treat it as a term of its own; AreaValue gives the
   * closed form width * height.
   */
  function Area(width: int, height: int): int
    decreases if height < 0 then -height else height
  {
    if height == 0 then 0
    else if height > 0 then Area(width, height - 1) + width
    else Area(width, height + 1) - width
  }

  lemma {:induction false} AreaValue(width: int, height: int)
    ensures Area(width, height) == width * height
    decreases if height < 0 then -height else height
  {
    if height > 0 {
      AreaValue(width, height - 1);
      assert width * (height - 1) == width * height - width;
    } else if height < 0 {
      AreaValue(width, height + 1);
      assert width * (height + 1) == width * height + width;
    }
  }

  /**
   * Byte offset of pixel `p` in a buffer whose rows are `width` pixels wide:
   * four bytes per pixel, after the p.y full rows above it. OffsetValue gives
   * the closed form (p.y * width + p.x) * 4 that the source computes.
   */
  function Offset(p: Point, width: int): int {
    4 * (Area(width, p.y) + p.x)
  }

  lemma OffsetValue(p: Point, width: int)
    ensures Offset(p, width) == (p.y * width + p.x) * 4
  {
    AreaValue(width, p.y);
  }

  predicate InFrame(p: Point, width: int, height: int) {
    0 <= p.x < width && 0 <= p.y < height
  }

  /** The buffer holds exactly `width` by `height` pixels: width * height * 4 bytes. */
  predicate Fits(img: seq<Byte>, width: int, height: int) {
    |img| == Area(width, height) * 4
  }

  /** All four bytes of pixel `p` lie inside `img`. */
  predicate Readable(img: seq<Byte>, p: Point, width: int) {
    0 <= p.x < width && 0 <= p.y && 0 <= Offset(p, width) && Offset(p, width) + 4 <= |img|
  }

  /** The pixel whose first byte is at offset `k`. */
  function PixelAt(img: seq<Byte>, k: int): (px: Rgba)
    requires 0 <= k && k + 4 <= |img|
    ensures px.r == img[k] && px.g == img[k + 1] && px.b == img[k + 2] && px.a == img[k + 3]
  {
    Rgba(img[k], img[k + 1], img[k + 2], img[k + 3])
  }

  /** Every pixel of the frame lies inside a buffer that fits the frame, at a multiple of four. */
  lemma InFrameReadable(img: seq<Byte>, p: Point, width: int, height: int)
    requires Fits(img, width, height) && InFrame(p, width, height)
    ensures Readable(img, p, width)
  {
    OffsetValue(p, width);
    AreaValue(width, height);
    assert 0 <= p.y * width;
    assert p.y * width + p.x < (p.y + 1) * width;
    assert (p.y + 1) * width <= height * width by {
      MulMonotone(p.y + 1, height, width);
    }
  }

  lemma MulMonotone(a: int, b: int, c: int)
    requires a <= b && 0 <= c
    ensures a * c <= b * c
  {
    assert b * c - a * c == (b - a) * c;
  }

  /** The coordinate of the `i`-th pixel of the row-major sweep. */
  function Coord(i: int, width: int): Point
    requires 0 < width
  {
    Point(i % width, i / width)
  }

  /** Row-major numbering is a bijection: pixel (x, y) is number y * width + x. */
  lemma CoordOfIndex(p: Point, width: int)
    requires 0 <= p.x < width && 0 <= p.y
    ensures Coord(p.y * width + p.x, width) == p
  {
    var i := p.y * width + p.x;
    var q, r := i / width, i % width;
    assert i == q * width + r;
    assert (p.y - q) * width == r - p.x;
    if p.y > q {
      MulMonotone(1, p.y - q, width);
    } else if p.y < q {
      MulMonotone(1, q - p.y, width);
    }
  }

  /** The `i`-th pixel of the sweep lies in the frame, and its bytes start at 4 * i. */
  lemma CoordInFrame(i: int, width: int, height: int)
    requires 0 < width && 0 <= i < Area(width, height)
    ensures InFrame(Coord(i, width), width, height)
    ensures Offset(Coord(i, width), width) == 4 * i
  {
    var q, r := i / width, i % width;
    assert i == q * width + r && 0 <= r < width;
    OffsetValue(Point(r, q), width);
    AreaValue(width, height);
    if q < 0 {
      MulMonotone(q, -1, width);
    }
    if q >= height {
      MulMonotone(height, q, width);
    }
  }
}

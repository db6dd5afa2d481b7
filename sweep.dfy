/**
 * The row-major sweep of pixelmatch's driver: rows 0 .. height - 1 from the
 * top, each row's columns 0 .. width - 1 from the left. Counting and painting
 * along the sweep are folds in that order, generic in what happens at one
 * pixel; the fast path for identical images instead paints pixel by pixel in
 * buffer order, which is the fold Fill.
 */
module Sweep {
  import opened Wrappers
  import opened Raster
  import opened Painter

  /** The number of columns 0 .. x - 1 of row y that `hit` holds for. */
  function RowHits(hit: Point -> bool, y: int, x: int): nat
    decreases x
  {
    if x <= 0 then 0 else RowHits(hit, y, x - 1) + (if hit(Point(x - 1, y)) then 1 else 0)
  }

  /** The number of pixels of rows 0 .. y - 1, `width` columns each, that `hit` holds for. */
  function Hits(hit: Point -> bool, width: int, y: int): nat
    decreases y
  {
    if y <= 0 then 0 else Hits(hit, width, y - 1) + RowHits(hit, y - 1, width)
  }

  lemma {:induction false} RowHitsBound(hit: Point -> bool, y: int, x: int)
    ensures RowHits(hit, y, x) <= if x > 0 then x else 0
    decreases x
  {
    if x > 0 {
      RowHitsBound(hit, y, x - 1);
    }
  }

  /** The count never exceeds the number of pixels of the frame, and is 0 for an empty frame. */
  lemma {:induction false} HitsBound(hit: Point -> bool, width: int, height: int)
    ensures Hits(hit, width, height) <= if 0 < width && 0 < height then Area(width, height) else 0
    decreases height
  {
    if height > 0 {
      HitsBound(hit, width, height - 1);
      RowHitsBound(hit, height - 1, width);
    }
  }

  lemma {:induction false} RowHitsMonotone(fewer: Point -> bool, more: Point -> bool, y: int, x: int)
    requires forall p: Point | p.y == y && 0 <= p.x < x :: fewer(p) ==> more(p)
    ensures RowHits(fewer, y, x) <= RowHits(more, y, x)
    decreases x
  {
    if x > 0 {
      RowHitsMonotone(fewer, more, y, x - 1);
    }
  }

  /** Counting a condition that holds at fewer pixels of the frame gives a count no larger. */
  lemma {:induction false} HitsMonotone(fewer: Point -> bool, more: Point -> bool, width: int, height: int)
    requires forall p | InFrame(p, width, height) :: fewer(p) ==> more(p)
    ensures Hits(fewer, width, height) <= Hits(more, width, height)
    decreases height
  {
    if height > 0 {
      HitsMonotone(fewer, more, width, height - 1);
      assert forall p: Point | p.y == height - 1 && 0 <= p.x < width :: InFrame(p, width, height);
      RowHitsMonotone(fewer, more, height - 1, width);
    }
  }

  lemma {:induction false} RowHitsNone(hit: Point -> bool, y: int, x: int)
    ensures RowHits(hit, y, x) == 0 <==> forall p: Point | p.y == y && 0 <= p.x < x :: !hit(p)
    decreases x
  {
    if x > 0 {
      RowHitsNone(hit, y, x - 1);
    }
  }

  /** The count is 0 exactly when the condition holds at no pixel of the frame. */
  lemma {:induction false} HitsNone(hit: Point -> bool, width: int, height: int)
    ensures Hits(hit, width, height) == 0 <==> forall p | InFrame(p, width, height) :: !hit(p)
    decreases height
  {
    if height > 0 {
      HitsNone(hit, width, height - 1);
      RowHitsNone(hit, height - 1, width);
      if Hits(hit, width, height) == 0 {
        forall p | InFrame(p, width, height)
          ensures !hit(p)
        {
          if p.y < height - 1 {
            assert InFrame(p, width, height - 1);
          }
        }
      }
      if forall p | InFrame(p, width, height) :: !hit(p) {
        assert forall p | InFrame(p, width, height - 1) :: !hit(p);
        assert forall p: Point | p.y == height - 1 && 0 <= p.x < width :: InFrame(p, width, height);
      }
    }
  }

  lemma {:induction false} RowHitsAll(hit: Point -> bool, y: int, x: int)
    requires forall p: Point | p.y == y && 0 <= p.x < x :: hit(p)
    ensures RowHits(hit, y, x) == if x > 0 then x else 0
    decreases x
  {
    if x > 0 {
      RowHitsAll(hit, y, x - 1);
    }
  }

  /** A condition that holds at every pixel of a frame counts every pixel. */
  lemma {:induction false} HitsAll(hit: Point -> bool, width: int, height: int)
    requires 0 <= width
    requires forall p | InFrame(p, width, height) :: hit(p)
    ensures Hits(hit, width, height) == if height > 0 then Area(width, height) else 0
    decreases height
  {
    if height > 0 {
      assert forall p | InFrame(p, width, height - 1) :: InFrame(p, width, height);
      HitsAll(hit, width, height - 1);
      assert forall p: Point | p.y == height - 1 && 0 <= p.x < width :: InFrame(p, width, height);
      RowHitsAll(hit, height - 1, width);
    }
  }

  /** Two pixels of the frame that differ occupy disjoint bytes. */
  lemma OffsetsDisjoint(p: Point, q: Point, width: int, height: int)
    requires InFrame(p, width, height) && InFrame(q, width, height) && p != q
    ensures Offset(p, width) + 4 <= Offset(q, width) || Offset(q, width) + 4 <= Offset(p, width)
  {
    OffsetValue(p, width);
    OffsetValue(q, width);
    if p.y * width + p.x == q.y * width + q.x {
      CoordOfIndex(p, width);
      CoordOfIndex(q, width);
    }
  }

  /** What pixel p, its bytes at offset k of `s`, holds once painted in `c`: the stored colour, or its old value. */
  function Final(s: seq<Byte>, kind: ElementKind, c: Option<Color>, k: int): Rgba
    requires 0 <= k && k + 4 <= |s|
  {
    match c
    case None => PixelAt(s, k)
    case Some(col) => Rgba(Store(kind, col.r), Store(kind, col.g), Store(kind, col.b), 255)
  }

  /** The bytes of `s` once columns 0 .. x - 1 of row y are painted, pixel p in colour paint(p). */
  function RowRender(s: seq<Byte>, kind: ElementKind, paint: Point -> Option<Color>, width: int, height: int, y: int, x: int): (t: seq<Byte>)
    requires Fits(s, width, height) && 0 <= y < height && (x <= 0 || x <= width)
    ensures |t| == |s|
    decreases x
  {
    if x <= 0 then s
    else
      var prev := RowRender(s, kind, paint, width, height, y, x - 1);
      InFrameReadable(prev, Point(x - 1, y), width, height);
      PaintAt(prev, kind, Point(x - 1, y), width, paint(Point(x - 1, y)))
  }

  /** The bytes of `s` once rows 0 .. y - 1 are painted. */
  function Render(s: seq<Byte>, kind: ElementKind, paint: Point -> Option<Color>, width: int, height: int, y: int): (t: seq<Byte>)
    requires Fits(s, width, height) && (y <= 0 || y <= height)
    ensures |t| == |s|
    decreases y
  {
    if y <= 0 then s else RowRender(Render(s, kind, paint, width, height, y - 1), kind, paint, width, height, y - 1, width)
  }

  /** Along a row, each pixel already passed holds its colour and every other pixel is untouched. */
  lemma {:induction false} RowRenderPixel(s: seq<Byte>, kind: ElementKind, paint: Point -> Option<Color>,
                                          width: int, height: int, y: int, x: int, p: Point)
    requires Fits(s, width, height) && 0 <= y < height && x <= width && InFrame(p, width, height)
    ensures Readable(s, p, width)
    ensures PixelAt(RowRender(s, kind, paint, width, height, y, x), Offset(p, width)) ==
      if p.y == y && p.x < x then Final(s, kind, paint(p), Offset(p, width)) else PixelAt(s, Offset(p, width))
    decreases x
  {
    InFrameReadable(s, p, width, height);
    if x > 0 {
      RowRenderPixel(s, kind, paint, width, height, y, x - 1, p);
      var q := Point(x - 1, y);
      if p != q {
        OffsetsDisjoint(p, q, width, height);
      }
    }
  }

  /**
   * After the sweep has passed rows 0 .. y - 1, each pixel of those rows holds
   * its colour and every other pixel is untouched.
   */
  lemma {:induction false} RenderPixel(s: seq<Byte>, kind: ElementKind, paint: Point -> Option<Color>,
                                       width: int, height: int, y: int, p: Point)
    requires Fits(s, width, height) && y <= height && InFrame(p, width, height)
    ensures Readable(s, p, width)
    ensures PixelAt(Render(s, kind, paint, width, height, y), Offset(p, width)) ==
      if p.y < y then Final(s, kind, paint(p), Offset(p, width)) else PixelAt(s, Offset(p, width))
    decreases y
  {
    InFrameReadable(s, p, width, height);
    if y > 0 {
      RenderPixel(s, kind, paint, width, height, y - 1, p);
      var prev := Render(s, kind, paint, width, height, y - 1);
      RowRenderPixel(prev, kind, paint, width, height, y - 1, width, p);
    }
  }

  /** A sweep that paints no pixel of a frame of positive size leaves the bytes as they were. */
  lemma RenderNothing(s: seq<Byte>, kind: ElementKind, paint: Point -> Option<Color>, width: int, height: int)
    requires Fits(s, width, height) && 0 < width && 0 < height
    requires forall p | InFrame(p, width, height) :: paint(p).None?
    ensures Render(s, kind, paint, width, height, height) == s
  {
    AreaValue(width, height);
    var v := Render(s, kind, paint, width, height, height);
    forall i | 0 <= i && 4 * i + 4 <= |s|
      ensures PixelAt(v, 4 * i) == PixelAt(s, 4 * i)
    {
      CoordInFrame(i, width, height);
      RenderPixel(s, kind, paint, width, height, height, Coord(i, width));
    }
    PixelwiseEqual(v, s);
  }

  /** The bytes of `s` once the pixels at offsets 0, 4, .., 4 * (n - 1) are painted, the one at k in colour(k). */
  function Fill(s: seq<Byte>, kind: ElementKind, colour: int -> Color, n: int): (t: seq<Byte>)
    requires 0 <= n && 4 * n <= |s|
    ensures |t| == |s|
    decreases n
  {
    if n == 0 then s
    else
      var c := colour(4 * (n - 1));
      Painted(Fill(s, kind, colour, n - 1), kind, 4 * (n - 1), c.r, c.g, c.b)
  }

  /** Each pixel the fill has passed holds its colour; the rest are untouched. */
  lemma {:induction false} FillPixel(s: seq<Byte>, kind: ElementKind, colour: int -> Color, n: int, i: int)
    requires 0 <= n && 4 * n <= |s| && 0 <= i && 4 * i + 4 <= |s|
    ensures PixelAt(Fill(s, kind, colour, n), 4 * i) ==
      if i < n then Final(s, kind, Some(colour(4 * i)), 4 * i) else PixelAt(s, 4 * i)
    decreases n
  {
    if n > 0 {
      FillPixel(s, kind, colour, n - 1, i);
    }
  }

  /** Two buffers of whole pixels that agree pixel by pixel are equal. */
  lemma PixelwiseEqual(s: seq<Byte>, t: seq<Byte>)
    requires |s| == |t| && |s| % 4 == 0
    requires forall i | 0 <= i && 4 * i + 4 <= |s| :: PixelAt(s, 4 * i) == PixelAt(t, 4 * i)
    ensures s == t
  {
    forall k | 0 <= k < |s|
      ensures s[k] == t[k]
    {
      var i := k / 4;
      assert 4 * i <= k < 4 * i + 4 <= |s|;
      assert PixelAt(s, 4 * i) == PixelAt(t, 4 * i);
    }
  }

  /**
   * In a frame of positive width and height, filling every pixel in buffer
   * order paints the same bytes as the row-major sweep, when both give each
   * pixel the same colour.
   */
  lemma FillIsRender(s: seq<Byte>, kind: ElementKind, colour: int -> Color, paint: Point -> Option<Color>, width: int, height: int)
    requires Fits(s, width, height) && 0 < width && 0 < height
    requires forall p | InFrame(p, width, height) :: paint(p) == Some(colour(Offset(p, width)))
    ensures Fill(s, kind, colour, Area(width, height)) == Render(s, kind, paint, width, height, height)
  {
    AreaValue(width, height);
    var n := Area(width, height);
    var u, v := Fill(s, kind, colour, n), Render(s, kind, paint, width, height, height);
    forall i | 0 <= i && 4 * i + 4 <= |s|
      ensures PixelAt(u, 4 * i) == PixelAt(v, 4 * i)
    {
      CoordInFrame(i, width, height);
      var p := Coord(i, width);
      FillPixel(s, kind, colour, n, i);
      RenderPixel(s, kind, paint, width, height, height, p);
    }
    PixelwiseEqual(u, v);
  }
}

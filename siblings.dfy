/**
 * _hasManySiblings of pixelmatch (lib/index.ts, dist/index.js): whether more
 * than two pixels of the clamped 3x3 window around a pixel are byte-identical
 * to it, the border of the image counting as one.
 *
 * The count is a function over the window, column by column in the order the
 * source's loops visit the pixels; the method with the source's loops and early
 * return is proved to compute it.
 */
module Siblings {
  import opened Raster
  import opened Neighbourhood

  /**
   * Point p is readable and its four bytes equal those at offset `pos`, compared
   * one by one as the source does.
   */
  predicate SameAs(img: seq<Byte>, pos: int, p: Point, width: int)
    requires 0 <= pos && pos + 4 <= |img|
  {
    Readable(img, p, width) && SameBytes(img, pos, Offset(p, width))
  }

  /** The four bytes at offset `k` equal the four at offset `m`, compared one by one as the source does. */
  predicate SameBytes(img: seq<Byte>, k: int, m: int)
    requires 0 <= k && k + 4 <= |img| && 0 <= m && m + 4 <= |img|
  {
    img[k] == img[m] && img[k + 1] == img[m + 1] && img[k + 2] == img[m + 2] && img[k + 3] == img[m + 3]
  }

  /** SameAs is equality of pixels: all four channels, red, green, blue and alpha. */
  lemma SameAsPixel(img: seq<Byte>, pos: int, p: Point, width: int)
    requires 0 <= pos && pos + 4 <= |img| && Readable(img, p, width)
    ensures SameAs(img, pos, p, width) <==> PixelAt(img, pos) == PixelAt(img, Offset(p, width))
  {
  }

  /** How many rows ya .. yb - 1 of column x, other than the centre c, hold a copy of the pixel at `pos`. */
  function ColumnSame(img: seq<Byte>, pos: int, x: int, ya: int, yb: int, c: Point, width: int): (n: nat)
    requires 0 <= pos && pos + 4 <= |img|
    ensures n <= if ya <= yb then yb - ya else 0
    decreases yb - ya
  {
    if yb <= ya then 0
    else
      var p := Point(x, yb - 1);
      ColumnSame(img, pos, x, ya, yb - 1, c, width) + (if p != c && SameAs(img, pos, p, width) then 1 else 0)
  }

  lemma ColumnSameStep(img: seq<Byte>, pos: int, x: int, ya: int, y: int, c: Point, width: int)
    requires 0 <= pos && pos + 4 <= |img| && ya <= y
    ensures ColumnSame(img, pos, x, ya, y + 1, c, width) ==
      ColumnSame(img, pos, x, ya, y, c, width) + (if Point(x, y) != c && SameAs(img, pos, Point(x, y), width) then 1 else 0)
  {
  }

  /** The same count over columns xa .. xb - 1. */
  function WindowSame(img: seq<Byte>, pos: int, xa: int, xb: int, ya: int, yb: int, c: Point, width: int): nat
    requires 0 <= pos && pos + 4 <= |img|
    decreases xb - xa
  {
    if xb <= xa then 0
    else WindowSame(img, pos, xa, xb - 1, ya, yb, c, width) + ColumnSame(img, pos, xb - 1, ya, yb, c, width)
  }

  lemma {:induction false} ColumnSameGrows(img: seq<Byte>, pos: int, x: int, ya: int, y: int, yb: int, c: Point, width: int)
    requires 0 <= pos && pos + 4 <= |img| && y <= yb
    ensures ColumnSame(img, pos, x, ya, y, c, width) <= ColumnSame(img, pos, x, ya, yb, c, width)
    decreases yb - y
  {
    if y < yb {
      ColumnSameGrows(img, pos, x, ya, y, yb - 1, c, width);
    }
  }

  /** What the loops have counted when they stand at column x, row y is at most the whole count. */
  lemma {:induction false} WindowSameGrows(img: seq<Byte>, pos: int, xa: int, x: int, xb: int, ya: int, y: int, yb: int, c: Point, width: int)
    requires 0 <= pos && pos + 4 <= |img| && xa <= x < xb && y <= yb
    ensures WindowSame(img, pos, xa, x, ya, yb, c, width) + ColumnSame(img, pos, x, ya, y, c, width)
      <= WindowSame(img, pos, xa, xb, ya, yb, c, width)
    decreases xb - x
  {
    if xb == x + 1 {
      ColumnSameGrows(img, pos, x, ya, y, yb, c, width);
    } else {
      WindowSameGrows(img, pos, xa, x, xb - 1, ya, y, yb, c, width);
    }
  }

  lemma {:induction false} ColumnSameAll(img: seq<Byte>, pos: int, x: int, ya: int, yb: int, c: Point, width: int)
    requires 0 <= pos && pos + 4 <= |img| && ya <= yb
    requires forall y | ya <= y < yb && Point(x, y) != c :: SameAs(img, pos, Point(x, y), width)
    ensures ColumnSame(img, pos, x, ya, yb, c, width) == ColumnSize(x, ya, yb, c)
    decreases yb - ya
  {
    if yb > ya {
      ColumnSameAll(img, pos, x, ya, yb - 1, c, width);
    }
  }

  /** When every point of a window is a copy of the centre, all of them count. */
  lemma {:induction false} WindowSameAll(img: seq<Byte>, pos: int, xa: int, xb: int, ya: int, yb: int, c: Point, width: int)
    requires 0 <= pos && pos + 4 <= |img| && xa <= xb && ya <= yb
    requires forall p | InWindow(p, xa, xb, ya, yb, c) :: SameAs(img, pos, p, width)
    ensures WindowSame(img, pos, xa, xb, ya, yb, c, width) == WindowSize(xa, xb, ya, yb, c)
    decreases xb - xa
  {
    if xb > xa {
      WindowSameAll(img, pos, xa, xb - 1, ya, yb, c, width);
      ColumnSameAll(img, pos, xb - 1, ya, yb, c, width);
    }
  }

  lemma {:induction false} ColumnSameWitness(img: seq<Byte>, pos: int, x: int, ya: int, yb: int, c: Point, width: int)
    requires 0 <= pos && pos + 4 <= |img| && ColumnSame(img, pos, x, ya, yb, c, width) > 0
    ensures exists y :: ya <= y < yb && Point(x, y) != c && SameAs(img, pos, Point(x, y), width)
    decreases yb - ya
  {
    if !(Point(x, yb - 1) != c && SameAs(img, pos, Point(x, yb - 1), width)) {
      ColumnSameWitness(img, pos, x, ya, yb - 1, c, width);
    }
  }

  /** A positive count has a witness: some point of the window is a copy of the centre. */
  lemma {:induction false} WindowSameWitness(img: seq<Byte>, pos: int, xa: int, xb: int, ya: int, yb: int, c: Point, width: int)
    requires 0 <= pos && pos + 4 <= |img| && WindowSame(img, pos, xa, xb, ya, yb, c, width) > 0
    ensures exists p :: InWindow(p, xa, xb, ya, yb, c) && SameAs(img, pos, p, width)
    decreases xb - xa
  {
    if ColumnSame(img, pos, xb - 1, ya, yb, c, width) > 0 {
      ColumnSameWitness(img, pos, xb - 1, ya, yb, c, width);
      var y :| ya <= y < yb && Point(xb - 1, y) != c && SameAs(img, pos, Point(xb - 1, y), width);
      assert InWindow(Point(xb - 1, y), xa, xb, ya, yb, c);
    } else {
      WindowSameWitness(img, pos, xa, xb - 1, ya, yb, c, width);
    }
  }

  /** The number of neighbours of c that are copies of it, in the order the loops visit them. */
  function SiblingCount(img: seq<Byte>, c: Point, width: int, height: int): nat
    requires Fits(img, width, height) && InFrame(c, width, height)
  {
    InFrameReadable(img, c, width, height);
    WindowSame(img, Offset(c, width), Lo(c.x), Hi(c.x, width) + 1, Lo(c.y), Hi(c.y, height) + 1, c, width)
  }

  /**
   * _hasManySiblings: the border head start plus the number of neighbours whose
   * four bytes equal those of pixel c exceeds 2.
   */
  predicate ManySiblings(img: seq<Byte>, c: Point, width: int, height: int)
    requires Fits(img, width, height) && InFrame(c, width, height)
  {
    BorderStart(c, width, height) + SiblingCount(img, c, width, height) > 2
  }

  /**
   * Once the count over the pixels visited so far exceeds 2, so does the whole
   * count; `pos` and the window bounds are those the loops compute for c.
   */
  lemma EarlySiblings(img: seq<Byte>, c: Point, width: int, height: int,
                      pos: int, x0: int, x2: int, y0: int, y2: int, x: int, y: int)
    requires Fits(img, width, height) && InFrame(c, width, height) && Readable(img, c, width)
    requires pos == Offset(c, width)
    requires x0 == Lo(c.x) && x2 == Hi(c.x, width) && y0 == Lo(c.y) && y2 == Hi(c.y, height)
    requires x0 <= x <= x2 && y <= y2
    requires BorderStart(c, width, height) + WindowSame(img, pos, x0, x, y0, y2 + 1, c, width)
      + ColumnSame(img, pos, x, y0, y + 1, c, width) > 2
    ensures ManySiblings(img, c, width, height)
  {
    WindowSameGrows(img, pos, x0, x, x2 + 1, y0, y + 1, y2 + 1, c, width);
  }

  /** A sweep that ends with at most two matches means the pixel has few siblings. */
  lemma FewSiblings(img: seq<Byte>, c: Point, width: int, height: int,
                    pos: int, x0: int, x2: int, y0: int, y2: int)
    requires Fits(img, width, height) && InFrame(c, width, height) && Readable(img, c, width)
    requires pos == Offset(c, width)
    requires x0 == Lo(c.x) && x2 == Hi(c.x, width) && y0 == Lo(c.y) && y2 == Hi(c.y, height)
    requires BorderStart(c, width, height) + WindowSame(img, pos, x0, x2 + 1, y0, y2 + 1, c, width) <= 2
    ensures !ManySiblings(img, c, width, height)
  {
  }

  /**
   * _hasManySiblings as the source runs it, the border head start first, then
   * the window column by column; it returns as soon as the count exceeds 2.
   */
  method HasManySiblings(img: seq<Byte>, x1: int, y1: int, width: int, height: int) returns (r: bool)
    requires Fits(img, width, height) && InFrame(Point(x1, y1), width, height)
    ensures r == ManySiblings(img, Point(x1, y1), width, height)
  {
    var x0, y0 := Lo(x1), Lo(y1);
    var x2, y2 := Hi(x1, width), Hi(y1, height);
    ghost var c := Point(x1, y1);
    InFrameReadable(img, c, width, height);
    var pos := Offset(Point(x1, y1), width);  // (y1 * width + x1) * 4
    var zeroes := BorderStart(Point(x1, y1), width, height);  // 1 on a border: x1 == x0, x1 == x2, y1 == y0 or y1 == y2

    for x := x0 to x2 + 1
      invariant zeroes == BorderStart(c, width, height) + WindowSame(img, pos, x0, x, y0, y2 + 1, c, width) <= 2
    {
      zeroes := ColumnSiblings(img, pos, x, x1, y1, y0, y2, width, height, zeroes);
      if zeroes > 2 {
        EarlySiblings(img, c, width, height, pos, x0, x2, y0, y2, x, y2);
        return true;
      }
    }
    FewSiblings(img, c, width, height, pos, x0, x2, y0, y2);
    return false;
  }

  /**
   * The inner loop of _hasManySiblings over rows y0 .. y2 of column x, starting
   * from the count `start`; it stops as soon as the count exceeds 2.
   */
  method ColumnSiblings(img: seq<Byte>, pos: int, x: int, x1: int, y1: int, y0: int, y2: int,
                        width: int, height: int, start: int) returns (zeroes: int)
    requires Fits(img, width, height) && 0 <= pos && pos + 4 <= |img|
    requires 0 <= x < width && 0 <= y0 && y2 < height
    requires y0 <= y2 + 1 && start <= 2
    ensures zeroes > 2 <==> start + ColumnSame(img, pos, x, y0, y2 + 1, Point(x1, y1), width) > 2
    ensures zeroes <= 2 ==> zeroes == start + ColumnSame(img, pos, x, y0, y2 + 1, Point(x1, y1), width)
  {
    zeroes := start;
    for y := y0 to y2 + 1
      invariant zeroes == start + ColumnSame(img, pos, x, y0, y, Point(x1, y1), width) <= 2
    {
      ColumnSameStep(img, pos, x, y0, y, Point(x1, y1), width);
      if x == x1 && y == y1 {
        continue;
      }
      InFrameReadable(img, Point(x, y), width, height);
      var pos2 := Offset(Point(x, y), width);  // (y * width + x) * 4
      if SameBytes(img, pos, pos2) {
        zeroes := zeroes + 1;
      }
      if zeroes > 2 {
        ColumnSameGrows(img, pos, x, y0, y + 1, y2 + 1, Point(x1, y1), width);
        return;
      }
    }
  }

  /**
   * In a frame at least 2 by 2, a pixel all of whose neighbours are identical
   * to it has many siblings: even a corner has three neighbours.
   */
  lemma UniformWindowHasManySiblings(img: seq<Byte>, c: Point, width: int, height: int)
    requires Fits(img, width, height) && InFrame(c, width, height) && 2 <= width && 2 <= height
    requires Readable(img, c, width)
    requires forall p | Neighbour(p, c, width, height) :: SameAs(img, Offset(c, width), p, width)
    ensures ManySiblings(img, c, width, height)
  {
    WindowSameAll(img, Offset(c, width), Lo(c.x), Hi(c.x, width) + 1, Lo(c.y), Hi(c.y, height) + 1, c, width);
    NeighbourCount(c, width, height);
  }

  /**
   * A pixel with many siblings has a neighbour identical to it byte for byte:
   * the border head start alone never suffices.
   */
  lemma ManySiblingsWitness(img: seq<Byte>, c: Point, width: int, height: int)
    requires Fits(img, width, height) && InFrame(c, width, height)
    requires ManySiblings(img, c, width, height)
    ensures Readable(img, c, width)
    ensures exists p :: Neighbour(p, c, width, height) && SameAs(img, Offset(c, width), p, width)
  {
    InFrameReadable(img, c, width, height);
    WindowSameWitness(img, Offset(c, width), Lo(c.x), Hi(c.x, width) + 1, Lo(c.y), Hi(c.y, height) + 1, c, width);
  }
}

/**
 * _antialiased of pixelmatch (lib/index.ts, dist/index.js), after V. Vysniauskas,
 * "Anti-aliased Pixel and Intensity Slope Detector" (2009). The centre pixel is
 * compared by luma with each neighbour of its clamped 3x3 window: neighbours of
 * equal luma are counted (the border counting as one), and the neighbours of
 * least and greatest luma delta are remembered. The pixel is taken for
 * anti-aliasing when at most two neighbours are flat, some delta is negative and
 * some positive, and one of the two remembered neighbours has many identical
 * siblings in both images.
 *
 * The delta is the centre's luma less the neighbour's, so the neighbour of least
 * delta is the brightest one and the neighbour of greatest delta the darkest.
 *
 * The scan is a fold over the window in the loops' order; the methods with the
 * source's loops and early returns are proved to compute it.
 */
module AntiAliasing {
  import opened Raster
  import opened ColorMetric
  import opened Neighbourhood
  import opened Siblings

  /** The local variables the scan updates: zeroes, min, max, minX, minY, maxX, maxY. */
  datatype Trackers = Trackers(zeroes: int, min: real, max: real, minX: int, minY: int, maxX: int, maxY: int)

  /**
   * The brightness delta of neighbour p against the centre whose bytes start at
   * `pos`: _colorDelta(img, d, pos2, true), the centre's luma less p's.
   */
  function Delta(img: seq<Byte>, pos: int, p: Point, width: int): (d: real)
    requires 0 <= pos && pos + 4 <= |img|
    ensures Readable(img, p, width) ==> d == Luma(PixelAt(img, pos)) - Luma(PixelAt(img, Offset(p, width)))
  {
    if Readable(img, p, width) then ColorDelta(img, img, pos, Offset(p, width), true) else 0.0
  }

  /**
   * The deltas of all points against the centre at `pos`, as one value; the
   * scan below works for any such function.
   */
  function Deltas(img: seq<Byte>, pos: int, width: int): Point -> real {
    p => if 0 <= pos && pos + 4 <= |img| then Delta(img, pos, p, width) else 0.0
  }

  /**
   * `d` gives every point the delta against the centre at `pos`. The methods take
   * the delta function as such a ghost parameter, so that their proofs deal with
   * one delta at a time rather than the whole of the colour metric.
   */
  ghost predicate Link(d: Point -> real, img: seq<Byte>, pos: int, width: int) {
    forall p {:trigger Delta(img, pos, p, width)} :: 0 <= pos && pos + 4 <= |img| ==> d(p) == Delta(img, pos, p, width)
  }

  lemma LinkDeltas(img: seq<Byte>, pos: int, width: int)
    ensures Link(Deltas(img, pos, width), img, pos, width)
  {
  }

  /** One visit: count a neighbour of equal luma, or remember a new least or greatest delta. */
  function Step(t: Trackers, delta: real, p: Point): Trackers {
    if delta == 0.0 then t.(zeroes := t.zeroes + 1)
    else if delta < t.min then t.(min := delta, minX := p.x, minY := p.y)
    else if delta > t.max then t.(max := delta, maxX := p.x, maxY := p.y)
    else t
  }

  /** The trackers after visiting rows ya .. yb - 1 of column x, the centre c skipped. */
  function ColumnTrack(d: Point -> real, t: Trackers, x: int, ya: int, yb: int, c: Point): Trackers
    decreases yb - ya
  {
    if yb <= ya then t
    else
      var t' := ColumnTrack(d, t, x, ya, yb - 1, c);
      var p := Point(x, yb - 1);
      if p != c then Step(t', d(p), p) else t'
  }

  /** The trackers after visiting columns xa .. xb - 1, each top to bottom. */
  function WindowTrack(d: Point -> real, t: Trackers, xa: int, xb: int, ya: int, yb: int, c: Point): Trackers
    decreases xb - xa
  {
    if xb <= xa then t
    else ColumnTrack(d, WindowTrack(d, t, xa, xb - 1, ya, yb, c), xb - 1, ya, yb, c)
  }

  /** Neighbour p of the centre c has exactly the centre's luma. */
  predicate Flat(d: Point -> real, p: Point, c: Point) {
    p != c && d(p) == 0.0
  }

  /** The number of flat points in rows ya .. yb - 1 of column x. */
  function ColumnFlat(d: Point -> real, x: int, ya: int, yb: int, c: Point): nat
    decreases yb - ya
  {
    if yb <= ya then 0
    else ColumnFlat(d, x, ya, yb - 1, c) + (if Flat(d, Point(x, yb - 1), c) then 1 else 0)
  }

  /** The number of flat points in columns xa .. xb - 1. */
  function WindowFlat(d: Point -> real, xa: int, xb: int, ya: int, yb: int, c: Point): nat
    decreases xb - xa
  {
    if xb <= xa then 0
    else WindowFlat(d, xa, xb - 1, ya, yb, c) + ColumnFlat(d, xb - 1, ya, yb, c)
  }

  /** A column visit adds the column's flat points to zeroes. */
  lemma {:induction false} ColumnTrackZeroes(d: Point -> real, t: Trackers, x: int, ya: int, yb: int, c: Point)
    ensures ColumnTrack(d, t, x, ya, yb, c).zeroes == t.zeroes + ColumnFlat(d, x, ya, yb, c)
    decreases yb - ya
  {
    if yb > ya {
      ColumnTrackZeroes(d, t, x, ya, yb - 1, c);
    }
  }

  /** A window visit adds the window's flat points to zeroes. */
  lemma {:induction false} WindowTrackZeroes(d: Point -> real, t: Trackers, xa: int, xb: int, ya: int, yb: int, c: Point)
    ensures WindowTrack(d, t, xa, xb, ya, yb, c).zeroes == t.zeroes + WindowFlat(d, xa, xb, ya, yb, c)
    decreases xb - xa
  {
    if xb > xa {
      WindowTrackZeroes(d, t, xa, xb - 1, ya, yb, c);
      ColumnTrackZeroes(d, WindowTrack(d, t, xa, xb - 1, ya, yb, c), xb - 1, ya, yb, c);
    }
  }

  lemma {:induction false} ColumnFlatGrows(d: Point -> real, x: int, ya: int, y: int, yb: int, c: Point)
    requires y <= yb
    ensures ColumnFlat(d, x, ya, y, c) <= ColumnFlat(d, x, ya, yb, c)
    decreases yb - y
  {
    if y < yb {
      ColumnFlatGrows(d, x, ya, y, yb - 1, c);
    }
  }

  lemma {:induction false} WindowFlatGrows(d: Point -> real, xa: int, x: int, xb: int, ya: int, yb: int, c: Point)
    requires x <= xb
    ensures WindowFlat(d, xa, x, ya, yb, c) <= WindowFlat(d, xa, xb, ya, yb, c)
    decreases xb - x
  {
    if x < xb {
      WindowFlatGrows(d, xa, x, xb - 1, ya, yb, c);
    }
  }

  /** Point p is a visited neighbour whose delta is v. */
  predicate Recorded(d: Point -> real, p: Point, c: Point, v: real) {
    p != c && d(p) == v
  }

  /**
   * A column visit only lowers min and raises max; afterwards every visited delta
   * lies between them, and each of them either is what it was, with its
   * coordinates, or is the delta of a visited point whose coordinates it holds.
   */
  lemma {:induction false} ColumnTrackExtremes(d: Point -> real, t: Trackers, x: int, ya: int, yb: int, c: Point)
    requires t.min <= 0.0 <= t.max
    ensures var r := ColumnTrack(d, t, x, ya, yb, c);
      && r.min <= t.min && t.max <= r.max
      && (forall y | ya <= y < yb && Point(x, y) != c :: r.min <= d(Point(x, y)) <= r.max)
      && ((r.min == t.min && r.minX == t.minX && r.minY == t.minY) ||
          (r.minX == x && ya <= r.minY < yb && Recorded(d, Point(r.minX, r.minY), c, r.min)))
      && ((r.max == t.max && r.maxX == t.maxX && r.maxY == t.maxY) ||
          (r.maxX == x && ya <= r.maxY < yb && Recorded(d, Point(r.maxX, r.maxY), c, r.max)))
    decreases yb - ya
  {
    if yb > ya {
      ColumnTrackExtremes(d, t, x, ya, yb - 1, c);
    }
  }

  /** The same over a window of columns xa .. xb - 1. */
  lemma {:induction false} WindowTrackExtremes(d: Point -> real, t: Trackers, xa: int, xb: int, ya: int, yb: int, c: Point)
    requires t.min <= 0.0 <= t.max
    ensures var r := WindowTrack(d, t, xa, xb, ya, yb, c);
      && r.min <= t.min && t.max <= r.max
      && (forall p | InWindow(p, xa, xb, ya, yb, c) :: r.min <= d(p) <= r.max)
      && ((r.min == t.min && r.minX == t.minX && r.minY == t.minY) ||
          (InWindow(Point(r.minX, r.minY), xa, xb, ya, yb, c) && Recorded(d, Point(r.minX, r.minY), c, r.min)))
      && ((r.max == t.max && r.maxX == t.maxX && r.maxY == t.maxY) ||
          (InWindow(Point(r.maxX, r.maxY), xa, xb, ya, yb, c) && Recorded(d, Point(r.maxX, r.maxY), c, r.max)))
    decreases xb - xa
  {
    if xb > xa {
      var r1 := WindowTrack(d, t, xa, xb - 1, ya, yb, c);
      WindowTrackExtremes(d, t, xa, xb - 1, ya, yb, c);
      ColumnTrackExtremes(d, r1, xb - 1, ya, yb, c);
      var r := WindowTrack(d, t, xa, xb, ya, yb, c);
      forall p | InWindow(p, xa, xb, ya, yb, c)
        ensures r.min <= d(p) <= r.max
      {
        if p.x < xb - 1 {
          assert InWindow(p, xa, xb - 1, ya, yb, c);
        } else {
          assert p == Point(xb - 1, p.y);
        }
      }
    }
  }

  /** The trackers before the scan: zeroes is the border head start, all others 0. */
  function Start(c: Point, width: int, height: int): Trackers {
    Trackers(BorderStart(c, width, height), 0.0, 0.0, 0, 0, 0, 0)
  }

  /** The trackers after the whole scan of the window around c. */
  function Scan(img: seq<Byte>, c: Point, width: int, height: int): Trackers
    requires Fits(img, width, height) && InFrame(c, width, height)
  {
    ScanWith(Deltas(img, Offset(c, width), width), c, width, height)
  }

  /** The trackers after the scan of the window around c, for the deltas `d`. */
  function ScanWith(d: Point -> real, c: Point, width: int, height: int): Trackers {
    WindowTrack(d, Start(c, width, height), Lo(c.x), Hi(c.x, width) + 1, Lo(c.y), Hi(c.y, height) + 1, c)
  }

  /** The number of neighbours of c with exactly its luma. */
  function FlatNeighbours(img: seq<Byte>, c: Point, width: int, height: int): nat
    requires Fits(img, width, height) && InFrame(c, width, height)
  {
    WindowFlat(Deltas(img, Offset(c, width), width), Lo(c.x), Hi(c.x, width) + 1, Lo(c.y), Hi(c.y, height) + 1, c)
  }

  /** Each remembered coordinate pair of a column visit is the old one or a point of the column. */
  lemma {:induction false} ColumnTrackPlaces(d: Point -> real, t: Trackers, x: int, ya: int, yb: int, c: Point)
    ensures var r := ColumnTrack(d, t, x, ya, yb, c);
      && ((r.minX == t.minX && r.minY == t.minY) || (r.minX == x && ya <= r.minY < yb))
      && ((r.maxX == t.maxX && r.maxY == t.maxY) || (r.maxX == x && ya <= r.maxY < yb))
    decreases yb - ya
  {
    if yb > ya {
      ColumnTrackPlaces(d, t, x, ya, yb - 1, c);
    }
  }

  /** Each remembered coordinate pair of a window visit is the old one or a point of the window. */
  lemma {:induction false} WindowTrackPlaces(d: Point -> real, t: Trackers, xa: int, xb: int, ya: int, yb: int, c: Point)
    ensures var r := WindowTrack(d, t, xa, xb, ya, yb, c);
      && ((r.minX == t.minX && r.minY == t.minY) || (xa <= r.minX < xb && ya <= r.minY < yb))
      && ((r.maxX == t.maxX && r.maxY == t.maxY) || (xa <= r.maxX < xb && ya <= r.maxY < yb))
    decreases xb - xa
  {
    if xb > xa {
      WindowTrackPlaces(d, t, xa, xb - 1, ya, yb, c);
      ColumnTrackPlaces(d, WindowTrack(d, t, xa, xb - 1, ya, yb, c), xb - 1, ya, yb, c);
    }
  }

  /** Both remembered coordinate pairs name pixels of the frame. */
  predicate InFrameTrackers(t: Trackers, width: int, height: int) {
    InFrame(Point(t.minX, t.minY), width, height) && InFrame(Point(t.maxX, t.maxY), width, height)
  }

  /** The scan only ever remembers pixels of the frame: (0, 0) at the start, then neighbours. */
  lemma ScanInFrame(img: seq<Byte>, c: Point, width: int, height: int)
    requires Fits(img, width, height) && InFrame(c, width, height)
    ensures InFrameTrackers(Scan(img, c, width, height), width, height)
  {
    WindowTrackPlaces(Deltas(img, Offset(c, width), width), Start(c, width, height),
                      Lo(c.x), Hi(c.x, width) + 1, Lo(c.y), Hi(c.y, height) + 1, c);
  }

  /** The scan's zeroes is the border head start plus the flat neighbours. */
  lemma ScanZeroes(img: seq<Byte>, c: Point, width: int, height: int)
    requires Fits(img, width, height) && InFrame(c, width, height)
    ensures Scan(img, c, width, height).zeroes == BorderStart(c, width, height) + FlatNeighbours(img, c, width, height)
  {
    WindowTrackZeroes(Deltas(img, Offset(c, width), width), Start(c, width, height),
                      Lo(c.x), Hi(c.x, width) + 1, Lo(c.y), Hi(c.y, height) + 1, c);
  }

  /**
   * min and max bracket 0 and the delta of every neighbour, and a min or max
   * other than 0 is the delta of the neighbour whose coordinates it holds.
   */
  lemma ScanWithExtremes(d: Point -> real, c: Point, width: int, height: int)
    ensures var t := ScanWith(d, c, width, height);
      && t.min <= 0.0 <= t.max
      && (forall p | Neighbour(p, c, width, height) :: t.min <= d(p) <= t.max)
      && (t.min != 0.0 ==> Neighbour(Point(t.minX, t.minY), c, width, height) && d(Point(t.minX, t.minY)) == t.min)
      && (t.max != 0.0 ==> Neighbour(Point(t.maxX, t.maxY), c, width, height) && d(Point(t.maxX, t.maxY)) == t.max)
  {
    WindowTrackExtremes(d, Start(c, width, height), Lo(c.x), Hi(c.x, width) + 1, Lo(c.y), Hi(c.y, height) + 1, c);
  }

  /** The delta of a pixel of the frame against the centre, in terms of the two pixels' luma. */
  lemma DeltasAt(img: seq<Byte>, c: Point, p: Point, width: int, height: int)
    requires Fits(img, width, height) && InFrame(c, width, height) && InFrame(p, width, height)
    ensures Readable(img, c, width) && Readable(img, p, width)
    ensures Deltas(img, Offset(c, width), width)(p) ==
      Luma(PixelAt(img, Offset(c, width))) - Luma(PixelAt(img, Offset(p, width)))
  {
    InFrameReadable(img, c, width, height);
    InFrameReadable(img, p, width, height);
  }

  /** The neighbour of least delta, or else the one of greatest delta, has many siblings in img and in img2. */
  predicate SiblingsConfirm(img: seq<Byte>, img2: seq<Byte>, t: Trackers, width: int, height: int)
    requires Fits(img, width, height) && Fits(img2, width, height) && InFrameTrackers(t, width, height)
  {
    var low, high := Point(t.minX, t.minY), Point(t.maxX, t.maxY);
    || (ManySiblings(img, low, width, height) && ManySiblings(img2, low, width, height))
    || (ManySiblings(img, high, width, height) && ManySiblings(img2, high, width, height))
  }

  /** The verdict on a finished scan: at most two flat neighbours, both extremes away from 0, confirmed by siblings. */
  predicate Judge(img: seq<Byte>, img2: seq<Byte>, t: Trackers, width: int, height: int)
    requires Fits(img, width, height) && Fits(img2, width, height) && InFrameTrackers(t, width, height)
  {
    t.zeroes <= 2 && t.min != 0.0 && t.max != 0.0 && SiblingsConfirm(img, img2, t, width, height)
  }

  /**
   * _antialiased: at most two flat neighbours counting the border, some negative
   * and some positive delta, and the neighbour of least delta, or else the one of
   * greatest delta, has many siblings in img and in img2.
   */
  predicate LooksAntialiased(img: seq<Byte>, img2: seq<Byte>, c: Point, width: int, height: int)
    requires Fits(img, width, height) && Fits(img2, width, height) && InFrame(c, width, height)
  {
    ScanInFrame(img, c, width, height);
    Judge(img, img2, Scan(img, c, width, height), width, height)
  }

  /** A copy of the centre has exactly its luma: it is a flat neighbour. */
  lemma SameIsFlat(img: seq<Byte>, pos: int, p: Point, width: int, d: Point -> real)
    requires 0 <= pos && pos + 4 <= |img| && Link(d, img, pos, width)
    requires SameAs(img, pos, p, width)
    ensures d(p) == 0.0
  {
    SameAsPixel(img, pos, p, width);
    assert Delta(img, pos, p, width) == 0.0;
  }

  lemma {:induction false} ColumnSameFlat(img: seq<Byte>, pos: int, d: Point -> real, x: int, ya: int, yb: int, c: Point, width: int)
    requires 0 <= pos && pos + 4 <= |img| && Link(d, img, pos, width)
    ensures ColumnSame(img, pos, x, ya, yb, c, width) <= ColumnFlat(d, x, ya, yb, c)
    decreases yb - ya
  {
    if yb > ya {
      ColumnSameFlat(img, pos, d, x, ya, yb - 1, c, width);
      if Point(x, yb - 1) != c && SameAs(img, pos, Point(x, yb - 1), width) {
        SameIsFlat(img, pos, Point(x, yb - 1), width, d);
      }
    }
  }

  /** Every copy of the centre in a window is one of its flat points. */
  lemma {:induction false} WindowSameFlat(img: seq<Byte>, pos: int, d: Point -> real, xa: int, xb: int, ya: int, yb: int, c: Point, width: int)
    requires 0 <= pos && pos + 4 <= |img| && Link(d, img, pos, width)
    ensures WindowSame(img, pos, xa, xb, ya, yb, c, width) <= WindowFlat(d, xa, xb, ya, yb, c)
    decreases xb - xa
  {
    if xb > xa {
      WindowSameFlat(img, pos, d, xa, xb - 1, ya, yb, c, width);
      ColumnSameFlat(img, pos, d, xb - 1, ya, yb, c, width);
    }
  }

  /**
   * A pixel with many siblings is never taken for anti-aliasing: its copies are
   * flat neighbours, so zeroes exceeds 2.
   */
  lemma ManySiblingsNotAntialiased(img: seq<Byte>, img2: seq<Byte>, c: Point, width: int, height: int)
    requires Fits(img, width, height) && Fits(img2, width, height) && InFrame(c, width, height)
    requires ManySiblings(img, c, width, height)
    ensures !LooksAntialiased(img, img2, c, width, height)
  {
    InFrameReadable(img, c, width, height);
    LinkDeltas(img, Offset(c, width), width);
    WindowSameFlat(img, Offset(c, width), Deltas(img, Offset(c, width), width),
                   Lo(c.x), Hi(c.x, width) + 1, Lo(c.y), Hi(c.y, height) + 1, c, width);
    ScanZeroes(img, c, width, height);
  }

  /**
   * In a frame at least 2 by 2, a pixel all of whose neighbours are copies of it
   * is never taken for anti-aliasing.
   */
  lemma UniformWindowNotAntialiased(img: seq<Byte>, img2: seq<Byte>, c: Point, width: int, height: int)
    requires Fits(img, width, height) && Fits(img2, width, height) && InFrame(c, width, height)
    requires 2 <= width && 2 <= height && Readable(img, c, width)
    requires forall p | Neighbour(p, c, width, height) :: SameAs(img, Offset(c, width), p, width)
    ensures !LooksAntialiased(img, img2, c, width, height)
  {
    UniformWindowHasManySiblings(img, c, width, height);
    ManySiblingsNotAntialiased(img, img2, c, width, height);
  }

  /** The luma of pixel p of the frame. */
  function LumaAt(img: seq<Byte>, p: Point, width: int, height: int): real
    requires Fits(img, width, height) && InFrame(p, width, height)
  {
    InFrameReadable(img, p, width, height);
    Luma(PixelAt(img, Offset(p, width)))
  }

  /** No neighbour of c is brighter than its neighbour p. */
  ghost predicate Brightest(img: seq<Byte>, p: Point, c: Point, width: int, height: int)
    requires Fits(img, width, height) && InFrame(c, width, height)
  {
    && Neighbour(p, c, width, height)
    && (NeighbourMeaning(p, c, width, height);
        forall q | Neighbour(q, c, width, height) :: NeighbourMeaning(q, c, width, height); LumaAt(img, q, width, height) <= LumaAt(img, p, width, height))
  }

  /** No neighbour of c is darker than its neighbour p. */
  ghost predicate Darkest(img: seq<Byte>, p: Point, c: Point, width: int, height: int)
    requires Fits(img, width, height) && InFrame(c, width, height)
  {
    && Neighbour(p, c, width, height)
    && (NeighbourMeaning(p, c, width, height);
        forall q | Neighbour(q, c, width, height) :: NeighbourMeaning(q, c, width, height); LumaAt(img, p, width, height) <= LumaAt(img, q, width, height))
  }

  /** Neighbour p of c is strictly brighter than c. */
  ghost predicate Brighter(img: seq<Byte>, p: Point, c: Point, width: int, height: int)
    requires Fits(img, width, height) && InFrame(c, width, height)
  {
    Neighbour(p, c, width, height) &&
    (NeighbourMeaning(p, c, width, height); LumaAt(img, c, width, height) < LumaAt(img, p, width, height))
  }

  /** Neighbour p of c is strictly darker than c. */
  ghost predicate Darker(img: seq<Byte>, p: Point, c: Point, width: int, height: int)
    requires Fits(img, width, height) && InFrame(c, width, height)
  {
    Neighbour(p, c, width, height) &&
    (NeighbourMeaning(p, c, width, height); LumaAt(img, p, width, height) < LumaAt(img, c, width, height))
  }

  /** p is a brightest or a darkest neighbour of c, with many siblings in img and in img2. */
  ghost predicate ConfirmedExtreme(img: seq<Byte>, img2: seq<Byte>, p: Point, c: Point, width: int, height: int)
    requires Fits(img, width, height) && Fits(img2, width, height) && InFrame(c, width, height)
  {
    && (Brightest(img, p, c, width, height) || Darkest(img, p, c, width, height))
    && (NeighbourMeaning(p, c, width, height);
        ManySiblings(img, p, width, height) && ManySiblings(img2, p, width, height))
  }

  /** `d` gives every neighbour of c the luma of c less the neighbour's. */
  ghost predicate LumaLink(img: seq<Byte>, d: Point -> real, c: Point, width: int, height: int)
    requires Fits(img, width, height) && InFrame(c, width, height)
  {
    forall p {:trigger LumaAt(img, p, width, height)} | InFrame(p, width, height) && Neighbour(p, c, width, height) ::
      d(p) == LumaAt(img, c, width, height) - LumaAt(img, p, width, height)
  }

  lemma LumaLinkDeltas(img: seq<Byte>, c: Point, width: int, height: int)
    requires Fits(img, width, height) && InFrame(c, width, height)
    ensures LumaLink(img, Deltas(img, Offset(c, width), width), c, width, height)
  {
    forall p | InFrame(p, width, height) && Neighbour(p, c, width, height)
      ensures Deltas(img, Offset(c, width), width)(p) == LumaAt(img, c, width, height) - LumaAt(img, p, width, height)
    {
      DeltasAt(img, c, p, width, height);
    }
  }

  /**
   * A min other than 0 belongs to a brightest neighbour, strictly brighter than
   * the centre; a max other than 0 to a darkest one, strictly darker.
   */
  lemma ExtremesMeaning(img: seq<Byte>, d: Point -> real, c: Point, width: int, height: int)
    requires Fits(img, width, height) && InFrame(c, width, height) && LumaLink(img, d, c, width, height)
    ensures var t := ScanWith(d, c, width, height);
      && (t.min != 0.0 ==> Brighter(img, Point(t.minX, t.minY), c, width, height) &&
                           Brightest(img, Point(t.minX, t.minY), c, width, height))
      && (t.max != 0.0 ==> Darker(img, Point(t.maxX, t.maxY), c, width, height) &&
                           Darkest(img, Point(t.maxX, t.maxY), c, width, height))
  {
    ScanWithExtremes(d, c, width, height);
    var t := ScanWith(d, c, width, height);
    var low, high := Point(t.minX, t.minY), Point(t.maxX, t.maxY);
    NeighbourMeaning(low, c, width, height);
    NeighbourMeaning(high, c, width, height);
    if t.min != 0.0 {
      assert d(low) == LumaAt(img, c, width, height) - LumaAt(img, low, width, height);
      forall q | Neighbour(q, c, width, height)
        ensures LumaAt(img, q, width, height) <= LumaAt(img, low, width, height)
      {
        NeighbourMeaning(q, c, width, height);
        assert d(q) == LumaAt(img, c, width, height) - LumaAt(img, q, width, height);
      }
    }
    if t.max != 0.0 {
      assert d(high) == LumaAt(img, c, width, height) - LumaAt(img, high, width, height);
      forall q | Neighbour(q, c, width, height)
        ensures LumaAt(img, high, width, height) <= LumaAt(img, q, width, height)
      {
        NeighbourMeaning(q, c, width, height);
        assert d(q) == LumaAt(img, c, width, height) - LumaAt(img, q, width, height);
      }
    }
  }

  /**
   * What a pixel taken for anti-aliasing looks like: at most two flat neighbours
   * counting the border, a strictly brighter and a strictly darker neighbour, and
   * a brightest or a darkest neighbour with many siblings in both images.
   */
  lemma AntialiasedMeaning(img: seq<Byte>, img2: seq<Byte>, c: Point, width: int, height: int)
    requires Fits(img, width, height) && Fits(img2, width, height) && InFrame(c, width, height)
    requires LooksAntialiased(img, img2, c, width, height)
    ensures BorderStart(c, width, height) + FlatNeighbours(img, c, width, height) <= 2
    ensures exists p :: Brighter(img, p, c, width, height)
    ensures exists p :: Darker(img, p, c, width, height)
    ensures exists p :: ConfirmedExtreme(img, img2, p, c, width, height)
  {
    ScanInFrame(img, c, width, height);
    ScanZeroes(img, c, width, height);
    LumaLinkDeltas(img, c, width, height);
    ExtremesMeaning(img, Deltas(img, Offset(c, width), width), c, width, height);
    var t := Scan(img, c, width, height);
    var low, high := Point(t.minX, t.minY), Point(t.maxX, t.maxY);
    assert Brighter(img, low, c, width, height);
    assert Darker(img, high, c, width, height);
    if ManySiblings(img, low, width, height) && ManySiblings(img2, low, width, height) {
      assert ConfirmedExtreme(img, img2, low, c, width, height);
    } else {
      assert ConfirmedExtreme(img, img2, high, c, width, height);
    }
  }

  /** Once zeroes exceeds 2 part way down a column, it does so at the column's end. */
  lemma EarlyFlatColumn(d: Point -> real, t: Trackers, x: int, ya: int, y: int, yb: int, c: Point)
    requires y <= yb
    requires ColumnTrack(d, t, x, ya, y, c).zeroes > 2
    ensures ColumnTrack(d, t, x, ya, yb, c).zeroes > 2
  {
    ColumnTrackZeroes(d, t, x, ya, y, c);
    ColumnTrackZeroes(d, t, x, ya, yb, c);
    ColumnFlatGrows(d, x, ya, y, yb, c);
  }

  /** Once zeroes exceeds 2 after some columns, it does so after all of them. */
  lemma EarlyFlatWindow(d: Point -> real, t: Trackers, xa: int, x: int, xb: int, ya: int, yb: int, c: Point)
    requires x <= xb
    requires WindowTrack(d, t, xa, x, ya, yb, c).zeroes > 2
    ensures WindowTrack(d, t, xa, xb, ya, yb, c).zeroes > 2
  {
    WindowTrackZeroes(d, t, xa, x, ya, yb, c);
    WindowTrackZeroes(d, t, xa, xb, ya, yb, c);
    WindowFlatGrows(d, xa, x, xb, ya, yb, c);
  }

  /**
   * One pass of the inner loop's body at neighbour (x, y): the brightness
   * delta, then the zeroes count or the new least or greatest delta.
   */
  method Visit(img: seq<Byte>, pos: int, x: int, y: int, width: int, height: int, ghost d: Point -> real, t: Trackers)
    returns (t': Trackers)
    requires Fits(img, width, height) && 0 <= pos && pos + 4 <= |img| && InFrame(Point(x, y), width, height)
    requires Link(d, img, pos, width)
    ensures t' == Step(t, d(Point(x, y)), Point(x, y))
  {
    InFrameReadable(img, Point(x, y), width, height);
    var delta := ColorDelta(img, img, pos, Offset(Point(x, y), width), true);  // pos2 = (y * width + x) * 4
    assert delta == Delta(img, pos, Point(x, y), width);
    if delta == 0.0 {
      t' := t.(zeroes := t.zeroes + 1);
    } else if delta < t.min {
      t' := t.(min := delta, minX := x, minY := y);
    } else if delta > t.max {
      t' := t.(max := delta, maxX := x, maxY := y);
    } else {
      t' := t;
    }
  }

  /**
   * The inner loop of _antialiased over rows y0 .. y2 of column x, from the
   * trackers `t0`; it stops as soon as zeroes exceeds 2.
   */
  method ScanColumn(img: seq<Byte>, pos: int, x: int, x1: int, y1: int, y0: int, y2: int,
                    width: int, height: int, ghost d: Point -> real, t0: Trackers) returns (t: Trackers)
    requires Fits(img, width, height) && 0 <= pos && pos + 4 <= |img| && Link(d, img, pos, width)
    requires 0 <= x < width && 0 <= y0 <= y2 + 1 && y2 < height && t0.zeroes <= 2
    ensures t.zeroes > 2 <==> ColumnTrack(d, t0, x, y0, y2 + 1, Point(x1, y1)).zeroes > 2
    ensures t.zeroes <= 2 ==> t == ColumnTrack(d, t0, x, y0, y2 + 1, Point(x1, y1))
  {
    t := t0;
    for y := y0 to y2 + 1
      invariant t == ColumnTrack(d, t0, x, y0, y, Point(x1, y1)) && t.zeroes <= 2
    {
      if x == x1 && y == y1 {
        continue;
      }
      t := Visit(img, pos, x, y, width, height, d, t);
      if t.zeroes > 2 {  // only a flat neighbour raises zeroes, and the source returns right after it
        EarlyFlatColumn(d, t0, x, y0, y + 1, y2 + 1, Point(x1, y1));
        return;
      }
    }
  }

  /** The outer loop of _antialiased over columns x0 .. x2; it stops as soon as zeroes exceeds 2. */
  method ScanWindow(img: seq<Byte>, x1: int, y1: int, width: int, height: int, ghost d: Point -> real)
    returns (t: Trackers)
    requires Fits(img, width, height) && InFrame(Point(x1, y1), width, height)
    requires Link(d, img, Offset(Point(x1, y1), width), width)
    ensures t.zeroes > 2 <==> ScanWith(d, Point(x1, y1), width, height).zeroes > 2
    ensures t.zeroes <= 2 ==> t == ScanWith(d, Point(x1, y1), width, height)
  {
    var x0, y0 := Lo(x1), Lo(y1);
    var x2, y2 := Hi(x1, width), Hi(y1, height);
    ghost var c := Point(x1, y1);
    InFrameReadable(img, c, width, height);
    var pos := Offset(Point(x1, y1), width);  // (y1 * width + x1) * 4
    t := Start(Point(x1, y1), width, height);  // zeroes 1 on a border; min, max and their coordinates 0
    ghost var whole := WindowTrack(d, Start(c, width, height), x0, x2 + 1, y0, y2 + 1, c);
    assert whole == ScanWith(d, c, width, height);
    for x := x0 to x2 + 1
      invariant t == WindowTrack(d, Start(c, width, height), x0, x, y0, y2 + 1, c) && t.zeroes <= 2
    {
      t := ScanColumn(img, pos, x, x1, y1, y0, y2, width, height, d, t);
      if t.zeroes > 2 {
        EarlyFlatWindow(d, Start(c, width, height), x0, x + 1, x2 + 1, y0, y2 + 1, c);
        return;
      }
    }
  }

  /** The closing calls of _antialiased: _hasManySiblings on each image, short-circuited as in the source. */
  method ConfirmSiblings(img: seq<Byte>, img2: seq<Byte>, t: Trackers, width: int, height: int) returns (r: bool)
    requires Fits(img, width, height) && Fits(img2, width, height) && InFrameTrackers(t, width, height)
    ensures r == SiblingsConfirm(img, img2, t, width, height)
  {
    r := HasManySiblings(img, t.minX, t.minY, width, height);
    if r {
      r := HasManySiblings(img2, t.minX, t.minY, width, height);
    }
    if !r {
      r := HasManySiblings(img, t.maxX, t.maxY, width, height);
      if r {
        r := HasManySiblings(img2, t.maxX, t.maxY, width, height);
      }
    }
  }

  /** _antialiased as the source runs it, with its early returns. */
  method Antialiased(img: seq<Byte>, img2: seq<Byte>, x1: int, y1: int, width: int, height: int) returns (r: bool)
    requires Fits(img, width, height) && Fits(img2, width, height) && InFrame(Point(x1, y1), width, height)
    ensures r == LooksAntialiased(img, img2, Point(x1, y1), width, height)
  {
    LinkDeltas(img, Offset(Point(x1, y1), width), width);
    var t := ScanWindow(img, x1, y1, width, height, Deltas(img, Offset(Point(x1, y1), width), width));
    if t.zeroes > 2 {
      return false;
    }
    ScanInFrame(img, Point(x1, y1), width, height);
    if t.min == 0.0 || t.max == 0.0 {
      return false;
    }
    r := ConfirmSiblings(img, img2, t, width, height);
  }
}

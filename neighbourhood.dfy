/**
 * The clamped 3x3 window that _hasManySiblings and _antialiased walk: columns
 * Math.max(x - 1, 0) .. Math.min(x + 1, width - 1), rows likewise, every column
 * top to bottom, columns left to right, the centre skipped.
 */
module Neighbourhood {
  import opened Raster

  /** Math.max(c - 1, 0): the first column (or row) of the window around column (or row) c. */
  function Lo(c: int): int {
    if c - 1 > 0 then c - 1 else 0
  }

  /** Math.min(c + 1, size - 1): the last column (or row) of the window. */
  function Hi(c: int, size: int): int {
    if c + 1 < size - 1 then c + 1 else size - 1
  }

  /**
   * The starting count of equal neighbours: 1 when the centre sits on a clamped
   * edge of its window, which for a pixel of the frame means on an image border.
   */
  function BorderStart(c: Point, width: int, height: int): (z: int)
    ensures z == 0 || z == 1
    ensures InFrame(c, width, height) ==>
      (z == 1 <==> c.x == 0 || c.x == width - 1 || c.y == 0 || c.y == height - 1)
  {
    if c.x == Lo(c.x) || c.x == Hi(c.x, width) || c.y == Lo(c.y) || c.y == Hi(c.y, height) then 1 else 0
  }

  /** p lies in columns xa .. xb - 1 and rows ya .. yb - 1 and is not the centre c. */
  predicate InWindow(p: Point, xa: int, xb: int, ya: int, yb: int, c: Point) {
    xa <= p.x < xb && ya <= p.y < yb && p != c
  }

  /** p is one of the pixels the loops around c visit. */
  predicate Neighbour(p: Point, c: Point, width: int, height: int) {
    InWindow(p, Lo(c.x), Hi(c.x, width) + 1, Lo(c.y), Hi(c.y, height) + 1, c)
  }

  /**
   * The loops visit exactly the pixels of the frame at most one step away from c
   * in each direction, other than c itself: every read stays inside the image.
   */
  lemma NeighbourMeaning(p: Point, c: Point, width: int, height: int)
    requires InFrame(c, width, height)
    ensures Neighbour(p, c, width, height) <==>
      InFrame(p, width, height) && -1 <= p.x - c.x <= 1 && -1 <= p.y - c.y <= 1 && p != c
  {
  }

  /** The number of rows ya .. yb - 1 of column x, without the centre c when it lies there. */
  function ColumnSize(x: int, ya: int, yb: int, c: Point): int {
    (yb - ya) - (if c.x == x && ya <= c.y < yb then 1 else 0)
  }

  /** The number of points of a window, column by column, without its centre when it lies inside. */
  function WindowSize(xa: int, xb: int, ya: int, yb: int, c: Point): int
    decreases xb - xa
  {
    if xb <= xa then 0 else WindowSize(xa, xb - 1, ya, yb, c) + ColumnSize(xb - 1, ya, yb, c)
  }

  /** A window of columns xa .. xb - 1 and rows ya .. yb - 1 holds their product of points, less its centre. */
  lemma {:induction false} WindowSizeArea(xa: int, xb: int, ya: int, yb: int, c: Point)
    requires xa <= xb
    ensures WindowSize(xa, xb, ya, yb, c) ==
      (xb - xa) * (yb - ya) - (if xa <= c.x < xb && ya <= c.y < yb then 1 else 0)
    decreases xb - xa
  {
    if xa < xb {
      WindowSizeArea(xa, xb - 1, ya, yb, c);
      assert (xb - xa) * (yb - ya) == (xb - 1 - xa) * (yb - ya) + (yb - ya);
    }
  }

  /**
   * A pixel has between 3 and 8 neighbours in a frame at least two pixels wide
   * and high: the clipped window of a corner still holds three.
   */
  lemma NeighbourCount(c: Point, width: int, height: int)
    requires InFrame(c, width, height) && 2 <= width && 2 <= height
    ensures 3 <= WindowSize(Lo(c.x), Hi(c.x, width) + 1, Lo(c.y), Hi(c.y, height) + 1, c) <= 8
  {
    var xa, xb := Lo(c.x), Hi(c.x, width) + 1;
    var ya, yb := Lo(c.y), Hi(c.y, height) + 1;
    assert 2 <= yb - ya <= 3;
    assert WindowSize(xa, xa + 1, ya, yb, c) == ColumnSize(xa, ya, yb, c);
    assert WindowSize(xa, xa + 2, ya, yb, c) == WindowSize(xa, xa + 1, ya, yb, c) + ColumnSize(xa + 1, ya, yb, c);
    if xb - xa == 3 {
      assert WindowSize(xa, xb, ya, yb, c) == WindowSize(xa, xa + 2, ya, yb, c) + ColumnSize(xa + 2, ya, yb, c);
    }
  }
}

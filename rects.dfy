/** The rectangle conversions of ocropy/common.py. A rectangle is given in
    mathematical coordinates (x0, y0, x1, y1), with y counted upwards from
    the bottom row; a raster box is (row0, col0, row1, col1), with rows
    counted downwards from the top, in an image of height h. */
module Rects {
  /** An `iulib.rectangle`. */
  datatype Rectangle = Rectangle(x0: int, y0: int, x1: int, y1: int)

  /** A raster box (row0, col0, row1, col1). */
  type Raster = (int, int, int, int)

  /** A row index counted from the top, as a y counted from the bottom, and back. */
  function Flip(y: int, h: int): int
  {
    h - y - 1
  }

  /** Flipping twice gives the row back, and flipping reverses the order. */
  lemma FlipFlip(y: int, z: int, h: int)
    ensures Flip(Flip(y, h), h) == y
    ensures y <= z <==> Flip(z, h) <= Flip(y, h)
  {
  }

  /** `raster2rect`. */
  function Raster2Rect(b: Raster, h: int): (r: Rectangle)
    ensures r.x0 == b.1 && r.x1 == b.3
    ensures b.0 == Flip(r.y1, h) && b.2 == Flip(r.y0, h)
  {
    Rectangle(b.1, Flip(b.2, h), b.3, Flip(b.0, h))
  }

  /** `rect2raster`: the columns are the x values, and the rows are the
      flipped y values with their order swapped, so the top-left corner
      comes first. */
  function Rect2Raster(r: Rectangle, h: int): (b: Raster)
    ensures b.1 == r.x0 && b.3 == r.x1
    ensures b.0 == Flip(r.y1, h) && b.2 == Flip(r.y0, h)
    ensures r.y0 <= r.y1 <==> b.0 <= b.2
  {
    (Flip(r.y1, h), r.x0, Flip(r.y0, h), r.x1)
  }

  /** For a fixed height the two conversions are inverse to each other. */
  lemma RasterRoundTrip(r: Rectangle, b: Raster, h: int)
    ensures Raster2Rect(Rect2Raster(r, h), h) == r
    ensures Rect2Raster(Raster2Rect(b, h), h) == b
  {
  }

  /** `rect2math`. */
  function Rect2Math(r: Rectangle): (t: (int, int, int, int))
    ensures t.0 == r.x0 && t.1 == r.y0 && t.2 == r.x1 && t.3 == r.y1
  {
    (r.x0, r.y0, r.x1, r.y1)
  }

  /** `math2rect`. */
  function Math2Rect(t: (int, int, int, int)): (r: Rectangle)
    ensures r.x0 == t.0 && r.y0 == t.1 && r.x1 == t.2 && r.y1 == t.3
  {
    Rectangle(t.0, t.1, t.2, t.3)
  }

  /** `math2rect` and `rect2math` are inverse to each other. */
  lemma MathRoundTrip(r: Rectangle, t: (int, int, int, int))
    ensures Math2Rect(Rect2Math(r)) == r
    ensures Rect2Math(Math2Rect(t)) == t
  {
  }
}

/**
  The part of a graphics-library rectangle the simulation uses: an integer
  position and size, with the left edge at x and the right edge at x + w.
*/
module Geometry {

  datatype Rect = Rect(x: int, y: int, w: int, h: int) {

    function Left(): int { x }

    function Right(): int { x + w }

    /** The same rectangle shifted horizontally by dx pixels. */
    function MovedBy(dx: int): (r: Rect)
      ensures r.Left() == Left() + dx && r.Right() == Right() + dx
      ensures r.y == y && r.w == w && r.h == h
    {
      this.(x := x + dx)
    }
  }
}

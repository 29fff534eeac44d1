/** Canvas-space layout of the game: the common side length of all squares,
    where the targets and the falling square sit, and the hit-test. */
module Geometry {

  /** The drawing surface, in canvas pixels. */
  datatype Canvas = Canvas(width: real, height: real) {
    /** A canvas that is laid out in the page has a positive size. */
    predicate Valid() {
      width > 0.0 && height > 0.0
    }
  }

  /** A square of the round: its top-left corner and its colour. The side
      length is shared by all squares and given by `SquareSize`. */
  datatype Square = Square(x: real, y: real, color: string)

  /** Side length of every square: the smaller of a quarter of the width
      and an eighth of the height. */
  function SquareSize(c: Canvas): (s: real)
    ensures s <= c.width / 4.0 && s <= c.height / 8.0
    ensures s == c.width / 4.0 || s == c.height / 8.0
  {
    if c.width / 4.0 <= c.height / 8.0 then c.width / 4.0 else c.height / 8.0
  }

  /** Top edge of the two targets, which is also the height at which the
      falling square counts as missed. */
  function FloorY(c: Canvas): (y: real)
    ensures c.Valid() ==> 0.0 < y && y + SquareSize(c) < c.height
  {
    c.height - SquareSize(c) * 1.5
  }

  /** Left edge of the left target, whose centre is at a quarter of the
      width: on a canvas of positive width it lies wholly in the left half. */
  function LeftX(c: Canvas): (x: real)
    ensures c.width > 0.0 && c.height >= 0.0 ==> 0.0 < x && x + SquareSize(c) < c.width / 2.0
  {
    c.width * 0.25 - SquareSize(c) / 2.0
  }

  /** Left edge of the right target, whose centre is at three quarters of
      the width: on a canvas of positive width it lies wholly in the right half. */
  function RightX(c: Canvas): (x: real)
    ensures c.width > 0.0 && c.height >= 0.0 ==> c.width / 2.0 < x && x + SquareSize(c) < c.width
  {
    c.width * 0.75 - SquareSize(c) / 2.0
  }

  /** Left edge of the falling square, horizontally centred: it falls in
      the gap between the two targets. */
  function CenterX(c: Canvas): (x: real)
    ensures LeftX(c) + SquareSize(c) <= x && x + SquareSize(c) <= RightX(c)
  {
    c.width / 2.0 - SquareSize(c) / 2.0
  }

  /** Hit-test: the point lies in the closed box of side `size` whose
      top-left corner is the square's position. */
  function Contains(sq: Square, size: real, px: real, py: real): (b: bool)
    ensures b <==> Dist(px, sq.x + size / 2.0) <= size / 2.0 && Dist(py, sq.y + size / 2.0) <= size / 2.0
  {
    sq.x <= px <= sq.x + size && sq.y <= py <= sq.y + size
  }

  /** Distance between two coordinates on one axis. */
  function Dist(a: real, b: real): real {
    if a <= b then b - a else a - b
  }

  /** On a canvas of positive width the two target boxes do not meet:
      the left one ends before the middle and the right one starts after it. */
  lemma TargetsDisjoint(c: Canvas, left: Square, right: Square, px: real, py: real)
    requires c.width > 0.0
    requires left.x == LeftX(c) && right.x == RightX(c)
    ensures !(Contains(left, SquareSize(c), px, py) && Contains(right, SquareSize(c), px, py))
  {
  }

}

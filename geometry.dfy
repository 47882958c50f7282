/**
 * Screen geometry: points, `(x, y, w, h)` rectangles, and `calculate_rect`,
 * which turns two opposite corners chosen in any order into a rectangle.
 * The setup wizard of the washer performs the same computation inline.
 */
module Geometry {

  /** A pixel position `(x, y)`. */
  datatype Point = Point(x: int, y: int)

  /** A screen rectangle `(x, y, w, h)`: top-left corner, width and height. */
  datatype Rect = Rect(x: int, y: int, w: int, h: int)

  function Min(a: int, b: int): (m: int)
    ensures m <= a && m <= b && (m == a || m == b)
  {
    if a <= b then a else b
  }

  function Max(a: int, b: int): (m: int)
    ensures m >= a && m >= b && (m == a || m == b)
  {
    if a <= b then b else a
  }

  function Abs(a: int): (r: nat)
    ensures r == a || r == -a
  {
    if a < 0 then -a else a
  }

  /** Whether `p` lies on the closed rectangle `r`. */
  predicate Covers(r: Rect, p: Point) {
    r.x <= p.x <= r.x + r.w && r.y <= p.y <= r.y + r.h
  }

  /** `calculate_rect(p1, p2)`: `(min(x1, x2), min(y1, y2), |x2 - x1|, |y2 - y1|)`. */
  function CalculateRect(p1: Point, p2: Point): (r: Rect)
    ensures r.w >= 0 && r.h >= 0
    ensures r.x == Min(p1.x, p2.x) && r.y == Min(p1.y, p2.y)
    ensures r.x + r.w == Max(p1.x, p2.x) && r.y + r.h == Max(p1.y, p2.y)
    ensures Covers(r, p1) && Covers(r, p2)
  {
    Rect(Min(p1.x, p2.x), Min(p1.y, p2.y), Abs(p2.x - p1.x), Abs(p2.y - p1.y))
  }

  /** The order in which the two corners are picked does not matter. */
  lemma CalculateRectSymmetric(p1: Point, p2: Point)
    ensures CalculateRect(p1, p2) == CalculateRect(p2, p1)
  {
  }

  /** The two corners of the other diagonal give the same rectangle. */
  lemma CalculateRectOtherDiagonal(p1: Point, p2: Point)
    ensures CalculateRect(Point(p1.x, p2.y), Point(p2.x, p1.y)) == CalculateRect(p1, p2)
  {
  }

  /** The result is the smallest rectangle on which both corners lie. */
  lemma CalculateRectIsSmallest(p1: Point, p2: Point, q: Rect)
    requires Covers(q, p1) && Covers(q, p2)
    ensures var r := CalculateRect(p1, p2);
      q.x <= r.x && r.x + r.w <= q.x + q.w && q.y <= r.y && r.y + r.h <= q.y + q.h
  {
  }

  /** A rectangle's own corners give it back, whenever its size is not negative. */
  lemma CalculateRectOfCorners(r: Rect)
    requires r.w >= 0 && r.h >= 0
    ensures CalculateRect(Point(r.x, r.y), Point(r.x + r.w, r.y + r.h)) == r
  {
  }
}

/**
 * Points and axis-aligned rectangles on the canvas, the inclusive
 * containment test `pointInRect` (manual.js:95-97) and the proportional
 * scaling that maps a hotspot from the image's natural coordinates onto the
 * displayed canvas. Coordinates are exact reals, an idealisation of
 * JavaScript's double-precision numbers.
 */
module Geometry {

  datatype Point = Point(x: real, y: real)

  datatype Rect = Rect(x: real, y: real, width: real, height: real)

  /** `pointInRect`: every edge of the rectangle counts as inside. */
  predicate PointInRect(p: Point, r: Rect)
    // a rectangle with a negative width or height contains no point at all
    ensures PointInRect(p, r) ==> 0.0 <= r.width && 0.0 <= r.height
  {
    r.x <= p.x && p.x <= r.width + r.x && r.y <= p.y && p.y <= r.height + r.y
  }

  /** The rectangle as drawn on the canvas: each coordinate multiplied by its ratio. */
  function Scale(r: Rect, hRatio: real, vRatio: real): (s: Rect)
    // a rectangle of non-negative size keeps a non-negative size under non-negative ratios
    ensures 0.0 <= hRatio && 0.0 <= vRatio && 0.0 <= r.width && 0.0 <= r.height ==>
      0.0 <= s.width && 0.0 <= s.height
    // an image displayed at its natural size draws every hotspot where it is declared
    ensures hRatio == 1.0 && vRatio == 1.0 ==> s == r
  {
    NonNegativeProduct(r.width, hRatio);
    NonNegativeProduct(r.height, vRatio);
    Rect(r.x * hRatio, r.y * vRatio, r.width * hRatio, r.height * vRatio)
  }

  /** The four edges are inclusive: a point on the left or right edge, with y in range, is inside. */
  lemma VerticalEdgesInside(r: Rect, p: Point)
    requires 0.0 <= r.width && r.y <= p.y <= r.y + r.height
    requires p.x == r.x || p.x == r.x + r.width
    ensures PointInRect(p, r)
  {
  }

  /** The same for the top and bottom edges, with x in range. */
  lemma HorizontalEdgesInside(r: Rect, p: Point)
    requires 0.0 <= r.height && r.x <= p.x <= r.x + r.width
    requires p.y == r.y || p.y == r.y + r.height
    ensures PointInRect(p, r)
  {
  }

  lemma NonNegativeProduct(a: real, b: real)
    ensures 0.0 <= a && 0.0 <= b ==> 0.0 <= a * b
  {
    if 0.0 < a && 0.0 < b {
      MulMonotone(0.0, a, b);
    }
  }

  lemma MulMonotone(a: real, b: real, k: real)
    requires 0.0 < k
    ensures a * k <= b * k <==> a <= b
  {
    assert b * k - a * k == (b - a) * k;
    if a <= b {
      assert 0.0 <= (b - a) * k;
    } else {
      assert 0.0 < (a - b) * k;
    }
  }

  /** One axis of the containment test, on the canvas and mapped back by a positive ratio. */
  lemma ScaledRange(lo: real, len: real, x: real, k: real)
    requires 0.0 < k
    ensures (lo * k <= x && x <= len * k + lo * k) <==> (lo <= x / k && x / k <= len + lo)
  {
    var q := x / k;
    assert x == q * k;
    MulMonotone(lo, q, k);
    MulMonotone(q, len + lo, k);
    assert len * k + lo * k == (len + lo) * k;
  }

  /**
   * Hit-testing against the scaled rectangle is the same as hit-testing the
   * pointer, mapped back to natural image coordinates, against the unscaled
   * rectangle (for positive ratios).
   */
  lemma ScaledHitIsNaturalHit(r: Rect, p: Point, hRatio: real, vRatio: real)
    requires 0.0 < hRatio && 0.0 < vRatio
    ensures PointInRect(p, Scale(r, hRatio, vRatio))
        <==> PointInRect(Point(p.x / hRatio, p.y / vRatio), r)
  {
    ScaledRange(r.x, r.width, p.x, hRatio);
    ScaledRange(r.y, r.height, p.y, vRatio);
  }

}

/** From far-apart cell centres to far-apart copper: why inflating a halo by the grid slack is enough.
    All distances are squared, so no root is ever taken. `h`, half a cell diagonal, has `h * h == g * g / 2`. */
module Clearance {

  /** A world point in millimetres, relative to the grid origin. */
  datatype Point = Point(x: real, y: real)

  function Sq(v: real): real {
    v * v
  }

  function D2(p: Point, q: Point): real {
    Sq(p.x - q.x) + Sq(p.y - q.y)
  }

  /** The point a share `s` of the way from `p` to `q`. */
  function Between(p: Point, q: Point, s: real): Point {
    Point((1.0 - s) * p.x + s * q.x, (1.0 - s) * p.y + s * q.y)
  }

  /** Every point of one segment is at least `r` from every point of the other. */
  ghost predicate SegmentsApart(p0: Point, p1: Point, q0: Point, q1: Point, r: real) {
    forall s: real, u: real :: 0.0 <= s <= 1.0 && 0.0 <= u <= 1.0 ==>
                                 D2(Between(p0, p1, s), Between(q0, q1, u)) >= r * r
  }

  /** Every point of a segment is at least `r` from a point. */
  ghost predicate SegmentOff(p0: Point, p1: Point, c: Point, r: real) {
    forall s: real :: 0.0 <= s <= 1.0 ==> D2(Between(p0, p1, s), c) >= r * r
  }

  /** The share-weighted mean of `a` and `b`, less the matching part of `c`. */
  function Weighted(s: real, a: real, b: real, c: real): real {
    (1.0 - s) * a + s * b - s * (1.0 - s) * c
  }

  lemma StewartAxis(a: real, b: real, c: real, s: real, m: real)
    requires m == (1.0 - s) * a + s * b
    ensures Sq(m - c) == Weighted(s, Sq(a - c), Sq(b - c), Sq(a - b))
  {
  }

  lemma WeightedAdds(s: real, a: real, b: real, c: real, a': real, b': real, c': real)
    ensures Weighted(s, a, b, c) + Weighted(s, a', b', c') == Weighted(s, a + a', b + b', c + c')
  {
  }

  /** Stewart's theorem: the squared distance from a point of a segment, by the distances from its ends. */
  lemma Stewart(p: Point, q: Point, c: Point, s: real)
    ensures D2(Between(p, q, s), c) == Weighted(s, D2(p, c), D2(q, c), D2(p, q))
  {
    hide Sq, Weighted;
    var m := Between(p, q, s);
    StewartAxis(p.x, q.x, c.x, s, m.x);
    StewartAxis(p.y, q.y, c.y, s, m.y);
    WeightedAdds(s, Sq(p.x - c.x), Sq(q.x - c.x), Sq(p.x - q.x), Sq(p.y - c.y), Sq(q.y - c.y), Sq(p.y - q.y));
  }

  lemma D2Symmetric(p: Point, q: Point)
    ensures D2(p, q) == D2(q, p)
  {
  }

  lemma D2NonNegative(p: Point, q: Point)
    ensures D2(p, q) >= 0.0
  {
  }

  lemma NonNegative(a: real, b: real)
    requires a >= 0.0 && b >= 0.0
    ensures a * b >= 0.0
  {
  }

  lemma QuarterAtMost(s: real)
    requires 0.0 <= s <= 1.0
    ensures 0.0 <= s * (1.0 - s) <= 0.25
  {
    assert 0.25 - s * (1.0 - s) == (0.5 - s) * (0.5 - s);
    NonNegative(s, 1.0 - s);
  }

  /** A share-weighted mean of two values both at least `d`, less at most a quarter of `longest`. */
  lemma WeightedAtLeast(s: real, a: real, b: real, d: real, len2: real, longest: real)
    requires 0.0 <= s <= 1.0 && a >= d && b >= d && 0.0 <= len2 <= longest
    ensures Weighted(s, a, b, len2) >= d - 0.25 * longest
  {
    MeanAtLeast(s, a, b, d);
    QuarterAtMost(s);
    CorrectionAtMost(s * (1.0 - s), len2, longest);
  }

  lemma MeanAtLeast(s: real, a: real, b: real, d: real)
    requires 0.0 <= s <= 1.0 && a >= d && b >= d
    ensures (1.0 - s) * a + s * b >= d
  {
    NonNegative(1.0 - s, a - d);
    NonNegative(s, b - d);
    assert (1.0 - s) * a + s * b - d == (1.0 - s) * (a - d) + s * (b - d);
  }

  lemma CorrectionAtMost(k: real, len2: real, longest: real)
    requires 0.0 <= k <= 0.25 && 0.0 <= len2 <= longest
    ensures k * len2 <= 0.25 * longest
  {
    NonNegative(0.25 - k, len2);
    assert 0.25 * len2 - k * len2 == (0.25 - k) * len2;
  }

  /** A segment no longer than a cell diagonal comes at most `h * h` (in square) closer than its ends. */
  lemma PointToSegment(p: Point, q: Point, c: Point, s: real, d: real, longest: real)
    requires 0.0 <= s <= 1.0 && D2(p, c) >= d && D2(q, c) >= d && D2(p, q) <= longest
    ensures D2(Between(p, q, s), c) >= d - 0.25 * longest
  {
    hide D2, Between, Weighted;
    Stewart(p, q, c, s);
    D2NonNegative(p, q);
    WeightedAtLeast(s, D2(p, c), D2(q, c), d, D2(p, q), longest);
  }

  /** Two segments of grid steps: if all four pairs of ends are at least `slack2(r)` apart, the segments are
      at least `r` apart. `2 * g * g` is the square of the longest step. */
  lemma SegmentToSegment(p0: Point, p1: Point, q0: Point, q1: Point, r: real, g: real)
    requires D2(p0, p1) <= 2.0 * g * g && D2(q0, q1) <= 2.0 * g * g
    requires D2(p0, q0) >= r * r + g * g && D2(p0, q1) >= r * r + g * g
    requires D2(p1, q0) >= r * r + g * g && D2(p1, q1) >= r * r + g * g
    ensures SegmentsApart(p0, p1, q0, q1, r)
  {
    hide D2;
    forall s: real, u: real | 0.0 <= s <= 1.0 && 0.0 <= u <= 1.0
      ensures D2(Between(p0, p1, s), Between(q0, q1, u)) >= r * r
    {
      var y := Between(q0, q1, u);
      D2Symmetric(p0, q0);
      D2Symmetric(p0, q1);
      D2Symmetric(p1, q0);
      D2Symmetric(p1, q1);
      PointToSegment(q0, q1, p0, u, r * r + g * g, 2.0 * g * g);
      PointToSegment(q0, q1, p1, u, r * r + g * g, 2.0 * g * g);
      D2Symmetric(p0, y);
      D2Symmetric(p1, y);
      PointToSegment(p0, p1, y, s, r * r + 0.5 * (g * g), 2.0 * g * g);
    }
  }

  /** A via centre against a grid step: only one side is discretized, so `slack1(r)` is enough. */
  lemma PointToStep(p0: Point, p1: Point, c: Point, r: real, g: real)
    requires D2(p0, p1) <= 2.0 * g * g
    requires D2(p0, c) >= r * r + 0.5 * (g * g) && D2(p1, c) >= r * r + 0.5 * (g * g)
    ensures SegmentOff(p0, p1, c, r)
  {
    hide D2;
    forall s: real | 0.0 <= s <= 1.0
      ensures D2(Between(p0, p1, s), c) >= r * r
    {
      PointToSegment(p0, p1, c, s, r * r + 0.5 * (g * g), 2.0 * g * g);
    }
  }
}

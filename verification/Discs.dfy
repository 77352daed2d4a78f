/** Discs of grid offsets, and the radii the router inflates them to. */
module Discs {

  /** Rounding guard added to every disc radius. */
  const EPSILON: real := 0.000000001

  function Ceil(x: real): int {
    -((-x).Floor)
  }

  /** The squared distance of an offset, in grid steps. */
  function Norm2(ox: int, oy: int): int {
    ox * ox + oy * oy
  }

  /** An offset lies in the disc of radius `r` on a grid of step `g`: `hypot(ox, oy) * g <= r + EPSILON`, squared. */
  predicate InDisc(g: real, r: real, ox: int, oy: int) {
    Norm2(ox, oy) as real * g * g <= (r + EPSILON) * (r + EPSILON)
  }

  lemma Positive(x: real, y: real)
    requires x > 0.0 && y > 0.0
    ensures x * y > 0.0
  {
  }

  lemma SquareLess(a: real, b: real)
    requires 0.0 <= a < b
    ensures a * a < b * b
  {
    assert b * b - a * a == (b - a) * (b + a);
    Positive(b - a, b + a);
  }

  /** One coordinate past the box is already too far: the box of `ceil(r / g)` steps cuts nothing off the disc. */
  lemma BoxHoldsDisc(g: real, r: real, ox: int, oy: int)
    requires g > EPSILON && r >= 0.0 && InDisc(g, r, ox, oy)
    ensures -Ceil(r / g) <= ox <= Ceil(r / g) && -Ceil(r / g) <= oy <= Ceil(r / g)
  {
    CoordinateInBox(g, r, ox, oy);
    CoordinateInBox(g, r, oy, ox);
  }

  lemma CoordinateInBox(g: real, r: real, o: int, p: int)
    requires g > EPSILON && r >= 0.0 && Norm2(o, p) as real * g * g <= (r + EPSILON) * (r + EPSILON)
    ensures -Ceil(r / g) <= o <= Ceil(r / g)
  {
    hide Ceil;
    var a := if o < 0 then -o else o;
    NearCoordinate(g, r, o, p, a);
    UnderCeil(a, r / g);
  }

  lemma NearCoordinate(g: real, r: real, o: int, p: int, a: int)
    requires g > EPSILON && r >= 0.0 && Norm2(o, p) as real * g * g <= (r + EPSILON) * (r + EPSILON)
    requires a == if o < 0 then -o else o
    ensures (a as real) < r / g + 1.0
  {
    SquarePart(o, p, a);
    hide Norm2;
    Widen(a * a, Norm2(o, p), g);
    SquareOfReal(a);
    if a as real >= r / g + 1.0 {
      FarOut(g, r, a as real);
    }
  }

  lemma SquarePart(o: int, p: int, a: int)
    requires a == o || a == -o
    ensures a * a <= Norm2(o, p)
  {
    assert p * p >= 0;
  }

  lemma UnderCeil(a: int, x: real)
    requires (a as real) < x + 1.0
    ensures a <= Ceil(x)
  {
  }

  lemma SquareOfReal(a: int)
    ensures (a * a) as real == a as real * a as real
  {
  }

  lemma FarOut(g: real, r: real, k: real)
    requires g > EPSILON && r >= 0.0 && k >= r / g + 1.0
    ensures k * k * g * g > (r + EPSILON) * (r + EPSILON)
  {
    var q := r / g;
    assert q * g == r;
    assert k * g >= (q + 1.0) * g by { Monotone(k, q + 1.0, g); }
    SquareLess(r + EPSILON, k * g);
  }

  lemma Monotone(x: real, y: real, g: real)
    requires x >= y && g >= 0.0
    ensures x * g >= y * g
  {
  }

  lemma Widen(m: int, n: int, g: real)
    requires m <= n
    ensures m as real * g * g <= n as real * g * g
  {
    assert g * g >= 0.0;
    var d := (n - m) as real;
    assert d * (g * g) >= 0.0;
    assert n as real * g * g - m as real * g * g == d * (g * g);
  }

  /** An offset is in the disc exactly if its length is at most the radius and the guard of a millionth of a micron. */
  lemma DiscReach(g: real, r: real, ox: int, oy: int, d: real)
    requires r >= 0.0 && d >= 0.0 && Norm2(ox, oy) as real * g * g == d * d
    ensures InDisc(g, r, ox, oy) <==> d <= r + 0.000000001
  {
    hide Norm2;
    if d <= r + EPSILON {
      Squared(d, r + EPSILON);
    } else {
      SquaredMore(r + EPSILON, d);
    }
  }

  lemma Squared(a: real, b: real)
    requires 0.0 <= a <= b
    ensures a * a <= b * b
  {
  }

  lemma SquaredMore(a: real, b: real)
    requires 0.0 <= a < b
    ensures a * a < b * b
  {
    Positive(b - a, b + a);
    assert (b - a) * (b + a) == b * b - a * a;
  }

  /** All offsets of the disc, row by row. */
  method DiscOffsets(g: real, r: real) returns (offs: seq<(int, int)>)
    requires g > EPSILON && r >= 0.0
    ensures forall ox, oy :: (ox, oy) in offs <==> InDisc(g, r, ox, oy)
  {
    hide InDisc, Ceil;
    offs := [];
    var rc := Ceil(r / g);
    var oy := -rc;
    while oy <= rc
      invariant forall x, y :: (x, y) in offs <==> -rc <= y < oy && -rc <= x <= rc && InDisc(g, r, x, y)
      decreases rc - oy
    {
      var ox := -rc;
      while ox <= rc
        invariant forall x, y :: (x, y) in offs <==>
                    ((-rc <= y < oy && -rc <= x <= rc) || (y == oy <= rc && -rc <= x < ox && x <= rc)) &&
                    InDisc(g, r, x, y)
        decreases rc - ox
      {
        if InDisc(g, r, ox, oy) {
          offs := offs + [(ox, oy)];
        }
        ox := ox + 1;
      }
      oy := oy + 1;
    }
    forall x, y | InDisc(g, r, x, y)
      ensures -rc <= x <= rc && -rc <= y <= rc
    {
      BoxHoldsDisc(g, r, x, y);
    }
  }
}

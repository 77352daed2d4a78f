/** How close two grid steps can come, in units of the grid: at least as close as their four pairs of ends, and
    closer only where a diagonal step passes between two cells. The bound is attained. */
module StepGeometry {
  import opened Basics
  import opened Clearance
  import opened Discs

  function Len2(x: real, y: real): real {
    Sq(x) + Sq(y)
  }

  /** One coordinate is one step longer than the other: the middle of a diagonal step may lie between. */
  predicate Notch(ox: int, oy: int) {
    Abs(ox) == Abs(oy) + 1 || Abs(oy) == Abs(ox) + 1
  }

  /** The squared distance that two steps with ends at this offset can come down to. */
  function Closest2(ox: int, oy: int): real {
    if Notch(ox, oy) then Norm2(ox, oy) as real - 0.5 else Norm2(ox, oy) as real
  }

  /** An offset that keeps steps at least the root of `m` apart; direct neighbours are not offsets at all. */
  predicate Far(m: real, ox: int, oy: int) {
    Norm2(ox, oy) >= 2 && Closest2(ox, oy) >= m
  }

  lemma FarMirrors(m: real, ox: int, oy: int)
    requires Far(m, ox, oy)
    ensures Far(m, -ox, -oy) && Far(m, oy, ox) && Far(m, -oy, -ox) && Far(m, -ox, oy) && Far(m, ox, -oy)
    ensures Far(m, -oy, ox) && Far(m, oy, -ox)
  {
    assert -ox * -ox == ox * ox && -oy * -oy == oy * oy;
  }

  lemma FarIsLong(m: real, ox: int, oy: int)
    requires Far(m, ox, oy)
    ensures Len2(ox as real, oy as real) == Norm2(ox, oy) as real
    ensures Len2(ox as real, oy as real) >= m && Norm2(ox, oy) >= 2
  {
  }

  // ---- One coordinate ------------------------------------------------------------------------

  /** Between two neighbouring integers, one of them is nearest to zero. */
  lemma UnitSpan(f: real, lo: int, hi: int) returns (i: int)
    requires lo <= hi <= lo + 1 && lo as real <= f <= hi as real
    ensures (i == lo || i == hi) && Sq(i as real) <= Sq(f)
  {
    i := if lo >= 0 then lo else hi;
    if lo >= 0 {
      Squares(lo as real, f);
    } else {
      Squares(-hi as real, -f);
      SqMirrors(hi as real);
      SqMirrors(f);
    }
  }

  lemma Squares(a: real, b: real)
    requires 0.0 <= a <= b
    ensures Sq(a) <= Sq(b)
  {
  }

  lemma SqMirrors(a: real)
    ensures Sq(-a) == Sq(a) >= 0.0
  {
  }

  /** Two apart, the same holds unless zero is right between them. */
  lemma DoubleSpan(f: real, lo: int) returns (i: int)
    requires lo as real <= f <= lo as real + 2.0
    ensures (i == lo || i == lo + 2) && (lo == -1 ==> Abs(i) == 1)
    ensures lo != -1 ==> Sq(i as real) <= Sq(f)
  {
    i := if lo >= 0 then lo else lo + 2;
    if lo >= 0 {
      Squares(lo as real, f);
    } else if lo < -1 {
      Squares(-i as real, -f);
      SqMirrors(i as real);
      SqMirrors(f);
    }
  }

  // ---- Two coordinates along the axes ---------------------------------------------------------

  lemma BoxCorner(x: real, y: real, x0: int, x1: int, y0: int, y1: int, m: real)
    requires x0 <= x1 <= x0 + 1 && x0 as real <= x <= x1 as real
    requires y0 <= y1 <= y0 + 1 && y0 as real <= y <= y1 as real
    requires Far(m, x0, y0) && Far(m, x0, y1) && Far(m, x1, y0) && Far(m, x1, y1)
    ensures Len2(x, y) >= m
  {
    hide Far, Sq;
    var i := UnitSpan(x, x0, x1);
    var j := UnitSpan(y, y0, y1);
    FarIsLong(m, i, j);
  }

  // ---- Two coordinates along the diagonals ------------------------------------------------------

  lemma Turned(x: real, y: real)
    ensures Len2(x, y) == 0.5 * Len2(x + y, x - y)
  {
  }

  /** Offsets in diagonal coordinates: `f` is the sum of the coordinates, `g` their difference. */
  predicate FarTurned(m: real, f: int, g: int) {
    (f + g) % 2 == 0 && Far(m, (f + g) / 2, (f - g) / 2)
  }

  lemma FarTurnedIsLong(m: real, f: int, g: int)
    requires FarTurned(m, f, g)
    ensures 0.5 * Len2(f as real, g as real) >= m
    ensures Abs(f) == 1 ==> 0.5 * Sq(g as real) >= m
    ensures Abs(g) == 1 ==> 0.5 * Sq(f as real) >= m
    ensures Abs(f) != 1 || Abs(g) != 1
  {
    var x, y := (f + g) / 2, (f - g) / 2;
    assert f == x + y && g == x - y;
    FarIsLong(m, x, y);
    Turned(x as real, y as real);
    SqOfOne(f);
    SqOfOne(g);
    hide Sq, Norm2;
    if Abs(f) == 1 || Abs(g) == 1 {
      assert Notch(x, y);
    }
  }

  lemma SqOfOne(f: int)
    ensures Abs(f) == 1 ==> Sq(f as real) == 1.0
  {
  }

  lemma TurnedCorner(f: real, g: real, f0: int, g0: int, m: real)
    requires f0 as real <= f <= f0 as real + 2.0 && g0 as real <= g <= g0 as real + 2.0
    requires FarTurned(m, f0, g0) && FarTurned(m, f0 + 2, g0) && FarTurned(m, f0, g0 + 2)
    requires FarTurned(m, f0 + 2, g0 + 2)
    ensures 0.5 * Len2(f, g) >= m
  {
    hide FarTurned, Sq;
    var i := DoubleSpan(f, f0);
    var j := DoubleSpan(g, g0);
    FarTurnedIsLong(m, i, j);
    SqMirrors(f);
    SqMirrors(g);
  }

  /** The same when only one of the two moves. */
  lemma TurnedEdge(f: real, f0: int, g: int, m: real)
    requires f0 as real <= f <= f0 as real + 2.0
    requires FarTurned(m, f0, g) && FarTurned(m, f0 + 2, g)
    ensures 0.5 * Len2(f, g as real) >= m
  {
    hide FarTurned, Sq;
    var i := DoubleSpan(f, f0);
    FarTurnedIsLong(m, i, g);
    SqMirrors(f);
  }

  // ---- One step and a cell -------------------------------------------------------------------

  lemma LenMirrors(x: real, y: real)
    ensures Len2(x, y) == Len2(-x, -y) == Len2(y, x) == Len2(x, -y) == Len2(-x, y)
  {
  }

  lemma DiagonalEdge(m: real, dx: int, dy: int, t: real)
    requires Far(m, dx, dy) && Far(m, dx + 1, dy + 1) && 0.0 <= t <= 1.0
    ensures Len2(dx as real + t, dy as real + t) >= m
  {
    hide Far, Len2;
    var x, y := dx as real + t, dy as real + t;
    Turned(x, y);
    assert FarTurned(m, dx + dy, dx - dy) && FarTurned(m, dx + dy + 2, dx - dy);
    TurnedEdge(x + y, dx + dy, dx - dy, m);
  }

  /** A unit step one of whose ends is the offset `(dx, dy)` away. */
  predicate IsUnit(vx: int, vy: int) {
    -1 <= vx <= 1 && -1 <= vy <= 1
  }

  /** A share `t` of a unit step's coordinate. */
  function Part(v: int, t: real): real {
    if v > 0 then t else if v < 0 then -t else 0.0
  }

  function Along(d: int, v: int, t: real): real {
    d as real + Part(v, t)
  }

  lemma EdgeAway(m: real, dx: int, dy: int, vx: int, vy: int, t: real)
    requires IsUnit(vx, vy) && Far(m, dx, dy) && Far(m, dx + vx, dy + vy) && 0.0 <= t <= 1.0
    ensures Len2(Along(dx, vx, t), Along(dy, vy, t)) >= m
  {
    hide Far, Len2;
    var x, y := Along(dx, vx, t), Along(dy, vy, t);
    if vx == 0 || vy == 0 {
      BoxCorner(x, y, if vx < 0 then dx - 1 else dx, if vx > 0 then dx + 1 else dx,
                if vy < 0 then dy - 1 else dy, if vy > 0 then dy + 1 else dy, m);
    } else {
      FarMirrors(m, dx, dy);
      FarMirrors(m, dx + vx, dy + vy);
      LenMirrors(x, y);
      LenMirrors(x, -y);
      if vx == 1 {
        DiagonalEdge(m, dx, if vy == 1 then dy else -dy, t);
      } else {
        DiagonalEdge(m, -dx, if vy == -1 then -dy else dy, t);
      }
    }
  }

  // ---- Two steps -----------------------------------------------------------------------------

  lemma Slanted(m: real, f: real, g: real, a: int, b: int)
    requires a as real <= f <= a as real + 1.0 && b as real <= g <= b as real + 1.0
    requires Far(m, a, a - b) && Far(m, a, a - b - 1) && Far(m, a + 1, a + 1 - b) && Far(m, a + 1, a - b)
    ensures Len2(f, f - g) >= m
  {
    hide Far, Len2;
    if a < 0 {
      FarMirrors(m, a, a - b);
      FarMirrors(m, a, a - b - 1);
      FarMirrors(m, a + 1, a + 1 - b);
      FarMirrors(m, a + 1, a - b);
      SlantedUp(m, -f, -g, -a - 1, -b - 1);
      LenMirrors(f, f - g);
      assert -f - -g == -(f - g);
    } else {
      SlantedUp(m, f, g, a, b);
    }
  }

  lemma SlantedUp(m: real, f: real, g: real, a: int, b: int)
    requires 0 <= a && a as real <= f <= a as real + 1.0 && b as real <= g <= b as real + 1.0
    requires Far(m, a, a - b) && Far(m, a, a - b - 1) && Far(m, a + 1, a + 1 - b) && Far(m, a + 1, a - b)
    ensures Len2(f, f - g) >= m
  {
    hide Far, Sq;
    Squares(a as real, f);
    SqMirrors(f - g);
    if b > a {
      Squares(b as real - f, g - f);
      SqMirrors(f - b as real);
      SqMirrors(f - g);
      DiagonalEdge(m, a, a - b, f - a as real);
      assert a as real + (f - a as real) == f && (a - b) as real + (f - a as real) == f - b as real;
    } else if b == a {
      FarIsLong(m, a, 0);
      assert Sq(0.0) == 0.0 by { SqZero(); }
    } else {
      Squares((a - b - 1) as real, f - g);
      FarIsLong(m, a, a - b - 1);
    }
  }

  lemma SqZero()
    ensures Sq(0.0) == 0.0
  {
  }

  /** A level step against a diagonal one. */
  lemma LevelAndDiagonal(m: real, dx: int, dy: int, vx: int, wx: int, wy: int, u: real, s: real)
    requires IsUnit(vx, 0) && IsUnit(wx, wy) && 0.0 <= u <= 1.0 && 0.0 <= s <= 1.0
    requires vx != 0 && wx != 0 && wy != 0
    requires Far(m, dx, dy) && Far(m, dx + vx, dy) && Far(m, dx - wx, dy - wy) && Far(m, dx + vx - wx, dy - wy)
    ensures Len2(Along(dx, vx, u) - Part(wx, s), dy as real - Part(wy, s)) >= m
  {
    hide Far, Len2;
    FarMirrors(m, dx, dy);
    FarMirrors(m, dx + vx, dy);
    FarMirrors(m, dx - wx, dy - wy);
    FarMirrors(m, dx + vx - wx, dy - wy);
    var x, y := Along(dx, vx, u) - Part(wx, s), dy as real - Part(wy, s);
    LenMirrors(x, y);
    LenMirrors(y, x);
    var a := if wy == 1 then dy - 1 else dy;
    if wx == wy {
      Slanted(m, y, y - x, a, if vx == 1 then dy - dx - 1 else dy - dx);
    } else {
      Slanted(m, y, y + x, a, if vx == 1 then dy + dx else dy + dx - 1);
    }
  }

  /** A straight step against a diagonal one. */
  lemma StraightAndDiagonal(m: real, dx: int, dy: int, vx: int, vy: int, wx: int, wy: int, u: real, s: real)
    requires IsUnit(vx, vy) && IsUnit(wx, wy) && 0.0 <= u <= 1.0 && 0.0 <= s <= 1.0
    requires (vx == 0) != (vy == 0) && wx != 0 && wy != 0
    requires Far(m, dx, dy) && Far(m, dx + vx, dy + vy) && Far(m, dx - wx, dy - wy)
    requires Far(m, dx + vx - wx, dy + vy - wy)
    ensures Len2(Along(dx, vx, u) - Part(wx, s), Along(dy, vy, u) - Part(wy, s)) >= m
  {
    hide Far, Len2;
    if vy == 0 {
      LevelAndDiagonal(m, dx, dy, vx, wx, wy, u, s);
    } else {
      FarMirrors(m, dx, dy);
      FarMirrors(m, dx, dy + vy);
      FarMirrors(m, dx - wx, dy - wy);
      FarMirrors(m, dx - wx, dy + vy - wy);
      LevelAndDiagonal(m, dy, dx, vy, wy, wx, u, s);
      LenMirrors(Along(dx, vx, u) - Part(wx, s), Along(dy, vy, u) - Part(wy, s));
    }
  }

  /** Two diagonal steps that are not parallel. */
  lemma TwoDiagonals(m: real, dx: int, dy: int, vx: int, vy: int, wx: int, wy: int, u: real, s: real)
    requires IsUnit(vx, vy) && IsUnit(wx, wy) && 0.0 <= u <= 1.0 && 0.0 <= s <= 1.0
    requires vx != 0 && vy != 0 && wx != 0 && wy != 0 && (vx == vy) != (wx == wy)
    requires Far(m, dx, dy) && Far(m, dx + vx, dy + vy) && Far(m, dx - wx, dy - wy)
    requires Far(m, dx + vx - wx, dy + vy - wy)
    ensures Len2(Along(dx, vx, u) - Part(wx, s), Along(dy, vy, u) - Part(wy, s)) >= m
  {
    hide Far, Len2;
    var x, y := Along(dx, vx, u) - Part(wx, s), Along(dy, vy, u) - Part(wy, s);
    Turned(x, y);
    var f, g := dx + dy, dx - dy;
    if vx == vy {
      TurnedCorner(x + y, x - y, if vx == 1 then f else f - 2, if wx == 1 then g - 2 else g, m);
    } else {
      TurnedCorner(x + y, x - y, if wx == 1 then f - 2 else f, if vx == 1 then g else g - 2, m);
    }
  }

  predicate Parallel(vx: int, vy: int, wx: int, wy: int) {
    (vx == 0 && vy == 0) || (wx == 0 && wy == 0) || (vx == wx && vy == wy) || (vx == -wx && vy == -wy)
  }

  lemma TwoParallels(m: real, dx: int, dy: int, vx: int, vy: int, wx: int, wy: int, u: real, s: real)
    requires IsUnit(vx, vy) && IsUnit(wx, wy) && 0.0 <= u <= 1.0 && 0.0 <= s <= 1.0 && Parallel(vx, vy, wx, wy)
    requires Far(m, dx, dy) && Far(m, dx + vx, dy + vy) && Far(m, dx - wx, dy - wy)
    requires Far(m, dx + vx - wx, dy + vy - wy)
    ensures Len2(Along(dx, vx, u) - Part(wx, s), Along(dy, vy, u) - Part(wy, s)) >= m
  {
    hide Far, Len2;
    if vx == 0 && vy == 0 {
      EdgeAway(m, dx, dy, -wx, -wy, s);
    } else if wx == 0 && wy == 0 {
      EdgeAway(m, dx, dy, vx, vy, u);
    } else if vx == wx && vy == wy {
      if u >= s {
        EdgeAway(m, dx, dy, vx, vy, u - s);
      } else {
        EdgeAway(m, dx, dy, -wx, -wy, s - u);
      }
    } else {
      if u + s <= 1.0 {
        EdgeAway(m, dx, dy, vx, vy, u + s);
      } else {
        EdgeAway(m, dx + vx, dy + vy, vx, vy, u + s - 1.0);
      }
    }
  }

  /** Two straight steps at a right angle. */
  lemma TwoStraights(m: real, dx: int, dy: int, vx: int, vy: int, wx: int, wy: int, u: real, s: real)
    requires IsUnit(vx, vy) && IsUnit(wx, wy) && 0.0 <= u <= 1.0 && 0.0 <= s <= 1.0
    requires (vx == 0 || vy == 0) && (wx == 0 || wy == 0) && (vx == 0 || wx == 0) && (vy == 0 || wy == 0)
    requires Far(m, dx, dy) && Far(m, dx + vx, dy + vy) && Far(m, dx - wx, dy - wy)
    requires Far(m, dx + vx - wx, dy + vy - wy)
    ensures Len2(Along(dx, vx, u) - Part(wx, s), Along(dy, vy, u) - Part(wy, s)) >= m
  {
    hide Far, Len2;
    var x, y := Along(dx, vx, u) - Part(wx, s), Along(dy, vy, u) - Part(wy, s);
    var px, py := vx - wx, vy - wy;
    BoxCorner(x, y, if px < 0 then dx - 1 else dx, if px > 0 then dx + 1 else dx,
              if py < 0 then dy - 1 else dy, if py > 0 then dy + 1 else dy, m);
  }

  /** If all four pairs of ends of two grid steps are far apart, so is every pair of their points. */
  lemma StepsAway(m: real, dx: int, dy: int, vx: int, vy: int, wx: int, wy: int, u: real, s: real)
    requires IsUnit(vx, vy) && IsUnit(wx, wy) && 0.0 <= u <= 1.0 && 0.0 <= s <= 1.0
    requires Far(m, dx, dy) && Far(m, dx + vx, dy + vy) && Far(m, dx - wx, dy - wy)
    requires Far(m, dx + vx - wx, dy + vy - wy)
    ensures Len2(Along(dx, vx, u) - Part(wx, s), Along(dy, vy, u) - Part(wy, s)) >= m
  {
    hide Far, Len2;
    if Parallel(vx, vy, wx, wy) {
      TwoParallels(m, dx, dy, vx, vy, wx, wy, u, s);
    } else if vx != 0 && vy != 0 && wx != 0 && wy != 0 {
      TwoDiagonals(m, dx, dy, vx, vy, wx, wy, u, s);
    } else if wx != 0 && wy != 0 {
      StraightAndDiagonal(m, dx, dy, vx, vy, wx, wy, u, s);
    } else if vx != 0 && vy != 0 {
      FarMirrors(m, dx, dy);
      FarMirrors(m, dx + vx, dy + vy);
      FarMirrors(m, dx - wx, dy - wy);
      FarMirrors(m, dx + vx - wx, dy + vy - wy);
      StraightAndDiagonal(m, -dx, -dy, wx, wy, vx, vy, s, u);
      LenMirrors(Along(dx, vx, u) - Part(wx, s), Along(dy, vy, u) - Part(wy, s));
      assert Along(-dx, wx, s) - Part(vx, u) == -(Along(dx, vx, u) - Part(wx, s));
      assert Along(-dy, wy, s) - Part(vy, u) == -(Along(dy, vy, u) - Part(wy, s));
    } else {
      TwoStraights(m, dx, dy, vx, vy, wx, wy, u, s);
    }
  }
}

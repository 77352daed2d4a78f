/** Exactly when undisturbed nets keep their own clearance rule, whatever their widths: a condition on the two
    widths, the grid and the rules of the board, and the run that breaks the rule whenever it fails. */
module ExactClearance {
  import opened Basics
  import opened Grid
  import opened Discs
  import opened NetCopper
  import opened Clearance
  import opened StepGeometry
  import opened Autoroute
  import opened RoutedClearance

  /** What the halos of a board depend on, apart from a net's own width. */
  datatype Rules = Rules(grid: real, track: real, clearance: real, sqrt: real -> real)
  {
    ghost predicate Valid() {
      && grid > EPSILON && track >= 0.0 && clearance >= 0.0
      && forall v: real :: v >= 0.0 ==> sqrt(v) >= 0.0 && sqrt(v) * sqrt(v) == v
    }

    function Reach(width: real): real {
      0.5 * (width + track) + clearance
    }

    function Halo(width: real): real {
      sqrt(Reach(width) * Reach(width) + 2.0 * (0.5 * (grid * grid)))
    }

    /** Centre line to centre line, as the two nets' own widths demand. */
    function Rule(w1: real, w2: real): real {
      0.5 * (w1 + w2) + clearance
    }

    /** The offset lies outside the track halo of a net of this width. */
    predicate Beyond(width: real, ox: int, oy: int) {
      !InDisc(grid, Halo(width), ox, oy)
    }

    /** Neither halo reaches over this offset, and yet steps this far apart may break the rule. Since
        `Closest2` is at most half a squared step below the squared length, only finitely many offsets qualify. */
    predicate Crowds(w1: real, w2: real, ox: int, oy: int) {
      Beyond(w1, ox, oy) && Beyond(w2, ox, oy) && Closest2(ox, oy) * grid * grid < Sq(Rule(w1, w2))
    }

    /** No offset beyond both halos is too close. */
    ghost predicate Roomy(w1: real, w2: real) {
      forall ox: nat, oy: nat :: !Crowds(w1, w2, ox, oy)
    }
  }

  function RulesOf(router: Router): Rules {
    Rules(router.gridMm, router.trackWidthMm, router.clearanceMm, router.sqrt)
  }

  // ---- Halos ---------------------------------------------------------------------------------

  lemma HaloSquare(b: Rules, width: real)
    requires b.Valid()
    ensures b.Halo(width) >= 0.0 && Sq(b.Halo(width)) == Sq(b.Reach(width)) + Sq(b.grid)
  {
    SqMirrors(b.Reach(width));
    SqMirrors(b.grid);
    hide Rules.Reach;
  }

  lemma BeyondIsLong(b: Rules, width: real, ox: int, oy: int)
    requires b.Valid() && b.Beyond(width, ox, oy)
    ensures Norm2(ox, oy) as real * b.grid * b.grid > Sq(b.Reach(width)) + Sq(b.grid)
    ensures Norm2(ox, oy) >= 2
  {
    HaloSquare(b, width);
    hide Rules.Halo, Rules.Reach, Norm2;
    Squares(b.Halo(width), b.Halo(width) + EPSILON);
    SqMirrors(b.Reach(width));
    var n := Norm2(ox, oy);
    if n <= 1 {
      Widen(n, 1, b.grid);
    }
  }

  lemma BeyondLonger(b: Rules, width: real, ox: int, oy: int, px: int, py: int)
    requires b.Beyond(width, ox, oy) && Norm2(ox, oy) <= Norm2(px, py)
    ensures b.Beyond(width, px, py)
  {
    hide Norm2, Rules.Halo;
    Widen(Norm2(ox, oy), Norm2(px, py), b.grid);
  }

  /** A pair with a net no wider than the default track is always roomy: the inflated halo covers its rule. */
  lemma NarrowIsRoomy(b: Rules, w1: real, w2: real)
    requires b.Valid() && w1 >= 0.0 && w2 >= 0.0 && (w1 <= b.track || w2 <= b.track)
    ensures b.Roomy(w1, w2)
  {
    hide Rules.Crowds, Rules.Valid;
    forall ox: nat, oy: nat
      ensures !b.Crowds(w1, w2, ox, oy)
    {
      NarrowOffset(b, w1, w2, ox, oy);
    }
  }

  lemma NarrowOffset(b: Rules, w1: real, w2: real, ox: int, oy: int)
    requires b.Valid() && w1 >= 0.0 && w2 >= 0.0 && (w1 <= b.track || w2 <= b.track)
    ensures !b.Crowds(w1, w2, ox, oy)
  {
    var w := if w2 <= b.track then w1 else w2;
    Squares(b.Rule(w1, w2), b.Reach(w));
    hide Sq, Rules.Halo, Rules.Reach, Rules.Rule, Norm2, InDisc, Closest2;
    if b.Beyond(w1, ox, oy) && b.Beyond(w2, ox, oy) {
      BeyondIsLong(b, w, ox, oy);
      ClosestAtLeast(b.grid, ox, oy);
    }
  }

  lemma ClosestAtLeast(g: real, ox: int, oy: int)
    ensures Closest2(ox, oy) * g * g >= Norm2(ox, oy) as real * g * g - 0.5 * Sq(g)
    ensures Sq(g) >= 0.0
  {
    hide Norm2;
    var n := Norm2(ox, oy) as real;
    assert (n - 0.5) * g * g == n * g * g - 0.5 * (g * g);
    SqMirrors(g);
  }

  // ---- Roomy pairs keep their rule -----------------------------------------------------------

  lemma BeyondMirrors(b: Rules, width: real, ox: int, oy: int)
    ensures b.Beyond(width, ox, oy) <==> b.Beyond(width, Abs(ox), Abs(oy))
    ensures b.Beyond(width, ox, oy) <==> b.Beyond(width, -ox, -oy)
    ensures Closest2(Abs(ox), Abs(oy)) == Closest2(ox, oy)
  {
    assert Norm2(ox, oy) == Norm2(-ox, -oy) == Norm2(Abs(ox), Abs(oy)) by {
      assert -ox * -ox == ox * ox && -oy * -oy == oy * oy;
    }
    hide Rules.Halo;
  }

  /** Beyond both halos of a roomy pair every offset is far. */
  lemma RoomyIsFar(b: Rules, w1: real, w2: real, m: real, ox: int, oy: int)
    requires b.Valid() && b.Roomy(w1, w2) && b.Beyond(w1, ox, oy) && b.Beyond(w2, ox, oy)
    requires m * Sq(b.grid) == Sq(b.Rule(w1, w2))
    ensures Far(m, ox, oy)
  {
    BeyondMirrors(b, w1, ox, oy);
    BeyondMirrors(b, w2, ox, oy);
    BeyondIsLong(b, w1, ox, oy);
    GridSquare(b.grid, Closest2(ox, oy));
    hide Rules.Beyond, Rules.Rule, Norm2, Sq;
    assert !b.Crowds(w1, w2, Abs(ox), Abs(oy));
    if Closest2(ox, oy) < m {
      Less(Closest2(ox, oy), m, Sq(b.grid));
    }
  }

  lemma GridSquare(g: real, c: real)
    requires g > 0.0
    ensures Sq(g) > 0.0 && c * g * g == c * Sq(g)
  {
    SquareLess(0.0, g);
    Regroup(c, g);
    hide Sq;
  }

  lemma Regroup(c: real, g: real)
    ensures c * g * g == c * Sq(g) && g * g == Sq(g)
  {
  }

  lemma Less(a: real, b: real, g2: real)
    requires a < b && g2 > 0.0
    ensures a * g2 < b * g2
  {
  }

  /** All four pairs of ends of two grid steps lie beyond the halo of a net of this width. */
  predicate EndsBeyond(b: Rules, w: real, p0: Cell, p1: Cell, q0: Cell, q1: Cell) {
    && b.Beyond(w, q0.x - p0.x, q0.y - p0.y) && b.Beyond(w, q1.x - p0.x, q1.y - p0.y)
    && b.Beyond(w, q0.x - p1.x, q0.y - p1.y) && b.Beyond(w, q1.x - p1.x, q1.y - p1.y)
  }

  /** Such steps keep a roomy pair's rule. */
  lemma RoomyStepsApart(b: Rules, w1: real, w2: real, p0: Cell, p1: Cell, q0: Cell, q1: Cell)
    requires b.Valid() && b.Roomy(w1, w2) && Step(p0, p1) && Step(q0, q1) && p0.l == p1.l && q0.l == q1.l
    requires EndsBeyond(b, w1, p0, p1, q0, q1) && EndsBeyond(b, w2, p0, p1, q0, q1)
    ensures SegmentsApart(Centre(b.grid, p0), Centre(b.grid, p1), Centre(b.grid, q0), Centre(b.grid, q1),
                          b.Rule(w1, w2))
  {
    hide Rules.Beyond, Rules.Roomy, Rules.Rule, Rules.Valid, Far, D2, Between, Centre;
    var m := Limit(b, w1, w2);
    var r := b.Rule(w1, w2);
    RoomyIsFar(b, w1, w2, m, q0.x - p0.x, q0.y - p0.y);
    RoomyIsFar(b, w1, w2, m, q1.x - p0.x, q1.y - p0.y);
    RoomyIsFar(b, w1, w2, m, q0.x - p1.x, q0.y - p1.y);
    RoomyIsFar(b, w1, w2, m, q1.x - p1.x, q1.y - p1.y);
    var c0, c1, d0, d1 := Centre(b.grid, p0), Centre(b.grid, p1), Centre(b.grid, q0), Centre(b.grid, q1);
    hide EndsBeyond, Step, Sq;
    forall s: real, u: real | 0.0 <= s <= 1.0 && 0.0 <= u <= 1.0
      ensures D2(Between(c0, c1, s), Between(d0, d1, u)) >= r * r
    {
      PointsApart(b.grid, p0, p1, q0, q1, s, u, m, r);
      SquareOf(r);
    }
  }

  lemma SquareOf(r: real)
    ensures Sq(r) == r * r
  {
  }

  /** The rule's square in squared grid steps. */
  lemma Limit(b: Rules, w1: real, w2: real) returns (m: real)
    requires b.Valid()
    ensures m * Sq(b.grid) == Sq(b.Rule(w1, w2))
  {
    GridSquare(b.grid, 1.0);
    hide Sq, Rules.Rule;
    m := Sq(b.Rule(w1, w2)) / Sq(b.grid);
  }

  lemma PointsApart(g: real, p0: Cell, p1: Cell, q0: Cell, q1: Cell, s: real, u: real, m: real, r: real)
    requires Step(p0, p1) && Step(q0, q1) && p0.l == p1.l && q0.l == q1.l
    requires 0.0 <= s <= 1.0 && 0.0 <= u <= 1.0 && m * Sq(g) == Sq(r)
    requires Far(m, q0.x - p0.x, q0.y - p0.y) && Far(m, q1.x - p0.x, q1.y - p0.y)
    requires Far(m, q0.x - p1.x, q0.y - p1.y) && Far(m, q1.x - p1.x, q1.y - p1.y)
    ensures D2(Between(Centre(g, p0), Centre(g, p1), s), Between(Centre(g, q0), Centre(g, q1), u)) >= Sq(r)
  {
    hide Far, D2, Between, Centre, Len2, Sq, Along, Part, Step, IsUnit;
    StepIsUnit(p0, p1);
    StepIsUnit(q0, q1);
    var dx, dy := q0.x - p0.x, q0.y - p0.y;
    var vx, vy := q1.x - q0.x, q1.y - q0.y;
    var wx, wy := p1.x - p0.x, p1.y - p0.y;
    StepsAway(m, dx, dy, vx, vy, wx, wy, u, s);
    StepDistance(g, p0, p1, q0, q1, s, u);
    Multiplied(Len2(Along(dx, vx, u) - Part(wx, s), Along(dy, vy, u) - Part(wy, s)), m, g);
  }

  lemma StepIsUnit(a: Cell, b: Cell)
    requires Step(a, b) && a.l == b.l
    ensures IsUnit(b.x - a.x, b.y - a.y)
  {
  }

  lemma Multiplied(c: real, m: real, g: real)
    requires c >= m
    ensures c * Sq(g) >= m * Sq(g)
  {
    SqMirrors(g);
  }

  /** Distances between points of grid steps, scaled to the grid. */
  lemma StepDistance(g: real, p0: Cell, p1: Cell, q0: Cell, q1: Cell, s: real, u: real)
    requires Step(p0, p1) && Step(q0, q1) && p0.l == p1.l && q0.l == q1.l
    ensures var dx, dy := q0.x - p0.x, q0.y - p0.y;
            D2(Between(Centre(g, p0), Centre(g, p1), s), Between(Centre(g, q0), Centre(g, q1), u)) ==
            Len2(Along(dx, q1.x - q0.x, u) - Part(p1.x - p0.x, s),
                 Along(dy, q1.y - q0.y, u) - Part(p1.y - p0.y, s)) * Sq(g)
  {
    hide Step, Part, Along, D2, Between, Centre, Len2, Scale;
    StepPoint(g, p0, p1, s);
    StepPoint(g, q0, q1, u);
    OffsetsAlong(p0.x, p1.x, q0.x, q1.x, s, u);
    OffsetsAlong(p0.y, p1.y, q0.y, q1.y, s, u);
    var px, py := Along(p0.x, p1.x - p0.x, s), Along(p0.y, p1.y - p0.y, s);
    var qx, qy := Along(q0.x, q1.x - q0.x, u), Along(q0.y, q1.y - q0.y, u);
    Scaled(g, px, py, qx, qy);
  }

  lemma OffsetsAlong(p0: int, p1: int, q0: int, q1: int, s: real, u: real)
    ensures Along(q0, q1 - q0, u) - Along(p0, p1 - p0, s) == Along(q0 - p0, q1 - q0, u) - Part(p1 - p0, s)
  {
  }

  function Scale(g: real, x: real, y: real): Point {
    Point(x * g, y * g)
  }

  lemma Scaled(g: real, px: real, py: real, qx: real, qy: real)
    ensures D2(Scale(g, px, py), Scale(g, qx, qy)) == Len2(qx - px, qy - py) * Sq(g)
  {
    ScaledAxis(g, px, qx);
    ScaledAxis(g, py, qy);
    hide Sq;
    Distribute(Sq(qx - px), Sq(qy - py), Sq(g));
  }

  lemma ScaledAxis(g: real, p: real, q: real)
    ensures Sq(p * g - q * g) == Sq(q - p) * Sq(g)
  {
    assert p * g - q * g == -(q - p) * g;
  }

  lemma Distribute(a: real, b: real, c: real)
    ensures a * c + b * c == (a + b) * c
  {
  }

  /** The point a share `s` of the way along a grid step. */
  lemma StepPoint(g: real, p0: Cell, p1: Cell, s: real)
    requires Step(p0, p1) && p0.l == p1.l
    ensures Between(Centre(g, p0), Centre(g, p1), s) ==
            Scale(g, Along(p0.x, p1.x - p0.x, s), Along(p0.y, p1.y - p0.y, s))
  {
    PartScales(g, p0.x, p1.x, s);
    PartScales(g, p0.y, p1.y, s);
    hide Along;
  }

  lemma PartScales(g: real, p0: int, p1: int, s: real)
    requires -1 <= p1 - p0 <= 1
    ensures (1.0 - s) * (p0 as real * g) + s * (p1 as real * g) == Along(p0, p1 - p0, s) * g
  {
    var a := p0 as real * g;
    if p1 == p0 + 1 {
      assert p1 as real * g == a + g;
    } else if p1 == p0 - 1 {
      assert p1 as real * g == a - g;
    }
  }

  // ---- Routers -------------------------------------------------------------------------------

  lemma RulesAreValid(router: Router)
    requires router.Valid()
    ensures RulesOf(router).Valid()
  {
    assert router.Parameters();
  }

  lemma TrackRadius(router: Router, width: real)
    requires router.Parameters()
    ensures router.RadiiFor(width).track == RulesOf(router).Halo(width)
  {
    var r := router.TrackReach(width);
    router.SlackSquares(r);
    HaloSquare(RulesOf(router), width);
    assert router.RadiiFor(width).track == router.Slack2(r);
    hide Router.Slack2, Rules.Halo, Router.RadiiFor;
    OneRoot(router.Slack2(r), RulesOf(router).Halo(width));
  }

  lemma NetRadius(router: Router, i: nat)
    requires router.Valid() && i < |router.nets|
    ensures router.RadiiFor(router.nets[i].widthMm).track == RulesOf(router).Halo(router.nets[i].widthMm)
  {
    TrackRadius(router, router.nets[i].widthMm);
  }

  lemma OneRoot(a: real, b: real)
    requires a >= 0.0 && b >= 0.0 && Sq(a) == Sq(b)
    ensures a == b
  {
    if a < b {
      SquareLess(a, b);
    } else if b < a {
      SquareLess(b, a);
    }
  }

  /** Centres on one layer lie beyond both nets' halos. */
  lemma CentresBeyond(router: Router, i: nat, j: nat, b: nat, k: nat, c: nat, m: nat)
    requires router.Valid() && i < |router.nets| && j < |router.nets| && i != j
    requires router.nets[i].routed && router.nets[j].routed
    requires router.Indexed(router.nets[i]) && router.Undisturbed(router.nets[i])
    requires router.Indexed(router.nets[j]) && router.Undisturbed(router.nets[j])
    requires b < |router.nets[i].bridges| && k < |router.nets[i].bridges[b].cells|
    requires c < |router.nets[j].bridges| && m < |router.nets[j].bridges[c].cells|
    requires router.nets[i].bridges[b].cells[k].l == router.nets[j].bridges[c].cells[m].l
    ensures var p, q := router.nets[i].bridges[b].cells[k], router.nets[j].bridges[c].cells[m];
            && RulesOf(router).Beyond(router.nets[i].widthMm, q.x - p.x, q.y - p.y)
            && RulesOf(router).Beyond(router.nets[j].widthMm, q.x - p.x, q.y - p.y)
  {
    hide Router.Valid, Router.Indexed, Router.Undisturbed, Router.RadiiFor, InDisc, Rules.Halo, AllSites, SiteAt, Abs,
      Closest2;
    var x, y := router.nets[i].bridges[b].cells, router.nets[j].bridges[c].cells;
    SitesOfStep(router.nets[i], b, k);
    SitesOfStep(router.nets[j], c, m);
    NetRadius(router, i);
    NetRadius(router, j);
    HaloMisses(router, i, j, SiteAt(x, k), SiteAt(y, m));
    HaloMisses(router, j, i, SiteAt(y, m), SiteAt(x, k));
    BeyondMirrors(RulesOf(router), router.nets[j].widthMm, x[k].x - y[m].x, x[k].y - y[m].y);
  }

  lemma NothingDisturbed(router: Router)
    requires router.Valid()
    requires forall k :: 0 <= k < |router.nets| ==> !router.Disturbed(router.nets[k])
    ensures forall k :: 0 <= k < |router.nets| ==> router.Indexed(router.nets[k])
    ensures forall k :: 0 <= k < |router.nets| && router.nets[k].routed ==> router.Undisturbed(router.nets[k])
  {
    router.NetsAreIndexed(router.nets);
    hide Router.Indexed, Router.Undisturbed;
  }

  lemma StepPairKeepsRule(router: Router, i: nat, j: nat, p: nat, k: nat, q: nat, m: nat)
    requires router.Valid() && i < |router.nets| && j < |router.nets| && i != j
    requires router.nets[i].routed && router.nets[j].routed
    requires router.Indexed(router.nets[i]) && router.Undisturbed(router.nets[i])
    requires router.Indexed(router.nets[j]) && router.Undisturbed(router.nets[j])
    requires RulesOf(router).Roomy(router.nets[i].widthMm, router.nets[j].widthMm)
    requires p < |router.nets[i].bridges| && k < |router.nets[i].bridges[p].cells| - 1
    requires q < |router.nets[j].bridges| && m < |router.nets[j].bridges[q].cells| - 1
    ensures StepsApart(router.gridMm, router.nets[i].bridges[p].cells, k, router.nets[j].bridges[q].cells, m,
                       RulesOf(router).Rule(router.nets[i].widthMm, router.nets[j].widthMm))
  {
    hide Router.Valid, Router.Indexed, Router.Undisturbed, Rules.Roomy, Rules.Rule, Rules.Valid, Rules.Beyond, Step,
      SegmentsApart, Centre;
    var x, y := router.nets[i].bridges[p].cells, router.nets[j].bridges[q].cells;
    if x[k].l == x[k + 1].l == y[m].l == y[m + 1].l {
      RulesAreValid(router);
      BridgeSteps(router, i, p, k);
      BridgeSteps(router, j, q, m);
      CentresBeyond(router, i, j, p, k, q, m);
      CentresBeyond(router, i, j, p, k, q, m + 1);
      CentresBeyond(router, i, j, p, k + 1, q, m);
      CentresBeyond(router, i, j, p, k + 1, q, m + 1);
      RoomyStepsApart(RulesOf(router), router.nets[i].widthMm, router.nets[j].widthMm, x[k], x[k + 1], y[m], y[m + 1]);
    }
  }

  /** Undisturbed nets of a roomy pair keep their rule on every layer, however wide they are. */
  lemma RoomyKeepsRule(router: Router, i: nat, j: nat)
    requires router.Valid() && i < |router.nets| && j < |router.nets| && i != j
    requires router.nets[i].routed && router.nets[j].routed
    requires forall k :: 0 <= k < |router.nets| ==> !router.Disturbed(router.nets[k])
    requires RulesOf(router).Roomy(router.nets[i].widthMm, router.nets[j].widthMm)
    ensures TracksApart(router.gridMm, router.nets[i], router.nets[j],
                        RulesOf(router).Rule(router.nets[i].widthMm, router.nets[j].widthMm))
  {
    hide Router.Valid, Router.Indexed, Router.Undisturbed, Router.Disturbed, StepsApart, Rules.Roomy, Rules.Rule;
    NothingDisturbed(router);
    var a, b := router.nets[i], router.nets[j];
    forall p, k, q, m |
      0 <= p < |a.bridges| && 0 <= k < |a.bridges[p].cells| - 1 &&
      0 <= q < |b.bridges| && 0 <= m < |b.bridges[q].cells| - 1
      ensures StepsApart(router.gridMm, a.bridges[p].cells, k, b.bridges[q].cells, m,
                         RulesOf(router).Rule(a.widthMm, b.widthMm))
    {
      StepPairKeepsRule(router, i, j, p, k, q, m);
    }
  }
}

/** What a run with no remaining violations guarantees: every pair of routed nets keeps its clearance. */
module RoutedClearance {
  import opened Grid
  import opened Counters
  import opened Discs
  import opened NetCopper
  import opened Clearance
  import opened Autoroute

  function Centre(g: real, c: Cell): Point {
    Point(c.x as real * g, c.y as real * g)
  }

  /** Every point of a grid step of one net, on the same layer as a grid step of the other, is at least `r` away. */
  ghost predicate TracksApart(g: real, a: NetSpec, b: NetSpec, r: real) {
    forall i, k, j, m ::
      0 <= i < |a.bridges| && 0 <= k < |a.bridges[i].cells| - 1 &&
      0 <= j < |b.bridges| && 0 <= m < |b.bridges[j].cells| - 1 ==>
        StepsApart(g, a.bridges[i].cells, k, b.bridges[j].cells, m, r)
  }

  ghost predicate StepsApart(g: real, p: seq<Cell>, k: nat, q: seq<Cell>, m: nat, r: real)
    requires k < |p| - 1 && m < |q| - 1
  {
    p[k].l == p[k + 1].l == q[m].l == q[m + 1].l ==>
      SegmentsApart(Centre(g, p[k]), Centre(g, p[k + 1]), Centre(g, q[m]), Centre(g, q[m + 1]), r)
  }

  /** Every via of `b` is at least `rTrack` from every grid step of `a`, on any layer, and `rVia` from its vias. */
  ghost predicate ViasApart(g: real, a: NetSpec, b: NetSpec, rTrack: real, rVia: real) {
    && (forall i, k, v ::
          0 <= i < |a.bridges| && 0 <= k < |a.bridges[i].cells| - 1 && ViaAt(b, v) ==>
            ViaOffStep(g, a.bridges[i].cells, k, v, rTrack))
    && (forall u, v :: ViaAt(a, u) && ViaAt(b, v) ==> D2(Centre(g, u), Centre(g, v)) >= rVia * rVia)
  }

  ghost predicate ViaOffStep(g: real, p: seq<Cell>, k: nat, v: Cell, r: real)
    requires k < |p| - 1
  {
    p[k].l == p[k + 1].l ==> SegmentOff(Centre(g, p[k]), Centre(g, p[k + 1]), Centre(g, v), r)
  }

  /** A bridge of the net enters cell `v` from another layer. */
  ghost predicate ViaAt(net: NetSpec, v: Cell) {
    exists b, k :: 0 <= b < |net.bridges| && EntersByVia(net.bridges[b].cells, k, v)
  }

  ghost predicate EntersByVia(cells: seq<Cell>, k: int, v: Cell) {
    0 < k < |cells| && cells[k] == v && cells[k - 1].l != v.l
  }

  // ---- From offsets to distances -----------------------------------------------------------

  lemma CentreDistance(g: real, a: Cell, b: Cell)
    ensures D2(Centre(g, a), Centre(g, b)) == Norm2(b.x - a.x, b.y - a.y) as real * g * g
  {
    AxisDistance(g, a.x, b.x);
    AxisDistance(g, a.y, b.y);
    var dx, dy := b.x - a.x, b.y - a.y;
    assert Norm2(dx, dy) as real == (dx * dx) as real + (dy * dy) as real;
    hide Sq, Norm2;
    var p, q := (dx * dx) as real, (dy * dy) as real;
    assert (p + q) * g * g == p * g * g + q * g * g;
  }

  lemma AxisDistance(g: real, a: int, b: int)
    ensures Sq(a as real * g - b as real * g) == ((b - a) * (b - a)) as real * g * g
  {
    var d := (b - a) as real;
    assert a as real * g - b as real * g == -(d * g);
    assert ((b - a) * (b - a)) as real == d * d;
    assert Sq(-(d * g)) == d * d * g * g;
  }

  /** An offset outside the disc is farther than its radius. */
  lemma OutsideIsFar(g: real, r: real, a: Cell, b: Cell)
    requires r >= 0.0 && !Near(g, r, a, b.x, b.y)
    ensures D2(Centre(g, a), Centre(g, b)) >= r * r
  {
    CentreDistance(g, a, b);
    hide D2, Norm2;
    assert (r + EPSILON) * (r + EPSILON) >= r * r by {
      assert (r + EPSILON) * (r + EPSILON) - r * r == EPSILON * (2.0 * r + EPSILON);
    }
  }

  /** A planar step is at most one cell diagonal long. */
  lemma StepLength2(g: real, a: Cell, b: Cell)
    requires Step(a, b) && a.l == b.l
    ensures D2(Centre(g, a), Centre(g, b)) <= 2.0 * g * g
  {
    hide D2, Norm2;
    CentreDistance(g, a, b);
    UnitNorm(b.x - a.x, b.y - a.y);
    Widen(Norm2(b.x - a.x, b.y - a.y), 2, g);
  }

  lemma UnitNorm(dx: int, dy: int)
    requires -1 <= dx <= 1 && -1 <= dy <= 1
    ensures Norm2(dx, dy) <= 2
  {
    UnitSquare(dx);
    UnitSquare(dy);
  }

  lemma UnitSquare(d: int)
    requires -1 <= d <= 1
    ensures d * d <= 1
  {
  }

  lemma SquareMonotone(a: real, b: real)
    requires 0.0 <= a <= b
    ensures a * a <= b * b
  {
    assert b * b - a * a == (b - a) * (b + a);
    NonNegative(b - a, b + a);
  }

  // ---- From counters to offsets ------------------------------------------------------------

  lemma CentreIsNear(g: real, r: real, c: Cell)
    requires r >= 0.0
    ensures Near(g, r, c, c.x, c.y)
  {
    ZeroInDisc(g, r);
  }

  lemma ZeroInDisc(g: real, r: real)
    requires r >= 0.0
    ensures InDisc(g, r, 0, 0)
  {
    hide Norm2;
    ZeroScaled(0, 0, g);
    GuardSquare(r);
  }

  lemma ZeroScaled(ox: int, oy: int, g: real)
    requires ox == 0 && oy == 0
    ensures Norm2(ox, oy) as real * g * g == 0.0
  {
    var n := Norm2(ox, oy);
    assert n as real * g == 0.0;
  }

  lemma GuardSquare(r: real)
    ensures (r + EPSILON) * (r + EPSILON) >= 0.0
  {
  }

  /** If nothing disturbs net `j`, no site of another routed net `i` has a cell of `j` in its track halo. */
  lemma HaloMisses(router: Router, i: nat, j: nat, s: Site, t: Site)
    requires router.Valid() && i < |router.nets| && j < |router.nets| && i != j
    requires router.nets[i].routed && router.nets[j].routed && router.Indexed(router.nets[j])
    requires router.Undisturbed(router.nets[j])
    requires s in AllSites(router.nets[i].bridges) && t in AllSites(router.nets[j].bridges) && s.cell.l == t.cell.l
    ensures !Near(router.gridMm, router.RadiiFor(router.nets[i].widthMm).track, s.cell, t.cell.x, t.cell.y)
  {
    hide NodeIdx, PlaneIdx, TotalCells, PlaneCells, AllSites, Router.RadiiFor, Near, ViaHaloRecord, NewViaRecord,
      ViaSiteRecord, Connects, Tally, HaloRecords, Inside;
    var a, b := router.nets[i], router.nets[j];
    var id := NodeIdx(router.size, t.cell);
    assert router.NetOk(a) && router.NetOk(b);
    var sa, sb := AllSites(a.bridges), AllSites(b.bridges);
    var p :| 0 <= p < |sa| && sa[p] == s;
    var q :| 0 <= q < |sb| && sb[q] == t;
    assert Inside(router.size, sb[q].cell);
    router.RadiiNonNegative(b.widthMm);
    CentreIsNear(router.gridMm, router.RadiiFor(b.widthMm).track, t.cell);
    assert HaloCovers(router.gridMm, router.RadiiFor(b.widthMm), sb[q], t.cell);
    assert id in b.haloCells;
    assert id in b.centerCells;
    CountedOnce(router, i, j, id);
    assert id !in a.haloCells;
    assert !HaloCovers(router.gridMm, router.RadiiFor(a.widthMm), sa[p], t.cell);
  }

  /** On a routed net's own centre cell a count above one means exactly that another net's halo covers it. */
  lemma OwnCentreCount(router: Router, j: nat, id: int)
    requires router.Valid() && j < |router.nets| && router.nets[j].routed && router.Indexed(router.nets[j])
    requires id in router.nets[j].centerCells
    ensures 0 <= id < router.halo.count.Length
    ensures router.halo.count[id] > 1 <==>
              exists i :: 0 <= i < |router.nets| && i != j && id in router.nets[i].haloCells
  {
    var m :| 0 <= m < |router.nets[j].centerCells| && router.nets[j].centerCells[m] == id;
    OwnCentreInHalo(router, router.nets[j], id);
    hide NodeIdx, PlaneIdx, TotalCells, PlaneCells, Router.NetsOk, Tally;
    HaloTwice(router.nets, j, id);
  }

  lemma OwnCentreInHalo(router: Router, b: NetSpec, id: int)
    requires router.Parameters() && router.NetOk(b) && b.routed && id in b.centerCells
    ensures id in b.haloCells
  {
    hide NodeIdx, PlaneIdx, TotalCells, PlaneCells, AllSites, Router.RadiiFor, Near, ViaHaloRecord, NewViaRecord,
      ViaSiteRecord, Connects, Inside, BridgesLawful, JoinedSome, Ascending;
    var sb := AllSites(b.bridges);
    var k :| 0 <= k < |b.centerCells| && b.centerCells[k] == id;
    var q :| 0 <= q < |sb| && id == NodeIdx(router.size, sb[q].cell);
    assert Inside(router.size, sb[q].cell);
    router.RadiiNonNegative(b.widthMm);
    CentreIsNear(router.gridMm, router.RadiiFor(b.widthMm).track, sb[q].cell);
    assert HaloCovers(router.gridMm, router.RadiiFor(b.widthMm), sb[q], sb[q].cell);
  }

  lemma OwnSiteInHalo(router: Router, b: NetSpec, id: int)
    requires router.Parameters() && router.NetOk(b) && b.routed && id in b.viaSites2D
    ensures id in b.viaHalo2D
  {
    hide NodeIdx, PlaneIdx, TotalCells, PlaneCells, AllSites, Router.RadiiFor, Near, HaloRecord, NewViaRecord,
      CenterRecord, Connects, BridgesLawful, JoinedSome, Ascending;
    var sb := AllSites(b.bridges);
    var k :| 0 <= k < |b.viaSites2D| && b.viaSites2D[k] == id;
    var q :| 0 <= q < |sb| && sb[q].via && id == PlaneIdx(router.size, sb[q].cell.x, sb[q].cell.y);
    assert Inside(router.size, sb[q].cell) && OnPlane(router.size, sb[q].cell.x, sb[q].cell.y);
    router.RadiiNonNegative(b.widthMm);
    CentreIsNear(router.gridMm, router.RadiiFor(b.widthMm).trackVia, sb[q].cell);
    assert ViaHaloCovers(router.gridMm, router.RadiiFor(b.widthMm), sb[q], sb[q].cell.x, sb[q].cell.y);
  }

  // ---- Sharing -------------------------------------------------------------------------------

  /** Another net's recorded halo holds one of the net's own cells or via sites. */
  ghost predicate ReachedBy(net: NetSpec, other: NetSpec) {
    || (exists id :: id in net.centerCells && id in other.haloCells)
    || (exists id :: id in net.viaSites2D && id in other.viaHalo2D)
  }

  ghost predicate Shares(nets: seq<NetSpec>, k: nat)
    requires k < |nets|
  {
    exists j: nat :: j < |nets| && j != k && ReachedBy(nets[k], nets[j])
  }

  /** The counters single out exactly the nets that another net's halo reaches. */
  lemma CrowdedIsShared(router: Router, nets: seq<NetSpec>, k: nat)
    requires router.Parameters() && router.NetsOk(nets) && k < |nets| && nets[k].routed
    ensures router.CrowdedAmong(nets, nets[k]) <==> Shares(nets, k)
  {
    hide Router.NetOk, Router.Parameters, Tally;
    var net := nets[k];
    assert router.NetOk(net);
    forall id | id in net.centerCells
      ensures Tally(HaloRecords(nets), id) > 1 <==> exists j: nat :: j < |nets| && j != k && id in nets[j].haloCells
    {
      OwnCentreInHalo(router, net, id);
      HaloTwice(nets, k, id);
    }
    forall id | id in net.viaSites2D
      ensures Tally(ViaHaloRecords(nets), id) > 1 <==> exists j: nat :: j < |nets| && j != k && id in nets[j].viaHalo2D
    {
      OwnSiteInHalo(router, net, id);
      ViaHaloTwice(nets, k, id);
    }
    hide Router.NetsOk, HaloRecords, ViaHaloRecords;
    if j: nat :| j < |nets| && j != k && ReachedBy(net, nets[j]) {
      if id :| id in net.centerCells && id in nets[j].haloCells {
        assert Tally(HaloRecords(nets), id) > 1;
      } else {
        var id :| id in net.viaSites2D && id in nets[j].viaHalo2D;
        assert Tally(ViaHaloRecords(nets), id) > 1;
      }
    }
    if id :| id in net.centerCells && Tally(HaloRecords(nets), id) > 1 {
      var j: nat :| j < |nets| && j != k && id in nets[j].haloCells;
      assert ReachedBy(net, nets[j]);
    } else if id :| id in net.viaSites2D && Tally(ViaHaloRecords(nets), id) > 1 {
      var j: nat :| j < |nets| && j != k && id in nets[j].viaHalo2D;
      assert ReachedBy(net, nets[j]);
    }
  }

  lemma HaloTwice(nets: seq<NetSpec>, k: nat, id: int)
    requires k < |nets| && id in nets[k].haloCells
    ensures Tally(HaloRecords(nets), id) > 1 <==> exists j: nat :: j < |nets| && j != k && id in nets[j].haloCells
  {
    hide Tally;
    var records := HaloRecords(nets);
    TallyOthers(records, k, id);
    if j: nat :| j < |nets| && j != k && id in nets[j].haloCells {
      assert id in records[j];
    }
    if j :| 0 <= j < |records| && j != k && id in records[j] {
      assert id in nets[j].haloCells;
    }
  }

  lemma ViaHaloTwice(nets: seq<NetSpec>, k: nat, id: int)
    requires k < |nets| && id in nets[k].viaHalo2D
    ensures Tally(ViaHaloRecords(nets), id) > 1 <==> exists j: nat :: j < |nets| && j != k && id in nets[j].viaHalo2D
  {
    hide Tally;
    var records := ViaHaloRecords(nets);
    TallyOthers(records, k, id);
    if j: nat :| j < |nets| && j != k && id in nets[j].viaHalo2D {
      assert id in records[j];
    }
    if j :| 0 <= j < |records| && j != k && id in records[j] {
      assert id in nets[j].viaHalo2D;
    }
  }

  lemma CountedOnce(router: Router, i: nat, j: nat, id: int)
    requires router.Separate() && router.Counted(router.nets) && i < |router.nets| && j < |router.nets| && i != j
    requires router.Indexed(router.nets[j]) && router.Undisturbed(router.nets[j])
    requires id in router.nets[j].centerCells && id in router.nets[j].haloCells
    ensures id !in router.nets[i].haloCells
  {
    var records := HaloRecords(router.nets);
    assert records[j] == router.nets[j].haloCells && records[i] == router.nets[i].haloCells;
    TallyOthers(records, j, id);
    var m :| 0 <= m < |router.nets[j].centerCells| && router.nets[j].centerCells[m] == id;
    assert router.halo.count[id] == Tally(records, id);
  }

  lemma ViaHaloMisses(router: Router, i: nat, j: nat, s: Site, t: Site)
    requires router.Valid() && i < |router.nets| && j < |router.nets| && i != j
    requires router.nets[i].routed && router.nets[j].routed && router.Indexed(router.nets[j])
    requires router.Undisturbed(router.nets[j])
    requires s in AllSites(router.nets[i].bridges) && t in AllSites(router.nets[j].bridges) && t.via
    ensures !ViaHaloCovers(router.gridMm, router.RadiiFor(router.nets[i].widthMm), s, t.cell.x, t.cell.y)
  {
    hide NodeIdx, PlaneIdx, TotalCells, PlaneCells, AllSites, Router.RadiiFor, Near, HaloRecord, NewViaRecord,
      CenterRecord, Connects, Tally, ViaHaloRecords;
    var a, b := router.nets[i], router.nets[j];
    var id := PlaneIdx(router.size, t.cell.x, t.cell.y);
    assert router.NetOk(a) && router.NetOk(b);
    var sa, sb := AllSites(a.bridges), AllSites(b.bridges);
    var p :| 0 <= p < |sa| && sa[p] == s;
    var q :| 0 <= q < |sb| && sb[q] == t;
    assert Inside(router.size, sb[q].cell) && OnPlane(router.size, t.cell.x, t.cell.y);
    router.RadiiNonNegative(b.widthMm);
    CentreIsNear(router.gridMm, router.RadiiFor(b.widthMm).trackVia, t.cell);
    assert ViaHaloCovers(router.gridMm, router.RadiiFor(b.widthMm), sb[q], t.cell.x, t.cell.y);
    assert id in b.viaHalo2D;
    assert id in b.viaSites2D;
    ViaCountedOnce(router, i, j, id);
    assert id !in a.viaHalo2D;
    assert !ViaHaloCovers(router.gridMm, router.RadiiFor(a.widthMm), sa[p], t.cell.x, t.cell.y);
  }

  lemma ViaCountedOnce(router: Router, i: nat, j: nat, id: int)
    requires router.Separate() && router.Counted(router.nets) && i < |router.nets| && j < |router.nets| && i != j
    requires router.Indexed(router.nets[j]) && router.Undisturbed(router.nets[j])
    requires id in router.nets[j].viaSites2D && id in router.nets[j].viaHalo2D
    ensures id !in router.nets[i].viaHalo2D
  {
    var records := ViaHaloRecords(router.nets);
    assert records[j] == router.nets[j].viaHalo2D && records[i] == router.nets[i].viaHalo2D;
    TallyOthers(records, j, id);
    var m :| 0 <= m < |router.nets[j].viaSites2D| && router.nets[j].viaSites2D[m] == id;
    assert router.viaHalo.count[id] == Tally(records, id);
  }

  // ---- The guarantee -----------------------------------------------------------------------

  lemma SitesOfStep(a: NetSpec, i: nat, k: nat)
    requires i < |a.bridges| && k < |a.bridges[i].cells|
    ensures SiteAt(a.bridges[i].cells, k) in AllSites(a.bridges)
    ensures SiteAt(a.bridges[i].cells, k).cell == a.bridges[i].cells[k]
  {
    SiteOfBridge(a.bridges, i, k);
  }

  /** Cell centres of two nets on one layer are beyond the inflated track radius of the undisturbing net. */
  lemma CentresApart(router: Router, i: nat, j: nat, b: nat, k: nat, c: nat, m: nat)
    requires router.Valid() && i < |router.nets| && j < |router.nets| && i != j
    requires router.nets[i].routed && router.nets[j].routed && router.Indexed(router.nets[j])
    requires router.Undisturbed(router.nets[j])
    requires b < |router.nets[i].bridges| && k < |router.nets[i].bridges[b].cells|
    requires c < |router.nets[j].bridges| && m < |router.nets[j].bridges[c].cells|
    requires router.nets[i].bridges[b].cells[k].l == router.nets[j].bridges[c].cells[m].l
    ensures D2(Centre(router.gridMm, router.nets[i].bridges[b].cells[k]),
               Centre(router.gridMm, router.nets[j].bridges[c].cells[m])) >=
              router.TrackReach(router.nets[i].widthMm) * router.TrackReach(router.nets[i].widthMm)
                + router.gridMm * router.gridMm
  {
    hide D2, Near, Router.Slack2, Router.Indexed, Router.Undisturbed, Router.TrackReach, Centre, AllSites,
      Router.Separate, Router.Counted, Router.HistoryGrows, Router.NetsOk, HaloCovers;
    var a := router.nets[i];
    SitesOfStep(a, b, k);
    SitesOfStep(router.nets[j], c, m);
    HaloMisses(router, i, j, SiteAt(a.bridges[b].cells, k), SiteAt(router.nets[j].bridges[c].cells, m));
    router.SlackSquares(router.TrackReach(a.widthMm));
    assert router.RadiiFor(a.widthMm).track == router.Slack2(router.TrackReach(a.widthMm));
    hide Router.RadiiFor, Router.Valid, SiteAt;
    OutsideIsFar(router.gridMm, router.Slack2(router.TrackReach(a.widthMm)), a.bridges[b].cells[k],
                 router.nets[j].bridges[c].cells[m]);
  }

  lemma BridgeSteps(router: Router, i: nat, b: nat, k: nat)
    requires router.Valid() && i < |router.nets| && router.nets[i].routed
    requires b < |router.nets[i].bridges| && k < |router.nets[i].bridges[b].cells| - 1
    ensures Step(router.nets[i].bridges[b].cells[k], router.nets[i].bridges[b].cells[k + 1])
  {
    hide Recorded, SitesInside, Inside, Connects, AllSites;
    assert router.NetOk(router.nets[i]);
    assert Stepwise(router.size, router.nets[i].bridges[b].cells);
  }

  /** The halo of net `i` reaches far enough for net `j` exactly when `j` is no wider than the default track. */
  lemma ReachCovers(router: Router, i: nat, j: nat)
    requires router.Valid() && i < |router.nets| && j < |router.nets|
    ensures var needed := 0.5 * (router.nets[i].widthMm + router.nets[j].widthMm) + router.clearanceMm;
            && 0.0 <= needed
            && (needed <= router.TrackReach(router.nets[i].widthMm) <==> router.nets[j].widthMm <= router.trackWidthMm)
  {
    assert router.NetOk(router.nets[i]) && router.NetOk(router.nets[j]) && router.Parameters();
  }

  /** The inflated halo of net `i` keeps undisturbed net `j` clear when `j` is no wider than the default track. */
  lemma NarrowTracksApart(router: Router, i: nat, j: nat)
    requires router.Valid() && i < |router.nets| && j < |router.nets| && i != j
    requires router.nets[i].routed && router.nets[j].routed && router.Indexed(router.nets[j])
    requires router.Undisturbed(router.nets[j])
    requires router.nets[j].widthMm <= router.trackWidthMm
    ensures TracksApart(router.gridMm, router.nets[i], router.nets[j],
                        0.5 * (router.nets[i].widthMm + router.nets[j].widthMm) + router.clearanceMm)
  {
    hide Router.TrackReach, AllSites, Committed, Connects;
    var a, b, g := router.nets[i], router.nets[j], router.gridMm;
    var r := 0.5 * (a.widthMm + b.widthMm) + router.clearanceMm;
    var wide := router.TrackReach(a.widthMm);
    ReachCovers(router, i, j);
    SquareMonotone(r, wide);
    hide Router.Valid, Router.Indexed, Router.Undisturbed, StepsApart;
    forall p, k, q, m |
      0 <= p < |a.bridges| && 0 <= k < |a.bridges[p].cells| - 1 &&
      0 <= q < |b.bridges| && 0 <= m < |b.bridges[q].cells| - 1
      ensures StepsApart(g, a.bridges[p].cells, k, b.bridges[q].cells, m, r)
    {
      StepPairApart(router, i, j, p, k, q, m, r);
    }
  }

  lemma StepPairApart(router: Router, i: nat, j: nat, p: nat, k: nat, q: nat, m: nat, r: real)
    requires router.Valid() && i < |router.nets| && j < |router.nets| && i != j
    requires router.nets[i].routed && router.nets[j].routed && router.Indexed(router.nets[j])
    requires router.Undisturbed(router.nets[j])
    requires p < |router.nets[i].bridges| && k < |router.nets[i].bridges[p].cells| - 1
    requires q < |router.nets[j].bridges| && m < |router.nets[j].bridges[q].cells| - 1
    requires r * r <= router.TrackReach(router.nets[i].widthMm) * router.TrackReach(router.nets[i].widthMm)
    ensures StepsApart(router.gridMm, router.nets[i].bridges[p].cells, k, router.nets[j].bridges[q].cells, m, r)
  {
    hide Router.Valid, Router.Indexed, Router.Undisturbed, Router.TrackReach, D2, Centre, SegmentsApart, Step;
    var x, y := router.nets[i].bridges[p].cells, router.nets[j].bridges[q].cells;
    if x[k].l == x[k + 1].l == y[m].l == y[m + 1].l {
      CentresApart(router, i, j, p, k, q, m);
      CentresApart(router, i, j, p, k, q, m + 1);
      CentresApart(router, i, j, p, k + 1, q, m);
      CentresApart(router, i, j, p, k + 1, q, m + 1);
      BridgeSteps(router, i, p, k);
      BridgeSteps(router, j, q, m);
      StepsFarApart(router.gridMm, x, k, y, m, r, router.TrackReach(router.nets[i].widthMm));
    }
  }

  lemma StepsFarApart(g: real, x: seq<Cell>, k: nat, y: seq<Cell>, m: nat, r: real, wide: real)
    requires k < |x| - 1 && m < |y| - 1 && x[k].l == x[k + 1].l == y[m].l == y[m + 1].l
    requires Step(x[k], x[k + 1]) && Step(y[m], y[m + 1]) && r * r <= wide * wide
    requires D2(Centre(g, x[k]), Centre(g, y[m])) >= wide * wide + g * g
    requires D2(Centre(g, x[k]), Centre(g, y[m + 1])) >= wide * wide + g * g
    requires D2(Centre(g, x[k + 1]), Centre(g, y[m])) >= wide * wide + g * g
    requires D2(Centre(g, x[k + 1]), Centre(g, y[m + 1])) >= wide * wide + g * g
    ensures StepsApart(g, x, k, y, m, r)
  {
    hide D2, Centre, SegmentsApart, Step;
    StepLength2(g, x[k], x[k + 1]);
    StepLength2(g, y[m], y[m + 1]);
    SegmentToSegment(Centre(g, x[k]), Centre(g, x[k + 1]), Centre(g, y[m]), Centre(g, y[m + 1]), r, g);
  }

  lemma TracksApartSymmetric(g: real, a: NetSpec, b: NetSpec, r: real)
    requires TracksApart(g, b, a, r)
    ensures TracksApart(g, a, b, r)
  {
    hide D2, Centre, SegmentsApart;
    forall p, k, q, m |
      0 <= p < |a.bridges| && 0 <= k < |a.bridges[p].cells| - 1 &&
      0 <= q < |b.bridges| && 0 <= m < |b.bridges[q].cells| - 1
      ensures StepsApart(g, a.bridges[p].cells, k, b.bridges[q].cells, m, r)
    {
      var x, y := a.bridges[p].cells, b.bridges[q].cells;
      assert StepsApart(g, y, m, x, k, r);
      if x[k].l == x[k + 1].l == y[m].l == y[m + 1].l {
        SegmentsApartSymmetric(Centre(g, y[m]), Centre(g, y[m + 1]), Centre(g, x[k]), Centre(g, x[k + 1]), r);
      }
    }
  }

  lemma SegmentsApartSymmetric(q0: Point, q1: Point, p0: Point, p1: Point, r: real)
    requires SegmentsApart(q0, q1, p0, p1, r)
    ensures SegmentsApart(p0, p1, q0, q1, r)
  {
    hide Between, D2;
    forall s: real, u: real | 0.0 <= s <= 1.0 && 0.0 <= u <= 1.0
      ensures D2(Between(p0, p1, s), Between(q0, q1, u)) >= r * r
    {
      D2Symmetric(Between(p0, p1, s), Between(q0, q1, u));
    }
  }

  /** Undisturbed vias keep the track clearance from the other net's steps and the pitch from its vias. */
  lemma ViasKeepClear(router: Router, i: nat, j: nat)
    requires router.Valid() && i < |router.nets| && j < |router.nets| && i != j
    requires router.nets[i].routed && router.nets[j].routed && router.Indexed(router.nets[j])
    requires router.Undisturbed(router.nets[j])
    ensures ViasApart(router.gridMm, router.nets[i], router.nets[j],
                      router.ViaReach(router.nets[i].widthMm), router.ViaPitch())
  {
    hide D2, Centre, SegmentOff, Router.Valid, Router.Indexed, Router.Undisturbed, Router.ViaReach, Router.ViaPitch,
      AllSites, Step, ViaAt;
    var a, b, g := router.nets[i], router.nets[j], router.gridMm;
    var rTrack := router.ViaReach(a.widthMm);
    forall p, k, v | 0 <= p < |a.bridges| && 0 <= k < |a.bridges[p].cells| - 1 && ViaAt(b, v)
      ensures ViaOffStep(g, a.bridges[p].cells, k, v, rTrack)
    {
      var s := Site(v, true);
      ViaHasSite(router, j, v);
      var x := a.bridges[p].cells;
      if x[k].l == x[k + 1].l {
        ViaOffCentre(router, i, j, p, k, s);
        ViaOffCentre(router, i, j, p, k + 1, s);
        BridgeSteps(router, i, p, k);
        StepLength2(g, x[k], x[k + 1]);
        PointToStep(Centre(g, x[k]), Centre(g, x[k + 1]), Centre(g, s.cell), rTrack, g);
      }
    }
    forall u, v | ViaAt(a, u) && ViaAt(b, v)
      ensures D2(Centre(g, u), Centre(g, v)) >= router.ViaPitch() * router.ViaPitch()
    {
      ViaHasSite(router, i, u);
      ViaHasSite(router, j, v);
      ViaOffVia(router, i, j, Site(u, true), Site(v, true));
    }
  }

  lemma ViaHasSite(router: Router, k: nat, v: Cell)
    requires router.Valid() && k < |router.nets| && router.nets[k].routed && ViaAt(router.nets[k], v)
    ensures Site(v, true) in AllSites(router.nets[k].bridges)
  {
    hide Recorded, SitesInside, Connects, JoinedSome, BridgesLawful, AllSites;
    var net := router.nets[k];
    assert router.NetOk(net);
    var b, m :| 0 <= b < |net.bridges| && EntersByVia(net.bridges[b].cells, m, v);
    var cells := net.bridges[b].cells;
    assert Stepwise(router.size, cells);
    assert Step(cells[m - 1], cells[m - 1 + 1]);
    SiteOfBridge(net.bridges, b, m);
  }

  lemma ViaOffVia(router: Router, i: nat, j: nat, s: Site, t: Site)
    requires router.Valid() && i < |router.nets| && j < |router.nets| && i != j
    requires router.nets[i].routed && router.nets[j].routed && router.Indexed(router.nets[j])
    requires router.Undisturbed(router.nets[j])
    requires s in AllSites(router.nets[i].bridges) && s.via && t in AllSites(router.nets[j].bridges) && t.via
    ensures D2(Centre(router.gridMm, s.cell), Centre(router.gridMm, t.cell)) >= router.ViaPitch() * router.ViaPitch()
  {
    hide D2, Near, Router.Indexed, Router.Undisturbed, Centre, AllSites;
    ViaHaloMisses(router, i, j, s, t);
    assert router.ViaPitch() >= 0.0 by { assert router.Parameters(); }
    assert router.RadiiFor(router.nets[i].widthMm).viaVia == router.ViaPitch();
    hide Router.RadiiFor, Router.Valid, Router.ViaPitch;
    OutsideIsFar(router.gridMm, router.ViaPitch(), s.cell, t.cell);
  }

  lemma ViaOffCentre(router: Router, i: nat, j: nat, p: nat, k: nat, s: Site)
    requires router.Valid() && i < |router.nets| && j < |router.nets| && i != j
    requires router.nets[i].routed && router.nets[j].routed && router.Indexed(router.nets[j])
    requires router.Undisturbed(router.nets[j]) && s in AllSites(router.nets[j].bridges) && s.via
    requires p < |router.nets[i].bridges| && k < |router.nets[i].bridges[p].cells|
    ensures D2(Centre(router.gridMm, router.nets[i].bridges[p].cells[k]), Centre(router.gridMm, s.cell)) >=
              router.ViaReach(router.nets[i].widthMm) * router.ViaReach(router.nets[i].widthMm)
                + 0.5 * (router.gridMm * router.gridMm)
  {
    hide D2, Near, Router.Slack1, Router.Indexed, Router.Undisturbed, Router.ViaReach, Centre, AllSites;
    var a := router.nets[i];
    SitesOfStep(a, p, k);
    ViaHaloMisses(router, i, j, SiteAt(a.bridges[p].cells, k), s);
    router.SlackSquares(router.ViaReach(a.widthMm));
    assert router.RadiiFor(a.widthMm).trackVia == router.Slack1(router.ViaReach(a.widthMm));
    hide Router.RadiiFor, Router.Valid, SiteAt;
    OutsideIsFar(router.gridMm, router.Slack1(router.ViaReach(a.widthMm)), a.bridges[p].cells[k], s.cell);
  }

  /** The design rule a zero violation count stands for. For any two routed nets: if at least one is no wider
      than the default track, all grid steps of their bridges keep `(w1 + w2) / 2 + clearance` on each layer;
      vias keep their track clearance and their pitch whatever the widths. */
  lemma NoViolationsMeansClear(router: Router, i: nat, j: nat)
    requires router.Valid() && i < |router.nets| && j < |router.nets| && i != j
    requires router.nets[i].routed && router.nets[j].routed
    requires forall k :: 0 <= k < |router.nets| ==> !router.Disturbed(router.nets[k])
    ensures router.nets[i].widthMm <= router.trackWidthMm || router.nets[j].widthMm <= router.trackWidthMm ==>
              TracksApart(router.gridMm, router.nets[i], router.nets[j],
                          0.5 * (router.nets[i].widthMm + router.nets[j].widthMm) + router.clearanceMm)
    ensures ViasApart(router.gridMm, router.nets[i], router.nets[j],
                      0.5 * (router.nets[i].widthMm + router.viaSizeMm) + router.clearanceMm,
                      router.viaSizeMm + router.clearanceMm)
  {
    hide TracksApart, ViasApart, Router.Indexed, Router.Undisturbed;
    router.NetsAreIndexed(router.nets);
    hide Router.Valid;
    if router.nets[j].widthMm <= router.trackWidthMm {
      NarrowTracksApart(router, i, j);
    } else if router.nets[i].widthMm <= router.trackWidthMm {
      NarrowTracksApart(router, j, i);
      TracksApartSymmetric(router.gridMm, router.nets[i], router.nets[j],
                           0.5 * (router.nets[j].widthMm + router.nets[i].widthMm) + router.clearanceMm);
    }
    ViasKeepClear(router, i, j);
  }
}

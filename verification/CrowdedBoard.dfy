/** The run that breaks the clearance rule of a pair of nets whenever the pair is not roomy: two nets, each with
    two pads in neighbouring cells of one layer, routed in one pass that ends without a violation. */
module CrowdedBoard {
  import opened Basics
  import opened Grid
  import opened Bridging
  import opened SearchProof
  import opened BridgeSearch
  import opened Counters
  import opened Discs
  import opened NetCopper
  import opened Clearance
  import opened StepGeometry
  import opened Autoroute
  import opened RoutedClearance
  import opened ExactClearance

  // ---- Two pads in neighbouring cells --------------------------------------------------------

  predicate Pads(copper: seq<CopperCell>, a: Cell, b: Cell) {
    && |copper| == 2 && copper[0].cell == a && copper[0].island == 0 && !copper[0].interior
    && copper[1].cell == b && copper[1].island == 1
  }

  lemma PadGoals(copper: seq<CopperCell>, a: Cell, b: Cell, at: Cell -> (real, real))
    requires Pads(copper, a, b) && a != b
    ensures GoalCells(copper, {0}) == {b}
    ensures Costs(AllSeeds(copper, {0}, [], at)) == map[a := 0.0]
  {
    var goals := GoalCells(copper, {0});
    assert copper[1].cell in goals;
    assert goals == {b};
    var one := copper[..1];
    assert one[..0] == [] && one[0] == copper[0];
    var none := CopperSeeds(one[..0], {0}, goals);
    assert none == map[];
    assert copper[..2] == copper;
    var first := CopperSeeds(one, {0}, goals);
    assert first == AddSeed(none, goals, a, Seed(0.0, copper[0].ex, copper[0].ey));
    assert first == map[a := Seed(0.0, copper[0].ex, copper[0].ey)];
    assert CopperSeeds(copper, {0}, goals) == first;
  }

  /** The step from pad to pad is open and costs just its length. */
  ghost predicate OpenStep(t: Terrain, a: Cell, b: Cell, d: nat) {
    && d < DIRECTIONS && Target(a, Planar(d)) == b && Inside(t.size, b)
    && t.history(b) == 1.0 && t.halo(b) == 0
    && (d >= FIRST_DIAGONAL ==> Open(t, Cell(a.l, a.x, b.y)) && Open(t, Cell(a.l, b.x, a.y)))
  }

  predicate Open(t: Terrain, c: Cell) {
    !t.Blocked(c) && t.halo(c) == 0
  }

  lemma OpenStepCost(t: Terrain, a: Cell, b: Cell, d: nat)
    requires OpenStep(t, a, b, d) && b in t.goals
    ensures t.Legal(a, Planar(d)) && t.Cost(a, Planar(d)) == StepLength(d) < 2.0
    ensures Walk(t, a, [Planar(d)]) && End(a, [Planar(d)]) == b && WalkCost(t, a, [Planar(d)]) == StepLength(d)
  {
    assert [Planar(d)][..0] == [];
    assert t.Congestion(a, d) == 1.0;
  }

  /** Every move costs at least one. */
  lemma {:induction false} WalkAtLeast(t: Terrain, from: Cell, moves: seq<Move>)
    requires t.Valid() && t.viaCost >= 1.0 && Walk(t, from, moves)
    ensures WalkCost(t, from, moves) >= |moves| as real
  {
    if moves != [] {
      var n := |moves| - 1;
      WalkAtLeast(t, from, moves[..n]);
      CostAtLeastLength(t, End(from, moves[..n]), moves[n]);
      hide Terrain.Cost, Terrain.Legal, Terrain.Valid, End;
    }
  }

  lemma CheapestIsDirect(t: Terrain, a: Cell, b: Cell, d: nat, cells: seq<Cell>, moves: seq<Move>)
    requires t.Valid() && t.viaCost >= 1.0 && OpenStep(t, a, b, d) && a != b && t.goals == {b}
    requires CheapestBridge(t, map[a := 0.0], cells, moves)
    ensures cells == [a, b]
  {
    hide Terrain.Valid, Terrain.Legal, Terrain.Cost, OpenStep, Walk, End, WalkCost;
    OpenStepCost(t, a, b, d);
    TrailIsWalk(t, cells, moves);
    WalkAtLeast(t, a, moves);
    assert |moves| as real < 2.0;
  }

  lemma ReachableGoal(t: Terrain, a: Cell, b: Cell, d: nat)
    requires OpenStep(t, a, b, d) && b in t.goals
    ensures !Unreachable(t, map[a := 0.0])
  {
    OpenStepCost(t, a, b, d);
    hide OpenStep, Walk, End;
  }

  /** Bridging two pads in neighbouring cells over an open step takes that step and nothing else. */
  lemma PadsAreJoined(t: Terrain, at: Cell -> (real, real), net: NetSpec, order: seq<int>, ok: bool, a: Cell, b: Cell,
                      d: nat)
    requires Routing(t, at, net, order, ok)
    requires Pads(net.copper, a, b) && a != b && net.startIsland == 0 && net.requiredIslands == 2
    requires WithGoals(t, net.copper, {0}).Valid() && t.viaCost >= 1.0 && OpenStep(t, a, b, d)
    ensures ok && |net.bridges| == 1 && net.bridges[0].cells == [a, b]
  {
    hide Terrain.Valid, OpenStep, CheapestBridge, Unreachable, GoalCells, AllSeeds, Pads;
    PadGoals(net.copper, a, b, at);
    var round := WithGoals(t, net.copper, {0});
    assert OpenStep(round, a, b, d) by { SameStep(t, round, a, b, d); }
    ReachableGoal(round, a, b, d);
    assert GrownCells([]) == [];
    assert net.bridges == [] ==> order == [0];
    assert Islands([0]) == {0};
    assert net.bridges != [];
    assert order[..1] == [0] && net.bridges[..0] == [];
    assert Islands(order[..1]) == {0};
    assert BridgeJoins(t, net.copper, at, net.bridges, order, 0);
    var i: nat :| JoinsThrough(t, net.copper, at, net.bridges, order, 0, i);
    var moves :| Joins(t, net.copper, {0}, [], at, Found(net.bridges[0], i), moves);
    CheapestIsDirect(round, a, b, d, net.bridges[0].cells, moves);
  }

  lemma SameStep(t: Terrain, round: Terrain, a: Cell, b: Cell, d: nat)
    requires OpenStep(t, a, b, d) && round == t.(goals := round.goals)
    ensures OpenStep(round, a, b, d)
  {
  }

  // ---- The board -----------------------------------------------------------------------------

  /** The pads of the two nets; `d0` is the direction of the first net's step, the second net's is level. */
  datatype Layout = Layout(a0: Cell, b0: Cell, d0: nat, a1: Cell, b1: Cell)

  /** `b1` and the first net's step are the offset `(x, y)` apart, with the middle of the step in between when
      the offset is a notch. */
  function LayoutFor(x: nat, y: nat): Layout {
    if Notch(x, y) then
      var n := if x < y then x else y;
      Layout(Cell(0, 1 + n, n + 1), Cell(0, 2 + n, n), 5, Cell(0, 0, 0), Cell(0, 1, 0))
    else Layout(Cell(0, 1 + x, y), Cell(0, 2 + x, y), 0, Cell(0, 0, 0), Cell(0, 1, 0))
  }

  function BoardSize(x: nat, y: nat): Size {
    Size(x + y + 3, x + y + 3, 1)
  }

  lemma LayoutInside(x: nat, y: nat)
    ensures var l, s := LayoutFor(x, y), BoardSize(x, y);
            && Inside(s, l.a0) && Inside(s, l.b0) && Inside(s, l.a1) && Inside(s, l.b1) && l.d0 < DIRECTIONS
            && Target(l.a0, Planar(l.d0)) == l.b0 && Target(l.a1, Planar(0)) == l.b1 && l.a0 != l.b0 && l.a1 != l.b1
            && l.a0.l == l.b0.l == l.a1.l == l.b1.l == 0
  {
  }

  ghost predicate Apart(b: Rules, w: real, p: Cell, q: Cell) {
    b.Beyond(w, p.x - q.x, p.y - q.y) && b.Beyond(w, q.x - p.x, q.y - p.y)
  }

  lemma LayoutApart(b: Rules, w: real, x: nat, y: nat)
    requires b.Beyond(w, x, y)
    ensures var l := LayoutFor(x, y);
            Apart(b, w, l.a0, l.a1) && Apart(b, w, l.a0, l.b1) && Apart(b, w, l.b0, l.a1) && Apart(b, w, l.b0, l.b1)
  {
    hide Rules.Beyond;
    var l := LayoutFor(x, y);
    LongerApart(b, w, x, y, l.a0, l.a1);
    LongerApart(b, w, x, y, l.a0, l.b1);
    LongerApart(b, w, x, y, l.b0, l.a1);
    LongerApart(b, w, x, y, l.b0, l.b1);
  }

  lemma LongerApart(b: Rules, w: real, x: nat, y: nat, p: Cell, q: Cell)
    requires b.Beyond(w, x, y) && p.x >= q.x && p.y >= q.y
    requires (p.x - q.x >= x && p.y - q.y >= y) || (p.x - q.x >= y && p.y - q.y >= x)
    ensures Apart(b, w, p, q)
  {
    var dx, dy := p.x - q.x, p.y - q.y;
    if dx >= x && dy >= y {
      NormGrows(x, y, dx, dy);
    } else {
      NormGrows(y, x, dx, dy);
    }
    BeyondLonger(b, w, x, y, dx, dy);
    BeyondMirrors(b, w, dx, dy);
  }

  lemma NormGrows(x: nat, y: nat, dx: int, dy: int)
    requires dx >= x && dy >= y
    ensures Norm2(x, y) <= Norm2(dx, dy) && Norm2(x, y) == Norm2(y, x)
  {
    assert x * x <= dx * dx && y * y <= dy * dy;
  }

  /** On this layout the two steps come as close as the offset allows. */
  lemma LayoutBreaksRule(b: Rules, w1: real, w2: real, x: nat, y: nat)
    requires b.Crowds(w1, w2, x, y)
    ensures var l := LayoutFor(x, y);
            !SegmentsApart(Centre(b.grid, l.a0), Centre(b.grid, l.b0), Centre(b.grid, l.a1), Centre(b.grid, l.b1),
                           b.Rule(w1, w2))
  {
    var l := LayoutFor(x, y);
    hide Rules.Beyond, Rules.Rule;
    var s := if Notch(x, y) then 0.5 else 0.0;
    LayoutDistance(b.grid, x, y, s);
    var c0, c1, d0, d1 := Centre(b.grid, l.a0), Centre(b.grid, l.b0), Centre(b.grid, l.a1), Centre(b.grid, l.b1);
    SquareOf(b.Rule(w1, w2));
    hide Sq, D2, Between, Centre, Closest2;
    assert D2(Between(c0, c1, s), Between(d0, d1, 1.0)) < b.Rule(w1, w2) * b.Rule(w1, w2);
  }

  lemma LayoutDistance(g: real, x: nat, y: nat, s: real)
    requires s == if Notch(x, y) then 0.5 else 0.0
    ensures var l := LayoutFor(x, y);
            D2(Between(Centre(g, l.a0), Centre(g, l.b0), s), Between(Centre(g, l.a1), Centre(g, l.b1), 1.0)) ==
            Closest2(x, y) * g * g
  {
    hide D2, Between, Centre, Len2, Closest2, Sq, LayoutFor, Step, Part, Along, Notch;
    var l := LayoutFor(x, y);
    LayoutSteps(x, y);
    StepDistance(g, l.a0, l.b0, l.a1, l.b1, s, 1.0);
    LayoutLength(x, y, s);
    Regroup(Closest2(x, y), g);
  }

  lemma LayoutSteps(x: nat, y: nat)
    ensures var l := LayoutFor(x, y); Step(l.a0, l.b0) && Step(l.a1, l.b1) && l.a0.l == l.b0.l && l.a1.l == l.b1.l
  {
  }

  lemma LayoutLength(x: nat, y: nat, s: real)
    requires s == if Notch(x, y) then 0.5 else 0.0
    ensures var l := LayoutFor(x, y);
            var dx, dy := l.a1.x - l.a0.x, l.a1.y - l.a0.y;
            Len2(Along(dx, l.b1.x - l.a1.x, 1.0) - Part(l.b0.x - l.a0.x, s),
                 Along(dy, l.b1.y - l.a1.y, 1.0) - Part(l.b0.y - l.a0.y, s)) == Closest2(x, y)
  {
    hide Sq, Norm2;
    var l := LayoutFor(x, y);
    if Notch(x, y) {
      var n := if x < y then x else y;
      HalfSquare(n);
      SqMirrors(n as real + 0.5);
    } else {
      SqMirrors(x as real);
      SqMirrors(y as real);
      WholeSquares(x, y);
    }
  }

  lemma WholeSquares(x: nat, y: nat)
    ensures Sq(x as real) + Sq(y as real) == Norm2(x, y) as real
  {
  }

  lemma HalfSquare(n: nat)
    ensures Sq(n as real + 0.5) == (n * n) as real + n as real + 0.25
    ensures Norm2(n, n + 1) == Norm2(n + 1, n) == 2 * (n * n) + 2 * n + 1
  {
  }

  // ---- The terrain of the pass ---------------------------------------------------------------

  lemma NoHalo(router: Router, m: seq<NetSpec>, netId: int, present: real, c: Cell)
    requires router.gridMm > 0.0 && forall j :: 0 <= j < |m| ==> NodeIdx(router.size, c) !in m[j].haloCells
    ensures router.TerrainAmong(m, netId, present, router.historyCost[..]).halo(c) == 0
  {
    hide NodeIdx, TotalCells, PlaneCells, Tally;
    TallyZero(HaloRecords(m), NodeIdx(router.size, c));
  }

  lemma AmongIsValid(router: Router, m: seq<NetSpec>, netId: int, present: real, copper: seq<CopperCell>)
    requires router.gridMm > 0.0 && present >= 0.0
    requires forall i :: 0 <= i < router.historyCost.Length ==> router.historyCost[i] == 1.0
    requires forall i :: 0 <= i < |copper| ==> Inside(router.size, copper[i].cell)
    ensures WithGoals(router.TerrainAmong(m, netId, present, router.historyCost[..]), copper, {0}).Valid()
    ensures router.TerrainAmong(m, netId, present, router.historyCost[..]).viaCost >= 1.0
    ensures forall c :: router.TerrainAmong(m, netId, present, router.historyCost[..]).history(c) == 1.0
  {
    hide NodeIdx, PlaneIdx, TotalCells, PlaneCells, Inside, OnPlane, Tally;
    var t := WithGoals(router.TerrainAmong(m, netId, present, router.historyCost[..]), copper, {0});
    forall c
      ensures t.history(c) >= 1.0 && t.halo(c) >= 0
    {
    }
    forall x, y
      ensures t.viaHalo(x, y) >= 0
    {
    }
  }

  /** A committed straight pair of cells has no halo on a cell beyond it, and no via. */
  lemma PairHalo(router: Router, i: nat, p: Cell, q: Cell, c: Cell)
    requires router.Valid() && i < |router.nets| && router.nets[i].routed
    requires |router.nets[i].bridges| == 1 && router.nets[i].bridges[0].cells == [p, q] && p.l == q.l == c.l
    requires Inside(router.size, c) && router.Indexed(router.nets[i])
    requires Apart(RulesOf(router), router.nets[i].widthMm, c, p)
    requires Apart(RulesOf(router), router.nets[i].widthMm, c, q)
    ensures NodeIdx(router.size, c) !in router.nets[i].haloCells
  {
    hide NodeIdx, PlaneIdx, TotalCells, PlaneCells, Router.RadiiFor, Rules.Halo, InDisc, ViaHaloRecord, NewViaRecord,
      CenterRecord, ViaSiteRecord, Connects, Tally, HaloRecords, Inside, BridgesLawful, JoinedSome, Ascending, SiteAt;
    var net := router.nets[i];
    assert router.NetOk(net);
    NetRadius(router, i);
    PairSites(net.bridges, p, q);
    var sites := AllSites(net.bridges);
    assert sites[0].cell == p && sites[1].cell == q;
    assert !HaloCovers(router.gridMm, router.RadiiFor(net.widthMm), sites[0], c);
    assert !HaloCovers(router.gridMm, router.RadiiFor(net.widthMm), sites[1], c);
  }

  lemma {:induction false} PairSites(bridges: seq<Bridge>, p: Cell, q: Cell)
    requires |bridges| == 1 && bridges[0].cells == [p, q] && p.l == q.l
    ensures AllSites(bridges) == [Site(p, false), Site(q, false)]
  {
    PairSitesOf(p, q);
    hide SitesOf;
    assert bridges[..0] == [];
  }

  lemma PairSitesOf(p: Cell, q: Cell)
    requires p.l == q.l
    ensures SitesOf([p, q]) == [Site(p, false), Site(q, false)]
  {
  }

  lemma SomeElement(s: seq<int>)
    ensures s == [] || exists id :: id in s
  {
    if |s| > 0 {
      var id := s[0];
      assert id in s;
    }
  }

  lemma PairLists(router: Router, i: nat, p: Cell, q: Cell)
    requires router.Valid() && i < |router.nets| && router.nets[i].routed
    requires |router.nets[i].bridges| == 1 && router.nets[i].bridges[0].cells == [p, q] && p.l == q.l
    ensures router.nets[i].viaSites2D == []
    ensures forall id :: id in router.nets[i].centerCells ==>
              id == NodeIdx(router.size, p) || id == NodeIdx(router.size, q)
  {
    hide NodeIdx, PlaneIdx, TotalCells, PlaneCells, Router.RadiiFor, ViaHaloRecord, NewViaRecord, HaloRecord,
      Connects, Tally, HaloRecords, Inside, BridgesLawful, JoinedSome, Ascending, AllSites;
    var net := router.nets[i];
    assert router.NetOk(net);
    PairSites(net.bridges, p, q);
    var sites := AllSites(net.bridges);
    SomeElement(net.viaSites2D);
  }

  // ---- The pass ------------------------------------------------------------------------------

  function PadNet(b: Rules, id: int, width: real, p: Cell, q: Cell): NetSpec {
    NetSpec(id, width,
            [CopperCell(p, 0, p.x as real * b.grid, p.y as real * b.grid, false),
             CopperCell(q, 1, q.x as real * b.grid, q.y as real * b.grid, false)],
            0, 2, [], [], [], [], [], [], false)
  }

  function PadNets(b: Rules, w1: real, w2: real, x: nat, y: nat): seq<NetSpec> {
    var l := LayoutFor(x, y);
    [PadNet(b, 1, w1, l.a0, l.b0), PadNet(b, 2, w2, l.a1, l.b1)]
  }

  /** Nothing else owns the corners that the first net's step passes; what owns the rest of the board is open. */
  predicate CornersFree(cellOwner: seq<int>, x: nat, y: nat) {
    var l := LayoutFor(x, y);
    var owner := CellsOf(BoardSize(x, y), cellOwner, 0);
    Usable(owner(Cell(0, l.a0.x, l.b0.y)), 1) && Usable(owner(Cell(0, l.b0.x, l.a0.y)), 1)
  }

  /** A fresh router on that board. */
  ghost predicate Ready(router: Router, b: Rules, w1: real, w2: real, x: nat, y: nat)
    reads router.historyCost
  {
    && RulesOf(router) == b && router.size == BoardSize(x, y) && router.gridMm > 0.0
    && router.Parameters() && CornersFree(router.cellOwner, x, y)
    && forall i :: 0 <= i < router.historyCost.Length ==> router.historyCost[i] == 1.0
  }

  ghost predicate NoHaloAt(size: Size, m: seq<NetSpec>, c: Cell) {
    forall j :: 0 <= j < |m| ==> NodeIdx(size, c) !in m[j].haloCells
  }

  ghost predicate CornerOpen(router: Router, m: seq<NetSpec>, netId: int, c: Cell) {
    Usable(router.OwnerAt()(c), netId) && NoHaloAt(router.size, m, c)
  }

  /** What bridging does to a pad net whose step no halo touches. */
  lemma JoinedAmong(router: Router, m: seq<NetSpec>, net: NetSpec, order: seq<int>, p: Cell, q: Cell, d: nat)
    requires router.gridMm > 0.0 && forall i :: 0 <= i < router.historyCost.Length ==> router.historyCost[i] == 1.0
    requires Routing(router.TerrainAmong(m, net.id, 1.0, router.historyCost[..]), router.CellCentre, net, order,
                     net.routed)
    requires Pads(net.copper, p, q) && p != q && net.startIsland == 0 && net.requiredIslands == 2
    requires Inside(router.size, p) && Inside(router.size, q) && d < DIRECTIONS && Target(p, Planar(d)) == q
    requires NoHaloAt(router.size, m, q)
    requires d >= FIRST_DIAGONAL ==>
               CornerOpen(router, m, net.id, Cell(p.l, p.x, q.y)) && CornerOpen(router, m, net.id, Cell(p.l, q.x, p.y))
    ensures net.routed && |net.bridges| == 1 && net.bridges[0].cells == [p, q]
  {
    hide Routing, Router.TerrainAmong, Router.CellCentre, Terrain.Valid, NodeIdx, Inside;
    var t := router.TerrainAmong(m, net.id, 1.0, router.historyCost[..]);
    AmongIsValid(router, m, net.id, 1.0, net.copper);
    AmongOwner(router, m, net.id, 1.0);
    NoHalo(router, m, net.id, 1.0, q);
    if d >= FIRST_DIAGONAL {
      NoHalo(router, m, net.id, 1.0, Cell(p.l, p.x, q.y));
      NoHalo(router, m, net.id, 1.0, Cell(p.l, q.x, p.y));
    }
    assert OpenStep(t, p, q, d);
    hide OpenStep, Pads;
    PadsAreJoined(t, router.CellCentre, net, order, net.routed, p, q, d);
  }

  lemma AmongOwner(router: Router, m: seq<NetSpec>, netId: int, present: real)
    requires router.gridMm > 0.0
    ensures var t := router.TerrainAmong(m, netId, present, router.historyCost[..]);
            t.owner == router.OwnerAt() && t.netId == netId && t.size == router.size
  {
  }

  lemma PadsOf(b: Rules, id: int, width: real, p: Cell, q: Cell, net: NetSpec)
    requires SameNet(PadNet(b, id, width, p, q), net)
    ensures Pads(net.copper, p, q) && net.startIsland == 0 && net.requiredIslands == 2 && net.id == id
    ensures net.widthMm == width
  {
  }

  lemma FirstNetJoined(router: Router, b: Rules, w1: real, w2: real, x: nat, y: nat, after: seq<NetSpec>)
    requires Ready(router, b, w1, w2, x, y)
    requires router.PassDone(PadNets(b, w1, w2, x, y), after, [0, 1], 1.0, router.historyCost[..])
    ensures |after| == 2 && after[0].routed
    ensures |after[0].bridges| == 1 && after[0].bridges[0].cells == [LayoutFor(x, y).a0, LayoutFor(x, y).b0]
  {
    hide NodeIdx, Routing, Router.TerrainAmong, Router.CellCentre, Pads, OpenStep, Inside, Router.Parameters,
      LayoutFor, BoardSize;
    var before, l := PadNets(b, w1, w2, x, y), LayoutFor(x, y);
    LayoutInside(x, y);
    assert SameNet(before[0], after[0]);
    PadsOf(b, 1, w1, l.a0, l.b0, after[0]);
    assert router.Outcome(before, after, [0, 1], 0, 1.0, router.historyCost[..]);
    assert [0, 1][..0] == [];
    assert router.Midway(before, after, []) == before;
    var order :| Routing(router.TerrainAmong(before, 1, 1.0, router.historyCost[..]), router.CellCentre, after[0],
                         order, after[0].routed);
    JoinedAmong(router, before, after[0], order, l.a0, l.b0, l.d0);
  }

  lemma SecondNetJoined(router: Router, b: Rules, w1: real, w2: real, x: nat, y: nat)
    requires router.Valid() && Ready(router, b, w1, w2, x, y) && b.Beyond(w1, x, y)
    requires router.PassDone(PadNets(b, w1, w2, x, y), router.nets, [0, 1], 1.0, router.historyCost[..])
    requires |router.nets| == 2 && router.nets[0].routed && router.Indexed(router.nets[0])
    requires |router.nets[0].bridges| == 1
    requires router.nets[0].bridges[0].cells == [LayoutFor(x, y).a0, LayoutFor(x, y).b0]
    ensures router.nets[1].routed
    ensures |router.nets[1].bridges| == 1 && router.nets[1].bridges[0].cells == [LayoutFor(x, y).a1, LayoutFor(x, y).b1]
  {
    hide NodeIdx, Routing, Router.TerrainAmong, Router.CellCentre, Pads, OpenStep, Inside, Router.Parameters,
      LayoutFor, BoardSize, Router.Valid, Router.Indexed, CornersFree, Rules.Beyond;
    var before, after, l := PadNets(b, w1, w2, x, y), router.nets, LayoutFor(x, y);
    LayoutInside(x, y);
    LayoutApart(b, w1, x, y);
    assert SameNet(before[0], after[0]) && SameNet(before[1], after[1]);
    PadsOf(b, 1, w1, l.a0, l.b0, after[0]);
    PadsOf(b, 2, w2, l.a1, l.b1, after[1]);
    PairHalo(router, 0, l.a0, l.b0, l.b1);
    var m := [after[0], before[1]];
    assert router.Outcome(before, after, [0, 1], 1, 1.0, router.historyCost[..]);
    assert [0, 1][..1] == [0];
    assert router.Midway(before, after, [0]) == m;
    assert NoHaloAt(router.size, m, l.b1);
    var order :| Routing(router.TerrainAmong(m, 2, 1.0, router.historyCost[..]), router.CellCentre, after[1], order,
                         after[1].routed);
    JoinedAmong(router, m, after[1], order, l.a1, l.b1, 0);
  }

  /** Of two committed pairs whose cells lie beyond each other's halos, neither is disturbed. */
  lemma PairUndisturbed(router: Router, i: nat, j: nat, p: Cell, q: Cell, a: Cell, b: Cell)
    requires router.Valid() && |router.nets| == 2 && i < 2 && j < 2 && i != j
    requires router.nets[i].routed && router.nets[j].routed && router.Indexed(router.nets[i])
    requires router.Indexed(router.nets[j])
    requires |router.nets[i].bridges| == 1 && router.nets[i].bridges[0].cells == [p, q] && p.l == q.l == a.l == b.l
    requires |router.nets[j].bridges| == 1 && router.nets[j].bridges[0].cells == [a, b]
    requires Inside(router.size, a) && Inside(router.size, b)
    requires var w := router.nets[i].widthMm;
             var rules := RulesOf(router);
             Apart(rules, w, a, p) && Apart(rules, w, a, q) && Apart(rules, w, b, p) && Apart(rules, w, b, q)
    ensures router.Undisturbed(router.nets[j])
  {
    hide NodeIdx, Inside, Router.Valid, Apart;
    var net := router.nets[j];
    PairHalo(router, i, p, q, a);
    PairHalo(router, i, p, q, b);
    PairLists(router, j, a, b);
    forall k | 0 <= k < |net.centerCells|
      ensures router.halo.count[net.centerCells[k]] <= 1
    {
      var id := net.centerCells[k];
      assert id in net.centerCells;
      OwnCentreCount(router, j, id);
    }
  }

  /** Both nets ended up as their direct steps. */
  predicate Paired(nets: seq<NetSpec>, x: nat, y: nat) {
    && |nets| == 2 && nets[0].routed && nets[1].routed
    && |nets[0].bridges| == 1 && nets[0].bridges[0].cells == [LayoutFor(x, y).a0, LayoutFor(x, y).b0]
    && |nets[1].bridges| == 1 && nets[1].bridges[0].cells == [LayoutFor(x, y).a1, LayoutFor(x, y).b1]
  }

  lemma PairedUndisturbed(router: Router, b: Rules, w1: real, w2: real, x: nat, y: nat)
    requires router.Valid() && Ready(router, b, w1, w2, x, y) && Paired(router.nets, x, y)
    requires router.nets[0].widthMm == w1 && router.nets[1].widthMm == w2 && b.Beyond(w1, x, y) && b.Beyond(w2, x, y)
    ensures !router.Disturbed(router.nets[0]) && !router.Disturbed(router.nets[1])
  {
    hide Router.Valid, NodeIdx, Inside, LayoutFor, BoardSize, CornersFree, Rules.Beyond, Router.Undisturbed,
      Router.Indexed, Apart, Router.Parameters;
    var l := LayoutFor(x, y);
    LayoutInside(x, y);
    LayoutApart(b, w1, x, y);
    LayoutApart(b, w2, x, y);
    ApartMirrors(b, w2, l.a0, l.a1);
    ApartMirrors(b, w2, l.a0, l.b1);
    ApartMirrors(b, w2, l.b0, l.a1);
    ApartMirrors(b, w2, l.b0, l.b1);
    ApartMirrors(b, w1, l.a0, l.a1);
    ApartMirrors(b, w1, l.a0, l.b1);
    ApartMirrors(b, w1, l.b0, l.a1);
    ApartMirrors(b, w1, l.b0, l.b1);
    ValidIndexed(router);
    PairUndisturbed(router, 0, 1, l.a0, l.b0, l.a1, l.b1);
    PairUndisturbed(router, 1, 0, l.a1, l.b1, l.a0, l.b0);
  }

  lemma ApartMirrors(b: Rules, w: real, p: Cell, q: Cell)
    requires Apart(b, w, p, q)
    ensures Apart(b, w, q, p)
  {
    hide Rules.Beyond;
  }

  lemma ValidIndexed(router: Router)
    requires router.Valid()
    ensures forall k :: 0 <= k < |router.nets| ==> router.Indexed(router.nets[k])
  {
    router.NetsAreIndexed(router.nets);
  }

  lemma PairedBreakRule(router: Router, b: Rules, w1: real, w2: real, x: nat, y: nat)
    requires Paired(router.nets, x, y) && b.Crowds(w1, w2, x, y)
    ensures !TracksApart(b.grid, router.nets[0], router.nets[1], b.Rule(w1, w2))
  {
    hide LayoutFor, Rules.Crowds, Rules.Rule, SegmentsApart, Centre;
    LayoutInside(x, y);
    LayoutBreaksRule(b, w1, w2, x, y);
    OneCloseStep(b.grid, router.nets[0], router.nets[1], b.Rule(w1, w2));
  }

  lemma OneCloseStep(g: real, a: NetSpec, b: NetSpec, r: real)
    requires a.bridges != [] && |a.bridges[0].cells| == 2 && b.bridges != [] && |b.bridges[0].cells| == 2
    requires !StepsApart(g, a.bridges[0].cells, 0, b.bridges[0].cells, 0, r)
    ensures !TracksApart(g, a, b, r)
  {
    hide StepsApart;
  }

  /** What the pass leaves behind. */
  lemma BrokenAfterPass(router: Router, b: Rules, w1: real, w2: real, x: nat, y: nat)
    requires router.Valid() && Ready(router, b, w1, w2, x, y) && b.Crowds(w1, w2, x, y)
    requires router.PassDone(PadNets(b, w1, w2, x, y), router.nets, [0, 1], 1.0, router.historyCost[..])
    ensures |router.nets| == 2 && router.nets[0].routed && router.nets[1].routed
    ensures router.nets[0].widthMm == w1 && router.nets[1].widthMm == w2
    ensures !router.Disturbed(router.nets[0]) && !router.Disturbed(router.nets[1])
    ensures !TracksApart(b.grid, router.nets[0], router.nets[1], b.Rule(w1, w2))
  {
    hide Router.Valid, Router.PassDone, Ready, LayoutFor, BoardSize, Rules.Beyond, Rules.Rule, Router.Disturbed,
      Router.Indexed, PadNets, TracksApart, Closest2;
    PositiveGrid(router);
    PassKeepsWidths(router, b, w1, w2, x, y);
    ValidIndexed(router);
    FirstNetJoined(router, b, w1, w2, x, y, router.nets);
    SecondNetJoined(router, b, w1, w2, x, y);
    PairedUndisturbed(router, b, w1, w2, x, y);
    PairedBreakRule(router, b, w1, w2, x, y);
  }

  lemma PositiveGrid(router: Router)
    requires router.Valid()
    ensures router.gridMm > 0.0
  {
    router.ValidIsPositive();
  }

  lemma PassKeepsWidths(router: Router, b: Rules, w1: real, w2: real, x: nat, y: nat)
    requires router.gridMm > 0.0
    requires router.PassDone(PadNets(b, w1, w2, x, y), router.nets, [0, 1], 1.0, router.historyCost[..])
    ensures |router.nets| == 2 && router.nets[0].widthMm == w1 && router.nets[1].widthMm == w2
  {
    hide Router.Outcome;
    var before := PadNets(b, w1, w2, x, y);
    assert SameNet(before[0], router.nets[0]) && SameNet(before[1], router.nets[1]);
  }

  lemma FreshPads(b: Rules, w1: real, w2: real, x: nat, y: nat)
    requires b.Valid() && w1 >= 0.0 && w2 >= 0.0
    ensures var nets, size := PadNets(b, w1, w2, x, y), BoardSize(x, y);
            && |nets| == 2 && size.layers <= MAX_LAYERS && size.w > 0 && size.h > 0
            && forall k :: 0 <= k < 2 ==>
                 && !nets[k].routed && Blank(nets[k]) && nets[k].bridges == [] && nets[k].widthMm >= 0.0
                 && forall i :: 0 <= i < |nets[k].copper| ==> Inside(size, nets[k].copper[i].cell)
  {
    LayoutInside(x, y);
    hide LayoutFor;
  }

  lemma SetUpIsReady(router: Router, b: Rules, w1: real, w2: real, x: nat, y: nat)
    requires router.Valid() && router.size == BoardSize(x, y) && CornersFree(router.cellOwner, x, y)
    requires router.gridMm == b.grid && router.trackWidthMm == b.track && router.clearanceMm == b.clearance
    requires router.sqrt == b.sqrt
    requires forall i :: 0 <= i < router.historyCost.Length ==> router.historyCost[i] == 1.0
    ensures Ready(router, b, w1, w2, x, y) && router.Separate()
  {
    assert router.Parameters();
  }

  lemma NothingRouted(router: Router)
    requires forall k :: 0 <= k < |router.nets| ==> !router.nets[k].routed
    ensures forall k :: 0 <= k < |router.nets| ==> !router.Disturbed(router.nets[k])
  {
  }

  /** One pass over two nets of a pair that is not roomy: nothing else is on the way, the nets are routed, no
      violation is counted and the next survey would end the run, yet the nets break their own rule. */
  method BreakRule(b: Rules, viaSizeMm: real, w1: real, w2: real, x: nat, y: nat, cellOwner: seq<int>,
                   viaOwner: seq<int>)
    returns (router: Router, drc: nat, anyCongestion: bool, allRouted: bool)
    requires b.Valid() && viaSizeMm >= 0.0 && w1 >= 0.0 && w2 >= 0.0 && b.Crowds(w1, w2, x, y)
    requires |cellOwner| == TotalCells(BoardSize(x, y)) && |viaOwner| == PlaneCells(BoardSize(x, y))
    requires CornersFree(cellOwner, x, y)
    ensures router.Valid() && RulesOf(router) == b && router.cellOwner == cellOwner && router.viaOwner == viaOwner
    ensures |router.nets| == 2 && router.nets[0].widthMm == w1 && router.nets[1].widthMm == w2
    ensures router.nets[0].routed && router.nets[1].routed
    ensures drc == 0 && !anyCongestion && allRouted
    ensures !TracksApart(b.grid, router.nets[0], router.nets[1], b.Rule(w1, w2))
  {
    hide Router.Valid, NodeIdx, PlaneIdx, TotalCells, PlaneCells, Inside, LayoutFor, BoardSize, CornersFree,
      Rules.Crowds, Router.PassDone, Router.Undisturbed, Router.Indexed, TracksApart, PadNets, Rules.Rule, Ready,
      Blank;
    var nets := PadNets(b, w1, w2, x, y);
    FreshPads(b, w1, w2, x, y);
    router := new Router(BoardSize(x, y), b.grid, (0.0, 0.0), b.track, b.clearance, viaSizeMm, b.sqrt, cellOwner,
                         viaOwner, nets);
    SetUpIsReady(router, b, w1, w2, x, y);
    FirstPass(router);
    SetUpIsReady(router, b, w1, w2, x, y);
    BrokenAfterPass(router, b, w1, w2, x, y);
    drc := router.CountViolations();
    anyCongestion, allRouted := router.Assess();
  }

  /** The first turn of the pass loop on a board of two unrouted nets. */
  method FirstPass(router: Router)
    requires router.Valid() && router.Separate() && |router.nets| == 2 && !router.nets[0].routed
    requires !router.nets[1].routed
    modifies router`nets, router.historyCost, router.buf, router.buf.Arrays(), router.halo, router.viaHalo,
             router.newVia,
             router.halo.Arrays(), router.viaHalo.Arrays(), router.newVia.Arrays()
    ensures router.Valid() && router.gridMm > 0.0 && router.historyCost[..] == old(router.historyCost[..])
    ensures router.PassDone(old(router.nets), router.nets, [0, 1], 1.0, router.historyCost[..])
  {
    hide Router.Valid, Router.PassDone, Router.PassRun, Router.Undisturbed, Router.Indexed;
    NothingRouted(router);
    var congested, routed := router.Assess();
    hide Router.Disturbed;
    assert Distinct([0, 1]);
    var order;
    ghost var found;
    order, found := router.RoutePass([0, 1], 0);
    router.FirstPassRun(old(router.nets), found, router.nets, [0, 1], order, router.historyCost[..]);
  }

  /** Two tracks of 2 mm on a board with 0.2 mm default tracks and clearance and a 0.25 mm grid: centre lines six
      cells apart lie outside both halos, although the pair's rule asks for 2.2 mm. */
  lemma WideTracksCrowd(sqrt: real -> real)
    requires Rules(0.25, 0.2, 0.2, sqrt).Valid()
    ensures Rules(0.25, 0.2, 0.2, sqrt).Crowds(2.0, 2.0, 0, 6)
  {
    var b := Rules(0.25, 0.2, 0.2, sqrt);
    HaloSquare(b, 2.0);
    var h := b.Halo(2.0);
    assert Sq(h) == 1.7525 by { assert b.Reach(2.0) == 1.3; }
    if h > 1.4 {
      SquareLess(1.4, h);
      SquareOf(h);
    }
    hide Rules.Halo;
    assert h <= 1.4;
    Squares(h + EPSILON, 1.4 + EPSILON);
    SquareOf(h + EPSILON);
    assert Norm2(0, 6) == 36 && !Notch(0, 6);
    assert Sq(b.Rule(2.0, 2.0)) == 4.84;
  }

  /** So these tracks may end up 1.5 mm apart in a finished run. */
  method WideTracksTooClose(sqrt: real -> real) returns (router: Router, drc: nat)
    requires Rules(0.25, 0.2, 0.2, sqrt).Valid()
    ensures router.Valid() && |router.nets| == 2 && router.nets[0].widthMm == 2.0 && router.nets[1].widthMm == 2.0
    ensures router.nets[0].routed && router.nets[1].routed && drc == 0
    ensures !TracksApart(0.25, router.nets[0], router.nets[1], 2.2)
  {
    var b := Rules(0.25, 0.2, 0.2, sqrt);
    WideTracksCrowd(sqrt);
    assert b.Rule(2.0, 2.0) == 2.2;
    hide Router.Valid, Rules.Rule, Rules.Crowds, TracksApart;
    var size := BoardSize(0, 6);
    var cellOwner := seq(TotalCells(size), _ => 0);
    var viaOwner := seq(PlaneCells(size), _ => 0);
    var anyCongestion, allRouted;
    router, drc, anyCongestion, allRouted := BreakRule(b, 0.6, 2.0, 2.0, 0, 6, cellOwner, viaOwner);
  }
}

/** What the copper of other nets costs a walk: every net on the board charges for the cells of its recorded halo
    that the walk meets, and a cheapest bridge is cheapest in these charges. */
module Tolls {
  import opened Basics
  import opened Grid
  import opened Bridging
  import opened SearchProof
  import opened SearchBuffers
  import opened BridgeSearch
  import opened Counters
  import opened NetCopper
  import opened Autoroute

  // ---- One net's charge ------------------------------------------------------------------------

  /** One for the cells on the net's recorded halo. */
  ghost function OnHalo(size: Size, net: NetSpec): Cell -> int {
    c => if Inside(size, c) && NodeIdx(size, c) in net.haloCells then 1 else 0
  }

  /** One for the columns on the net's recorded via halo. */
  ghost function OnViaHalo(size: Size, net: NetSpec): (int, int) -> int {
    (x, y) => if OnPlane(size, x, y) && PlaneIdx(size, x, y) in net.viaHalo2D then 1 else 0
  }

  ghost predicate OnNewVia(size: Size, net: NetSpec, x: int, y: int) {
    OnPlane(size, x, y) && PlaneIdx(size, x, y) in net.newVia2D
  }

  /** What a net on the board charges for a step. */
  ghost function Toll(t: Terrain, net: NetSpec, c: Cell, m: Move): real {
    Fare(t, c, m) * t.present * Crossing(OnHalo(t.size, net), OnViaHalo(t.size, net), c, m)
  }

  ghost function WalkToll(t: Terrain, net: NetSpec, from: Cell, moves: seq<Move>): real {
    if moves == [] then 0.0
    else
      var before := moves[..|moves| - 1];
      WalkToll(t, net, from, before) + Toll(t, net, End(from, before), moves[|moves| - 1])
  }

  /** `u` is `t` with one more net on the board. */
  ghost predicate Joined(t: Terrain, u: Terrain, net: NetSpec) {
    && SameBoard(t, u)
    && (forall c :: u.halo(c) == t.halo(c) + OnHalo(t.size, net)(c))
    && (forall x, y :: u.viaHalo(x, y) == t.viaHalo(x, y) + OnViaHalo(t.size, net)(x, y))
    && (forall x, y :: u.newVia(x, y) == t.newVia(x, y) + (if OnNewVia(t.size, net, x, y) then 1 else 0))
  }

  lemma JoinedChargesStep(t: Terrain, u: Terrain, net: NetSpec, c: Cell, m: Move)
    requires Joined(t, u, net)
    ensures u.Cost(c, m) == t.Cost(c, m) + Toll(t, net, c, m)
  {
    hide Terrain.Cost, Fare, Crossing, OnHalo, OnViaHalo;
    CoverAdds(t, u, OnHalo(t.size, net), OnViaHalo(t.size, net), c, m);
  }

  lemma {:induction false} JoinedCharges(t: Terrain, u: Terrain, net: NetSpec, from: Cell, moves: seq<Move>)
    requires Joined(t, u, net)
    ensures WalkCost(u, from, moves) == WalkCost(t, from, moves) + WalkToll(t, net, from, moves)
  {
    hide Terrain.Cost, Toll, Joined, End;
    if moves != [] {
      var before := moves[..|moves| - 1];
      JoinedCharges(t, u, net, from, before);
      JoinedChargesStep(t, u, net, End(from, before), moves[|moves| - 1]);
    }
  }

  /** Its vias' columns are closed to other vias; it closes nothing else. */
  lemma JoinedForbids(t: Terrain, u: Terrain, net: NetSpec, c: Cell, m: Move)
    requires Joined(t, u, net) && t.newVia(c.x, c.y) >= 0
    ensures u.Legal(c, m) <==> t.Legal(c, m) && !(m.Via? && OnNewVia(t.size, net, c.x, c.y))
  {
    assert forall d :: u.Blocked(d) == t.Blocked(d);
  }

  // ---- The terrain among nets --------------------------------------------------------------------

  lemma AmongLooksUp(router: Router, nets: seq<NetSpec>, netId: int, present: real, history: seq<real>)
    requires router.gridMm > 0.0
    ensures var t := router.TerrainAmong(nets, netId, present, history);
            && (forall c :: t.halo(c) ==
                  if Inside(router.size, c) then Tally(HaloRecords(nets), NodeIdx(router.size, c)) else 0)
            && (forall x, y :: t.viaHalo(x, y) ==
                  if OnPlane(router.size, x, y) then Tally(ViaHaloRecords(nets), PlaneIdx(router.size, x, y)) else 0)
            && (forall x, y :: t.newVia(x, y) ==
                  if OnPlane(router.size, x, y) then Tally(NewViaRecords(nets), PlaneIdx(router.size, x, y)) else 0)
  {
    IndexFacts(router.size);
    PlaneFacts(router.size);
    hide NodeIdx, PlaneIdx, TotalCells, PlaneCells, Inside, OnPlane, HaloRecords, ViaHaloRecords, NewViaRecords, Tally;
  }

  /** What else a search reads: its own net and prices, the ownership of copper, and the history. */
  lemma AmongReads(router: Router, nets: seq<NetSpec>, netId: int, present: real, history: seq<real>, c: Cell)
    requires router.gridMm > 0.0 && router.Separate() && |history| == TotalCells(router.size) && Inside(router.size, c)
    ensures var t, id := router.TerrainAmong(nets, netId, present, history), NodeIdx(router.size, c);
            && t.size == router.size && t.netId == netId && t.present == present
            && 0 <= id < |history| && t.history(c) == history[id] && t.owner(c) == router.cellOwner[id]
    ensures var t, id := router.TerrainAmong(nets, netId, present, history), PlaneIdx(router.size, c.x, c.y);
            0 <= id < |router.viaOwner| && t.viaOwner(c.x, c.y) == router.viaOwner[id]
    ensures var cost := router.TerrainAmong(nets, netId, present, history).viaCost;
            && cost >= 2.0 && cost * router.gridMm >= 1.25 && (cost == 2.0 || cost * router.gridMm == 1.25)
  {
    IndexFacts(router.size);
    PlaneFacts(router.size);
    router.ViaCostLaw();
    hide NodeIdx, PlaneIdx, TotalCells, PlaneCells, Router.ViaCostSteps;
    assert OnPlane(router.size, c.x, c.y);
  }

  /** Putting a net on the board where there was a blank one. */
  lemma NetJoins(router: Router, nets: seq<NetSpec>, k: nat, net: NetSpec, netId: int, present: real,
                 history: seq<real>)
    requires router.gridMm > 0.0 && k < |nets| && Blank(nets[k])
    ensures Joined(router.TerrainAmong(nets, netId, present, history),
                   router.TerrainAmong(nets[k := net], netId, present, history), net)
  {
    hide NodeIdx, PlaneIdx, TotalCells, PlaneCells, Inside, OnPlane;
    var nets' := nets[k := net];
    AmongLooksUp(router, nets, netId, present, history);
    AmongLooksUp(router, nets', netId, present, history);
    assert HaloRecords(nets') == HaloRecords(nets)[k := net.haloCells];
    assert ViaHaloRecords(nets') == ViaHaloRecords(nets)[k := net.viaHalo2D];
    assert NewViaRecords(nets') == NewViaRecords(nets)[k := net.newVia2D];
    forall id: int
      ensures Tally(HaloRecords(nets'), id) == Tally(HaloRecords(nets), id) + (if id in net.haloCells then 1 else 0)
      ensures Tally(ViaHaloRecords(nets'), id) ==
              Tally(ViaHaloRecords(nets), id) + (if id in net.viaHalo2D then 1 else 0)
      ensures Tally(NewViaRecords(nets'), id) == Tally(NewViaRecords(nets), id) + (if id in net.newVia2D then 1 else 0)
    {
      TallyUpdate(HaloRecords(nets), k, net.haloCells, id);
      TallyUpdate(ViaHaloRecords(nets), k, net.viaHalo2D, id);
      TallyUpdate(NewViaRecords(nets), k, net.newVia2D, id);
    }
  }

  /** One more routed net among the others raises the cost of every walk by exactly its tolls. */
  lemma AnotherNetCosts(router: Router, nets: seq<NetSpec>, k: nat, net: NetSpec, netId: int, present: real,
                        history: seq<real>,
                        from: Cell, moves: seq<Move>)
    requires router.gridMm > 0.0 && k < |nets| && Blank(nets[k])
    ensures var t, u := router.TerrainAmong(nets, netId, present, history),
            router.TerrainAmong(nets[k := net], netId, present, history);
            WalkCost(u, from, moves) == WalkCost(t, from, moves) + WalkToll(t, net, from, moves)
  {
    hide Router.TerrainAmong, Joined, WalkCost, WalkToll;
    NetJoins(router, nets, k, net, netId, present, history);
    JoinedCharges(router.TerrainAmong(nets, netId, present, history),
                  router.TerrainAmong(nets[k := net], netId, present, history), net,
                  from, moves);
  }

  // ---- All nets' charges -------------------------------------------------------------------------

  /** The price of a walk on a board without other nets. */
  ghost function WalkFare(t: Terrain, from: Cell, moves: seq<Move>): real {
    if moves == [] then 0.0
    else
      var before := moves[..|moves| - 1];
      WalkFare(t, from, before) + Fare(t, End(from, before), moves[|moves| - 1])
  }

  ghost function WalkTolls(t: Terrain, nets: seq<NetSpec>, from: Cell, moves: seq<Move>): real {
    if nets == [] then 0.0
    else WalkTolls(t, nets[..|nets| - 1], from, moves) + WalkToll(t, nets[|nets| - 1], from, moves)
  }

  lemma {:induction false} ClearWalk(t: Terrain, from: Cell, moves: seq<Move>)
    requires forall c :: t.halo(c) == 0
    requires forall x, y :: t.viaHalo(x, y) == 0
    ensures WalkCost(t, from, moves) == WalkFare(t, from, moves)
  {
    if moves != [] {
      var before := moves[..|moves| - 1];
      ClearWalk(t, from, before);
      CostIsLinear(t, End(from, before), moves[|moves| - 1]);
    }
  }

  lemma SameFare(t: Terrain, u: Terrain, net: NetSpec, c: Cell, m: Move)
    requires SameBoard(t, u)
    ensures Fare(t, c, m) == Fare(u, c, m) && Toll(t, net, c, m) == Toll(u, net, c, m)
  {
    hide Fare, Crossing, OnHalo, OnViaHalo;
    FareStays(t, u, c, m);
  }

  lemma FareStays(t: Terrain, u: Terrain, c: Cell, m: Move)
    requires SameBoard(t, u)
    ensures Fare(t, c, m) == Fare(u, c, m)
  {
  }

  lemma {:induction false} SameFares(t: Terrain, u: Terrain, net: NetSpec, from: Cell, moves: seq<Move>)
    requires SameBoard(t, u)
    ensures WalkFare(t, from, moves) == WalkFare(u, from, moves)
    ensures WalkToll(t, net, from, moves) == WalkToll(u, net, from, moves)
  {
    hide Fare, Toll, SameBoard, End;
    if moves != [] {
      var before := moves[..|moves| - 1];
      SameFares(t, u, net, from, before);
      SameFare(t, u, net, End(from, before), moves[|moves| - 1]);
    }
  }

  lemma {:induction false} SameTolls(t: Terrain, u: Terrain, nets: seq<NetSpec>, from: Cell, moves: seq<Move>)
    requires SameBoard(t, u)
    ensures WalkTolls(t, nets, from, moves) == WalkTolls(u, nets, from, moves)
  {
    if nets != [] {
      SameTolls(t, u, nets[..|nets| - 1], from, moves);
      SameFares(t, u, nets[|nets| - 1], from, moves);
    }
  }

  lemma OneMoreJoins(router: Router, nets: seq<NetSpec>, netId: int, present: real, history: seq<real>)
    requires router.gridMm > 0.0 && nets != []
    ensures var n := |nets| - 1;
            Joined(router.TerrainAmong(nets[..n], netId, present, history),
                   router.TerrainAmong(nets, netId, present, history), nets[n])
  {
    hide NodeIdx, PlaneIdx, TotalCells, PlaneCells, Inside, OnPlane;
    var n := |nets| - 1;
    AmongLooksUp(router, nets[..n], netId, present, history);
    AmongLooksUp(router, nets, netId, present, history);
    assert HaloRecords(nets)[..n] == HaloRecords(nets[..n]);
    assert ViaHaloRecords(nets)[..n] == ViaHaloRecords(nets[..n]);
    assert NewViaRecords(nets)[..n] == NewViaRecords(nets[..n]);
  }

  lemma EmptyBoard(router: Router, netId: int, present: real, history: seq<real>)
    requires router.gridMm > 0.0
    ensures var t := router.TerrainAmong([], netId, present, history);
            && (forall c :: t.halo(c) == 0) && (forall x, y :: t.viaHalo(x, y) == 0)
  {
    AmongLooksUp(router, [], netId, present, history);
    hide NodeIdx, PlaneIdx, Inside, OnPlane;
  }

  /** The price of a walk among other nets: its fare and what each of them charges. */
  lemma {:induction false} WalkAmong(router: Router, nets: seq<NetSpec>, netId: int, present: real, history: seq<real>,
                                     from: Cell,
                                     moves: seq<Move>)
    requires router.gridMm > 0.0
    ensures var t := router.TerrainAmong(nets, netId, present, history);
            WalkCost(t, from, moves) == WalkFare(t, from, moves) + WalkTolls(t, nets, from, moves)
  {
    hide Router.TerrainAmong, WalkCost, WalkToll, WalkFare;
    var u := router.TerrainAmong(nets, netId, present, history);
    if nets == [] {
      EmptyBoard(router, netId, present, history);
      ClearWalk(u, from, moves);
    } else {
      var n := |nets| - 1;
      var t := router.TerrainAmong(nets[..n], netId, present, history);
      WalkAmong(router, nets[..n], netId, present, history, from, moves);
      OneMoreJoins(router, nets, netId, present, history);
      JoinedCharges(t, u, nets[n], from, moves);
      SameFares(t, u, nets[n], from, moves);
      SameTolls(t, u, nets[..n], from, moves);
    }
  }

  // ---- Cheapest in tolls -------------------------------------------------------------------------

  ghost function Charged(t: Terrain, nets: seq<NetSpec>, from: Cell, moves: seq<Move>): real {
    WalkFare(t, from, moves) + WalkTolls(t, nets, from, moves)
  }

  /** A bridge found among other nets is cheapest in fares and tolls: no legal walk from joined copper or an earlier
      bridge to new copper is charged less. */
  lemma BridgeSavesTolls(router: Router, nets: seq<NetSpec>, netId: int, present: real, history: seq<real>,
                         copper: seq<CopperCell>,
                         joined: set<int>, grown: seq<Cell>, f: Found, moves: seq<Move>, s: Cell, others: seq<Move>)
    requires router.gridMm > 0.0 && f.Found?
    requires Joins(router.TerrainAmong(nets, netId, present, history), copper, joined, grown, router.CellCentre, f,
                   moves)
    requires s in AllSeeds(copper, joined, grown, router.CellCentre)
    requires var round := WithGoals(router.TerrainAmong(nets, netId, present, history), copper, joined);
             Walk(round, s, others) && End(s, others) in GoalCells(copper, joined)
    ensures var seeds, from := AllSeeds(copper, joined, grown, router.CellCentre), f.bridge.cells[0];
            var t := router.TerrainAmong(nets, netId, present, history);
            seeds[from].cost + Charged(t, nets, from, moves) <= seeds[s].cost + Charged(t, nets, s, others)
  {
    hide Router.TerrainAmong, Router.CellCentre, AllSeeds, Walk, Trail, WalkFare, WalkTolls, Terrain.Cost;
    var t := router.TerrainAmong(nets, netId, present, history);
    var round := WithGoals(t, copper, joined);
    TrailIsNotEmpty(round, f.bridge.cells, moves);
    var from := f.bridge.cells[0];
    var costs := Costs(AllSeeds(copper, joined, grown, router.CellCentre));
    assert costs[from] + WalkCost(round, from, moves) <= costs[s] + WalkCost(round, s, others);
    GoalsCostNothing(t, copper, joined, from, moves);
    GoalsCostNothing(t, copper, joined, s, others);
    WalkAmong(router, nets, netId, present, history, from, moves);
    WalkAmong(router, nets, netId, present, history, s, others);
  }

  lemma StepCostsTheSame(t: Terrain, u: Terrain, c: Cell, m: Move)
    requires u == t.(goals := u.goals)
    ensures u.Cost(c, m) == t.Cost(c, m)
  {
  }

  lemma {:induction false} GoalsCostNothing(t: Terrain, copper: seq<CopperCell>, joined: set<int>, from: Cell,
                                            moves: seq<Move>)
    ensures WalkCost(WithGoals(t, copper, joined), from, moves) == WalkCost(t, from, moves)
  {
    hide End, GoalCells;
    if moves != [] {
      var before := moves[..|moves| - 1];
      GoalsCostNothing(t, copper, joined, from, before);
      StepCostsTheSame(t, WithGoals(t, copper, joined), End(from, before), moves[|moves| - 1]);
    }
  }

  // ---- Where a step may go -----------------------------------------------------------------------

  /** A legal move leads from a cell to another exactly if the two are neighbours, the cell entered is a goal or
      usable, and no corner, column or other net's via stands against it. */
  lemma LegalNeighbours(t: Terrain, a: Cell, b: Cell)
    requires Inside(t.size, a)
    ensures (exists m :: t.Legal(a, m) && Target(a, m) == b) <==>
            && a != b && Step(a, b) && Inside(t.size, b)
            && (b in t.goals || Usable(t.owner(b), t.netId))
            && LawfulStep(t.owner, t.viaOwner, t.netId, a, b)
            && (a.l != b.l ==> t.newVia(b.x, b.y) <= 0)
  {
    if a != b && Step(a, b) {
      if a.l == b.l {
        EightNeighbours(b.x - a.x, b.y - a.y);
        var d: nat :| d < 8 && Dx(d) == b.x - a.x && Dy(d) == b.y - a.y && (d >= 4 <==> a.x != b.x && a.y != b.y);
        assert Target(a, Planar(d)) == b;
        forall m | t.Legal(a, m) && Target(a, m) == b
          ensures m == Planar(d)
        {
        }
      } else {
        assert Target(a, Via(b.l)) == b;
      }
    }
  }
}

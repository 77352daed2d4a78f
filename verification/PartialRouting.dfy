/** What "routed" leaves open: a net counts as routed once two of its islands are joined. When every island has
    cells this is exactly what it means, and a walled-off pad shows that it happens. */
module PartialRouting {
  import opened Grid
  import opened Bridging
  import opened BridgeSearch
  import opened NetCopper
  import opened Autoroute
  import opened CrowdedBoard
  import CopperIslands = Islands

  lemma {:induction false} FewIslands(order: seq<int>)
    ensures |Islands(order)| <= |order|
  {
    if order == [] {
      assert Islands(order) == {};
    } else {
      var n := |order| - 1;
      FewIslands(order[..n]);
      assert order == order[..n] + [order[n]];
      assert Islands(order) == Islands(order[..n]) + {order[n]};
    }
  }

  /** On the copper of a net whose islands were built from elements that all have cells, goals never run out:
      bridging reports success exactly for enough islands or for at least one bridge. */
  lemma SuccessMeansSome(elems: seq<CopperIslands.Elem>, islandOf: seq<nat>, count: nat, t: Terrain,
                         at: Cell -> (real, real),
                         net: NetSpec, order: seq<int>, ok: bool)
    requires |islandOf| == |elems| && CopperIslands.CopperIs(elems, islandOf, net.copper)
    requires forall e :: 0 <= e < |elems| ==> elems[e].raster != []
    requires net.requiredIslands == |CopperIslands.AnchoredIslands(elems, islandOf, count)|
    requires Routing(t, at, net, order, ok)
    ensures ok <==> |net.bridges| + 1 >= net.requiredIslands || net.bridges != []
  {
    hide Bridged, Stuck, GoalCells, Islands, CopperIslands.CopperIs, CopperIslands.AnchoredIslands;
    FewIslands(order);
    assert |order| == |net.bridges| + 1 by { OrderLength(t, at, net, order, ok); }
    if |net.bridges| + 1 < net.requiredIslands {
      CopperIslands.GoalsRemain(elems, islandOf, count, net.copper, Islands(order));
    }
  }

  lemma OrderLength(t: Terrain, at: Cell -> (real, real), net: NetSpec, order: seq<int>, ok: bool)
    requires Routing(t, at, net, order, ok)
    ensures |order| == |net.bridges| + 1
  {
    hide Stuck, GoalCells, Islands, BridgeJoins;
  }

  // ---- A pad behind a wall -------------------------------------------------------------------

  /** Four cells in a row, the third of them an obstacle; pads on the other three. */
  const ROW: Size := Size(4, 1, 1)
  const WALLED: seq<int> := [0, 0, -1, 0]

  function At(x: int): Cell {
    Cell(0, x, 0)
  }

  function RowCopper(): seq<CopperCell> {
    [CopperCell(At(0), 0, 0.0, 0.0, false), CopperCell(At(1), 1, 1.0, 0.0, false),
     CopperCell(At(3), 2, 3.0, 0.0, false)]
  }

  function RowNet(): NetSpec {
    NetSpec(1, 0.2, RowCopper(), 0, 3, [], [], [], [], [], [], false)
  }

  /** No net may use the third column, and only island 2 has its copper behind it. */
  ghost predicate Walled(owner: Cell -> int, copper: seq<CopperCell>) {
    && (forall c :: Inside(ROW, c) && Usable(owner(c), 1) ==> c.x != 2)
    && (forall i :: 0 <= i < |copper| ==> copper[i].island in {0, 1, 2} && PadPlace(copper[i]))
  }

  predicate PadPlace(cc: CopperCell) {
    if cc.island == 2 then cc.cell.x == 3 else cc.cell.x <= 1
  }

  /** A bridge that starts left of the wall never gets past it. */
  lemma {:induction false} StaysLeft(owner: Cell -> int, copper: seq<CopperCell>, viaOwner: (int, int) -> int,
                                     cells: seq<Cell>, k: nat)
    requires Walled(owner, copper) && Stepwise(ROW, cells) && Lawful(owner, viaOwner, 1, cells)
    requires cells[0].x <= 1 && k < |cells|
    ensures cells[k].x <= 2 && (k < |cells| - 1 ==> cells[k].x <= 1)
  {
    hide LawfulStep;
    if k > 0 {
      StaysLeft(owner, copper, viaOwner, cells, k - 1);
      assert Step(cells[k - 1], cells[k - 1 + 1]);
    }
  }

  ghost predicate LeftOf(cells: seq<Cell>) {
    forall c :: c in cells ==> c.x <= 1
  }

  /** So the pad behind the wall is never joined, and all bridges stay left of it. */
  lemma {:induction false} WallHolds(owner: Cell -> int, copper: seq<CopperCell>, viaOwner: (int, int) -> int,
                                     bridges: seq<Bridge>, order: seq<int>, k: nat)
    requires Walled(owner, copper) && ConnectsIn(copper, 0, bridges, order) && BridgesStepwise(ROW, bridges)
    requires BridgesLawful(owner, viaOwner, 1, bridges) && k <= |bridges|
    ensures 2 !in order[..k + 1] && LeftOf(GrownCells(bridges[..k]))
  {
    hide Hooks, GrownCells, LeftOf, BridgesLawful, BridgesStepwise, Walled;
    if k == 0 {
      assert order[..1] == [0] && bridges[..0] == [];
      NothingGrownYet();
    } else {
      WallHolds(owner, copper, viaOwner, bridges, order, k - 1);
      assert Hooks(copper, bridges, order, k - 1);
      BridgeStaysLeft(owner, copper, viaOwner, bridges, order, k - 1);
      assert order[..k + 1] == order[..k] + [order[k]];
      GrownStep(bridges, k);
      LeftTogether(GrownCells(bridges[..k - 1]), bridges[k - 1].cells);
    }
  }

  lemma NothingGrownYet()
    ensures LeftOf(GrownCells([]))
  {
  }

  lemma GrownStep(bridges: seq<Bridge>, k: nat)
    requires 0 < k <= |bridges|
    ensures GrownCells(bridges[..k]) == GrownCells(bridges[..k - 1]) + bridges[k - 1].cells
  {
    assert bridges[..k][..k - 1] == bridges[..k - 1];
  }

  lemma LeftTogether(a: seq<Cell>, b: seq<Cell>)
    requires LeftOf(a) && LeftOf(b)
    ensures LeftOf(a + b)
  {
  }

  /** One bridge from copper left of the wall. */
  lemma BridgeStaysLeft(owner: Cell -> int, copper: seq<CopperCell>, viaOwner: (int, int) -> int,
                        bridges: seq<Bridge>, order: seq<int>, k: nat)
    requires Walled(owner, copper) && k < |bridges| && |order| == |bridges| + 1 && Hooks(copper, bridges, order, k)
    requires BridgesStepwise(ROW, bridges) && BridgesLawful(owner, viaOwner, 1, bridges)
    requires 2 !in order[..k + 1] && LeftOf(GrownCells(bridges[..k]))
    ensures LeftOf(bridges[k].cells) && order[k + 1] in {0, 1}
  {
    hide Lawful, Stepwise, GrownCells;
    var cells := bridges[k].cells;
    assert Stepwise(ROW, cells) && Lawful(owner, viaOwner, 1, cells);
    var e :| 0 <= e < |copper| && copper[e].island == order[k + 1] && copper[e].cell == cells[|cells| - 1];
    assert PadPlace(copper[e]);
    StartsLeft(owner, copper, bridges, order, k);
    hide Walled, BridgesLawful, BridgesStepwise, Hooks;
    forall i | 0 <= i < |cells|
      ensures cells[i].x <= 2 && (i < |cells| - 1 ==> cells[i].x <= 1)
    {
      StaysLeft(owner, copper, viaOwner, cells, i);
    }
    assert cells[|cells| - 1].x <= 1;
  }

  lemma StartsLeft(owner: Cell -> int, copper: seq<CopperCell>, bridges: seq<Bridge>, order: seq<int>, k: nat)
    requires Walled(owner, copper) && k < |bridges| && |order| == |bridges| + 1 && Hooks(copper, bridges, order, k)
    requires 2 !in order[..k + 1] && LeftOf(GrownCells(bridges[..k]))
    ensures bridges[k].cells != [] && bridges[k].cells[0].x <= 1
  {
    hide GrownCells;
    var c := bridges[k].cells[0];
    if i :| 0 <= i < |copper| && copper[i].island in order[..k + 1] && copper[i].cell == c {
      assert PadPlace(copper[i]);
    }
  }

  lemma WallBlocks(c: Cell)
    requires Inside(ROW, c) && c.x == 2
    ensures CellsOf(ROW, WALLED, 0)(c) == -1
  {
    assert NodeIdx(ROW, c) == 2;
  }

  lemma PadPlaces()
    ensures forall i :: 0 <= i < |RowCopper()| ==> RowCopper()[i].island in {0, 1, 2} && PadPlace(RowCopper()[i])
  {
  }

  lemma RowIsWalled()
    ensures Walled(CellsOf(ROW, WALLED, 0), RowCopper())
  {
    PadPlaces();
    hide RowCopper, CellsOf, PadPlace;
    forall c | Inside(ROW, c) && Usable(CellsOf(ROW, WALLED, 0)(c), 1)
      ensures c.x != 2
    {
      if c.x == 2 {
        WallBlocks(c);
      }
    }
  }

  lemma RowSeeds(at: Cell -> (real, real))
    ensures At(0) in Costs(AllSeeds(RowCopper(), {0}, [], at)) && At(1) in GoalCells(RowCopper(), {0})
  {
    var copper, goals := RowCopper(), GoalCells(RowCopper(), {0});
    assert copper[1].cell in goals;
    var one, two := copper[..1], copper[..2];
    assert one[..0] == [] && one[0] == copper[0];
    var none := CopperSeeds(one[..0], {0}, goals);
    var first := CopperSeeds(one, {0}, goals);
    assert first == AddSeed(none, goals, At(0), Seed(0.0, 0.0, 0.0));
    assert two[..1] == one && two[1] == copper[1] && copper[..3] == copper;
    assert CopperSeeds(two, {0}, goals) == first;
    assert CopperSeeds(copper, {0}, goals) == first;
  }

  lemma RowStarts(t: Terrain, at: Cell -> (real, real), order: seq<int>)
    requires OpenStep(t, At(0), At(1), 0)
    ensures !Unreachable(WithGoals(t, RowCopper(), {0}), Costs(AllSeeds(RowCopper(), {0}, [], at)))
  {
    RowSeeds(at);
    var round := WithGoals(t, RowCopper(), {0});
    SameStep(t, round, At(0), At(1), 0);
    OpenStepCost(round, At(0), At(1), 0);
    hide OpenStep, Walk, End, AllSeeds, GoalCells;
  }

  /** Bridging the row succeeds with at least one bridge. */
  lemma RowSucceeds(t: Terrain, at: Cell -> (real, real), net: NetSpec, order: seq<int>, ok: bool)
    requires Routing(t, at, net, order, ok) && SameNet(RowNet(), net) && OpenStep(t, At(0), At(1), 0)
    ensures ok && 1 <= |net.bridges| <= 2
  {
    hide OpenStep, Unreachable, AllSeeds, CheapestBridge, BridgeJoins;
    RowStarts(t, at, order);
    assert net.bridges == [] ==> order == [0];
    assert Islands([0]) == {0};
    assert GrownCells([]) == [];
    assert net.bridges != [];
    if |net.bridges| == 1 {
      RowGoalLeft(order);
    }
  }

  /** Two islands joined leave a third one as a goal. */
  lemma RowGoalLeft(order: seq<int>)
    requires |order| == 2
    ensures GoalCells(RowCopper(), Islands(order)) != {}
  {
    var joined := Islands(order);
    FewIslands(order);
    if {0, 1, 2} <= joined {
      SubsetSize({0, 1, 2}, joined);
    }
    var copper := RowCopper();
    if 0 !in joined {
      assert copper[0].cell in GoalCells(copper, joined);
    } else if 1 !in joined {
      assert copper[1].cell in GoalCells(copper, joined);
    } else {
      assert copper[2].cell in GoalCells(copper, joined);
    }
  }

  /** The pad behind the wall stays out: at most one bridge. */
  lemma RowStopsShort(owner: Cell -> int, copper: seq<CopperCell>, viaOwner: (int, int) -> int, bridges: seq<Bridge>)
    requires Walled(owner, copper) && Connects(copper, 0, bridges) && BridgesStepwise(ROW, bridges)
    requires BridgesLawful(owner, viaOwner, 1, bridges)
    ensures |bridges| <= 1
  {
    hide BridgesLawful, BridgesStepwise, GrownCells, Hooks, LeftOf, Walled;
    var order :| ConnectsIn(copper, 0, bridges, order);
    WallHolds(owner, copper, viaOwner, bridges, order, |bridges|);
    assert order[..|bridges| + 1] == order;
    forall x | x in order
      ensures x in {0, 1}
    {
      var k :| 0 <= k < |order| && order[k] == x;
      if k > 0 {
        JoinedIsPad(owner, copper, bridges, order, k - 1);
      }
    }
    DistinctElements(order);
    SubsetSize(Elements(order), {0, 1});
  }

  lemma JoinedIsPad(owner: Cell -> int, copper: seq<CopperCell>, bridges: seq<Bridge>, order: seq<int>, k: nat)
    requires Walled(owner, copper) && ConnectsIn(copper, 0, bridges, order) && k < |bridges|
    ensures order[k + 1] in {0, 1, 2}
  {
    hide GrownCells;
    assert Hooks(copper, bridges, order, k);
    var e :| 0 <= e < |copper| && copper[e].island == order[k + 1] &&
        copper[e].cell == bridges[k].cells[|bridges[k].cells| - 1];
    assert PadPlace(copper[e]);
  }

  /** A run that reports its only net as routed, although one of the three islands the net must join is left out. */
  method WalledPad(sqrt: real -> real) returns (router: Router, allRouted: bool)
    requires forall v: real :: v >= 0.0 ==> sqrt(v) >= 0.0 && sqrt(v) * sqrt(v) == v
    ensures router.Valid() && |router.nets| == 1 && SameNet(RowNet(), router.nets[0])
    ensures allRouted && router.nets[0].routed && router.nets[0].requiredIslands == 3 && |router.nets[0].bridges| == 1
  {
    hide Router.Valid, Router.PassDone, Router.PassRun, Router.Disturbed;
    router := new Router(ROW, 0.25, (0.0, 0.0), 0.2, 0.2, 0.6, sqrt, WALLED, [0, 0, 0, 0], [RowNet()]);
    SeparateBuffers(router);
    NothingRouted(router);
    var congested, routed := router.Assess();
    var order;
    ghost var found;
    order, found := router.RoutePass([0], 0);
    router.FirstPassRun([RowNet()], found, router.nets, [0], order, router.historyCost[..]);
    WalledPadLeft(router);
    congested, allRouted := router.Assess();
  }

  lemma SeparateBuffers(router: Router)
    requires router.Valid()
    ensures router.gridMm > 0.0 && router.Separate()
  {
  }

  lemma WalledPadLeft(router: Router)
    requires router.Valid() && router.size == ROW && router.cellOwner == WALLED && router.gridMm > 0.0
    requires forall i :: 0 <= i < router.historyCost.Length ==> router.historyCost[i] == 1.0
    requires router.PassDone([RowNet()], router.nets, [0], 1.0, router.historyCost[..])
    ensures |router.nets| == 1 && SameNet(RowNet(), router.nets[0])
    ensures router.nets[0].routed && |router.nets[0].bridges| == 1
  {
    hide Routing, Router.TerrainAmong, Router.CellCentre, NodeIdx, Inside, BridgesLawful, Connects, Recorded;
    var net := router.nets[0];
    assert SameNet([RowNet()][0], net);
    assert router.Outcome([RowNet()], router.nets, [0], 0, 1.0, router.historyCost[..]);
    assert [0][..0] == [];
    assert router.Midway([RowNet()], router.nets, []) == [RowNet()];
    var order :| Routing(router.TerrainAmong([RowNet()], 1, 1.0, router.historyCost[..]), router.CellCentre, net,
                         order, net.routed);
    RowIsOpen(router);
    RowSucceeds(router.TerrainAmong([RowNet()], 1, 1.0, router.historyCost[..]), router.CellCentre, net, order,
                net.routed);
    assert router.NetOk(net);
    RowIsWalled();
    RowStopsShort(router.OwnerAt(), RowCopper(), router.ViaOwnerAt(), net.bridges);
  }

  lemma RowIsOpen(router: Router)
    requires router.size == ROW && router.gridMm > 0.0
    requires forall i :: 0 <= i < router.historyCost.Length ==> router.historyCost[i] == 1.0
    ensures OpenStep(router.TerrainAmong([RowNet()], 1, 1.0, router.historyCost[..]), At(0), At(1), 0)
  {
    hide Router.TerrainAmong, NodeIdx;
    AmongIsValid(router, [RowNet()], 1, 1.0, RowCopper());
    AmongOwner(router, [RowNet()], 1, 1.0);
    NoHalo(router, [RowNet()], 1, 1.0, At(1));
  }
}

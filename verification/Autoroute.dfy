/** The negotiated-congestion router: bridging one net, committing its copper to the counters, ripping it up,
    and the passes that do so until nothing violates clearance. */
module Autoroute {
  import opened Basics
  import opened Grid
  import opened Bridging
  import opened SearchProof
  import opened SearchBuffers
  import opened BridgeSearch
  import opened Counters
  import opened Discs
  import opened NetCopper

  datatype NetSpec = NetSpec(
    id: int,
    widthMm: real,
    copper: seq<CopperCell>,
    startIsland: int,
    requiredIslands: int,
    bridges: seq<Bridge>,
    centerCells: seq<int>,
    viaSites2D: seq<int>,
    haloCells: seq<int>,
    viaHalo2D: seq<int>,
    newVia2D: seq<int>,
    routed: bool)

  /** What routing and ripping up never change of a net. */
  predicate SameNet(a: NetSpec, b: NetSpec) {
    && a.id == b.id && a.widthMm == b.widthMm && a.copper == b.copper
    && a.startIsland == b.startIsland && a.requiredIslands == b.requiredIslands
  }

  predicate SameNets(a: seq<NetSpec>, b: seq<NetSpec>) {
    |a| == |b| && forall k :: 0 <= k < |a| ==> SameNet(a[k], b[k])
  }

  function HaloRecords(nets: seq<NetSpec>): seq<Record> {
    seq(|nets|, k requires 0 <= k < |nets| => nets[k].haloCells)
  }

  function ViaHaloRecords(nets: seq<NetSpec>): seq<Record> {
    seq(|nets|, k requires 0 <= k < |nets| => nets[k].viaHalo2D)
  }

  function NewViaRecords(nets: seq<NetSpec>): seq<Record> {
    seq(|nets|, k requires 0 <= k < |nets| => nets[k].newVia2D)
  }

  // ---- Geometry of a bridge ----------------------------------------------------------------

  /** Neighbouring cells of a bridge: one of the eight planar steps, or a layer change in place. */
  predicate Step(a: Cell, b: Cell) {
    if a.l == b.l then -1 <= a.x - b.x <= 1 && -1 <= a.y - b.y <= 1 else a.x == b.x && a.y == b.y
  }

  ghost predicate Stepwise(size: Size, cells: seq<Cell>) {
    && cells != []
    && (forall k :: 0 <= k < |cells| ==> Inside(size, cells[k]))
    && forall k :: 0 <= k < |cells| - 1 ==> Step(cells[k], cells[k + 1])
  }

  /** A slot of an ownership grid that net `netId` may use: nobody's or its own. */
  predicate Usable(owner: int, netId: int) {
    owner == 0 || owner == netId
  }

  /** A diagonal step cuts no corner of foreign copper, and a layer change happens where a via of the net may be. */
  predicate LawfulStep(owner: Cell -> int, viaOwner: (int, int) -> int, netId: int, a: Cell, b: Cell) {
    if a.l != b.l then Usable(viaOwner(b.x, b.y), netId)
    else a.x != b.x && a.y != b.y ==>
           Usable(owner(Cell(a.l, a.x, b.y)), netId) && Usable(owner(Cell(a.l, b.x, a.y)), netId)
  }

  /** What stays true of a bridge after its search: it repeats no cell, lies on nobody else's copper between its
      two ends, and takes lawful steps only. */
  ghost predicate Lawful(owner: Cell -> int, viaOwner: (int, int) -> int, netId: int, cells: seq<Cell>) {
    && Distinct(cells)
    && (forall k :: 1 <= k < |cells| - 1 ==> Usable(owner(cells[k]), netId))
    && forall k :: 0 <= k < |cells| - 1 ==> LawfulStep(owner, viaOwner, netId, cells[k], cells[k + 1])
  }

  ghost predicate BridgesLawful(owner: Cell -> int, viaOwner: (int, int) -> int, netId: int, bridges: seq<Bridge>) {
    forall b :: 0 <= b < |bridges| ==> Lawful(owner, viaOwner, netId, bridges[b].cells)
  }

  /** A routed net joined some of its islands: all that are required, or at least two of them. */
  predicate JoinedSome(net: NetSpec) {
    && (net.bridges == [] ==> net.requiredIslands <= 1)
    && (net.bridges != [] ==> |net.bridges| + 1 <= net.requiredIslands)
  }

  /** A net with nothing on the counters. */
  predicate Blank(net: NetSpec) {
    net.haloCells == [] && net.viaHalo2D == [] && net.newVia2D == [] && net.centerCells == [] && net.viaSites2D == []
  }

  function ListsOf(net: NetSpec): Lists {
    Lists(net.haloCells, net.viaHalo2D, net.newVia2D, net.centerCells, net.viaSites2D)
  }

  /** A routed net's lists are exactly what its bridges cover. */
  ghost predicate Committed(size: Size, g: real, radii: Radii, net: NetSpec) {
    var sites := AllSites(net.bridges);
    && (forall b :: 0 <= b < |net.bridges| ==> Stepwise(size, net.bridges[b].cells))
    && SitesInside(size, sites)
    && Recorded(size, g, radii, sites, ListsOf(net))
  }

  // ---- A whole net's bridging --------------------------------------------------------------

  function GrownCells(bridges: seq<Bridge>): seq<Cell> {
    if bridges == [] then [] else GrownCells(bridges[..|bridges| - 1]) + bridges[|bridges| - 1].cells
  }

  function Islands(order: seq<int>): set<int> {
    set i | i in order
  }

  /** Bridge `k` is a cheapest bridge from everything joined before it to the copper of island `order[k + 1]`. */
  ghost predicate BridgeJoins(t: Terrain, copper: seq<CopperCell>, at: Cell -> (real, real),
                              bridges: seq<Bridge>, order: seq<int>, k: nat)
    requires k < |bridges| && |order| == |bridges| + 1
  {
    exists i: nat :: JoinsThrough(t, copper, at, bridges, order, k, i)
  }

  ghost predicate JoinsThrough(t: Terrain, copper: seq<CopperCell>, at: Cell -> (real, real),
                               bridges: seq<Bridge>, order: seq<int>, k: nat, i: nat)
    requires k < |bridges| && |order| == |bridges| + 1
  {
    && i < |copper| && copper[i].island == order[k + 1]
    && JoinsSomehow(t, copper, Islands(order[..k + 1]), GrownCells(bridges[..k]), at, Found(bridges[k], i))
  }

  ghost predicate JoinsSomehow(t: Terrain, copper: seq<CopperCell>, joined: set<int>, grown: seq<Cell>,
                               at: Cell -> (real, real), f: Found)
    requires f.Found?
  {
    exists moves :: Joins(t, copper, joined, grown, at, f, moves)
  }

  /** `k` bridges join exactly `k + 1` different islands, one new island each. */
  ghost predicate Bridged(t: Terrain, copper: seq<CopperCell>, at: Cell -> (real, real), start: int,
                          bridges: seq<Bridge>, order: seq<int>) {
    && |order| == |bridges| + 1 && order[0] == start
    && Distinct(order)
    && forall k :: 0 <= k < |bridges| ==> BridgeJoins(t, copper, at, bridges, order, k)
  }

  ghost predicate Stuck(t: Terrain, copper: seq<CopperCell>, at: Cell -> (real, real),
                        bridges: seq<Bridge>, order: seq<int>) {
    Unreachable(WithGoals(t, copper, Islands(order)), Costs(AllSeeds(copper, Islands(order), GrownCells(bridges), at)))
  }

  /** How bridging a net on a terrain ends: enough islands are joined or no further bridge exists; success is
      reported for enough islands, and for some while goals remained. */
  ghost predicate Routing(t: Terrain, at: Cell -> (real, real), net: NetSpec, order: seq<int>, ok: bool) {
    && Bridged(t, net.copper, at, net.startIsland, net.bridges, order)
    && (|net.bridges| + 1 >= net.requiredIslands || Stuck(t, net.copper, at, net.bridges, order))
    && (ok <==> || |net.bridges| + 1 >= net.requiredIslands
                || (net.bridges != [] && GoalCells(net.copper, Islands(order)) != {}))
    && (net.bridges != [] ==> |net.bridges| + 1 <= net.requiredIslands)
  }

  lemma RoutedJoinsSome(t: Terrain, at: Cell -> (real, real), net: NetSpec, order: seq<int>)
    requires Routing(t, at, net, order, true)
    ensures Bridged(t, net.copper, at, net.startIsland, net.bridges, order) && JoinedSome(net)
  {
    hide Bridged, Stuck, GoalCells, Islands;
  }

  lemma BridgedExtends(t: Terrain, copper: seq<CopperCell>, at: Cell -> (real, real), start: int,
                       bridges: seq<Bridge>, order: seq<int>, f: Found, moves: seq<Move>)
    requires Bridged(t, copper, at, start, bridges, order) && f.Found?
    requires Joins(t, copper, Islands(order), GrownCells(bridges), at, f, moves)
    ensures f.copperIdx < |copper|
    ensures Bridged(t, copper, at, start, bridges + [f.bridge], order + [copper[f.copperIdx].island])
  {
    hide AllSeeds, WithGoals, CheapestBridge;
    assert f.copperIdx < |copper|;
    var bridges' := bridges + [f.bridge];
    var order' := order + [copper[f.copperIdx].island];
    assert order'[..|order|] == order && bridges'[..|bridges|] == bridges;
    hide Joins;
    assert BridgeJoins(t, copper, at, bridges', order', |bridges|) by {
      assert Found(bridges'[|bridges|], f.copperIdx) == f;
      assert JoinsSomehow(t, copper, Islands(order), GrownCells(bridges), at, f);
      assert JoinsThrough(t, copper, at, bridges', order', |bridges|, f.copperIdx);
    }
    forall k | 0 <= k < |bridges|
      ensures BridgeJoins(t, copper, at, bridges', order', k)
    {
      assert BridgeJoins(t, copper, at, bridges, order, k);
      var i: nat :| JoinsThrough(t, copper, at, bridges, order, k, i);
      assert order'[..k + 1] == order[..k + 1] && bridges'[..k] == bridges[..k];
      assert JoinsThrough(t, copper, at, bridges', order', k, i);
    }
  }

  // ---- What a routed net's bridges connect ---------------------------------------------------

  /** Bridge `k` leaves copper joined before it and ends on the copper of the new island `order[k + 1]`. */
  ghost predicate Hooks(copper: seq<CopperCell>, bridges: seq<Bridge>, order: seq<int>, k: nat)
    requires k < |bridges| && |order| == |bridges| + 1
  {
    var cells := bridges[k].cells;
    && cells != []
    && ((exists i :: 0 <= i < |copper| && copper[i].island in order[..k + 1] && copper[i].cell == cells[0])
        || cells[0] in GrownCells(bridges[..k]))
    && exists i :: 0 <= i < |copper| && copper[i].island == order[k + 1] && copper[i].cell == cells[|cells| - 1]
  }

  ghost predicate ConnectsIn(copper: seq<CopperCell>, start: int, bridges: seq<Bridge>, order: seq<int>) {
    && |order| == |bridges| + 1 && order[0] == start
    && Distinct(order)
    && forall k :: 0 <= k < |bridges| ==> Hooks(copper, bridges, order, k)
  }

  /** `k` bridges hold exactly `k + 1` islands together. */
  ghost predicate Connects(copper: seq<CopperCell>, start: int, bridges: seq<Bridge>) {
    exists order :: ConnectsIn(copper, start, bridges, order)
  }

  lemma BridgedConnects(t: Terrain, copper: seq<CopperCell>, at: Cell -> (real, real), start: int,
                        bridges: seq<Bridge>, order: seq<int>)
    requires Bridged(t, copper, at, start, bridges, order)
    ensures Connects(copper, start, bridges)
  {
    hide GoalCells, CopperSeeds, GrownSeeds, GrownCells, Hooks;
    forall k | 0 <= k < |bridges|
      ensures Hooks(copper, bridges, order, k)
    {
      assert BridgeJoins(t, copper, at, bridges, order, k);
      var i: nat :| JoinsThrough(t, copper, at, bridges, order, k, i);
      BridgeHooks(t, copper, at, bridges, order, k, i);
    }
    assert ConnectsIn(copper, start, bridges, order);
  }

  lemma BridgeHooks(t: Terrain, copper: seq<CopperCell>, at: Cell -> (real, real),
                    bridges: seq<Bridge>, order: seq<int>, k: nat, i: nat)
    requires k < |bridges| && |order| == |bridges| + 1 && JoinsThrough(t, copper, at, bridges, order, k, i)
    ensures Hooks(copper, bridges, order, k)
  {
    hide GoalCells, CopperSeeds, GrownSeeds, GrownCells, Trail;
    var joined := Islands(order[..k + 1]);
    var grown := GrownCells(bridges[..k]);
    var moves :| Joins(t, copper, joined, grown, at, Found(bridges[k], i), moves);
    var goals := GoalCells(copper, joined);
    CopperSeedsAreJoined(copper, joined, goals);
    GrownSeedsAreGrown(CopperSeeds(copper, joined, goals), goals, grown, at);
    TrailIsNotEmpty(WithGoals(t, copper, joined), bridges[k].cells, moves);
    assert bridges[k].cells[0] in AllSeeds(copper, joined, grown, at);
  }

  lemma TrailIsNotEmpty(t: Terrain, cells: seq<Cell>, moves: seq<Move>)
    requires Trail(t, cells, moves)
    ensures cells != []
  {
  }

  ghost predicate BridgesStepwise(size: Size, bridges: seq<Bridge>) {
    forall b :: 0 <= b < |bridges| ==> Stepwise(size, bridges[b].cells)
  }

  lemma StepwiseInside(size: Size, cells: seq<Cell>)
    requires Stepwise(size, cells)
    ensures forall c :: c in cells ==> Inside(size, c)
  {
  }

  lemma NothingBridged(t: Terrain, copper: seq<CopperCell>, at: Cell -> (real, real), start: int)
    ensures Bridged(t, copper, at, start, [], [start])
  {
  }

  lemma NothingGrown(size: Size, start: int)
    ensures GrownCells([]) == [] && BridgesStepwise(size, []) && Islands([start]) == {start}
  {
  }

  lemma NothingUnlawful(t: Terrain)
    ensures BridgesLawful(t.owner, t.viaOwner, t.netId, [])
  {
  }

  lemma NotFoundIsStuck(t: Terrain, copper: seq<CopperCell>, at: Cell -> (real, real),
                        bridges: seq<Bridge>, order: seq<int>, f: Found)
    requires f.NoGoal? ==> GoalCells(copper, Islands(order)) == {}
    requires f.NoBridge? ==> Unreachable(WithGoals(t, copper, Islands(order)),
                                         Costs(AllSeeds(copper, Islands(order), GrownCells(bridges), at)))
    requires !f.Found?
    ensures Stuck(t, copper, at, bridges, order)
  {
    hide GoalCells, AllSeeds;
  }

  lemma FoundIsStepwise(t: Terrain, copper: seq<CopperCell>, joined: set<int>, grown: seq<Cell>,
                        at: Cell -> (real, real), f: Found, moves: seq<Move>)
    requires f.Found? && Joins(t, copper, joined, grown, at, f, moves)
    requires forall i :: 0 <= i < |copper| ==> Inside(t.size, copper[i].cell)
    requires forall c :: c in grown ==> Inside(t.size, c)
    ensures Stepwise(t.size, f.bridge.cells) && f.copperIdx < |copper|
  {
    SeedsInside(t.size, copper, joined, grown, at);
    hide AllSeeds, Stepwise;
    TrailIsStepwise(WithGoals(t, copper, joined), f.bridge.cells, moves);
  }

  /** A bridge the search returns is lawful on the terrain it searched. */
  lemma CheapestIsLawful(t: Terrain, seeds: map<Cell, real>, cells: seq<Cell>, moves: seq<Move>)
    requires CheapestBridge(t, seeds, cells, moves)
    ensures Lawful(t.owner, t.viaOwner, t.netId, cells)
  {
    hide Walk, WalkCost, End;
    forall k | 0 <= k < |cells| - 1
      ensures LawfulStep(t.owner, t.viaOwner, t.netId, cells[k], cells[k + 1])
    {
      assert t.Legal(cells[k], moves[k]) && cells[k + 1] == Target(cells[k], moves[k]);
    }
  }

  lemma FoundIsLawful(t: Terrain, copper: seq<CopperCell>, joined: set<int>, grown: seq<Cell>,
                      at: Cell -> (real, real), f: Found, moves: seq<Move>)
    requires f.Found? && Joins(t, copper, joined, grown, at, f, moves)
    ensures Lawful(t.owner, t.viaOwner, t.netId, f.bridge.cells)
  {
    hide CheapestBridge, AllSeeds, GoalCells, Lawful;
    CheapestIsLawful(WithGoals(t, copper, joined), Costs(AllSeeds(copper, joined, grown, at)), f.bridge.cells, moves);
  }

  /** One more bridge keeps everything the bridging loop relies on. */
  lemma BridgeAdded(t: Terrain, copper: seq<CopperCell>, at: Cell -> (real, real), start: int, bridges: seq<Bridge>,
                    order: seq<int>, f: Found, moves: seq<Move>)
    requires f.Found? && Joins(t, copper, Islands(order), GrownCells(bridges), at, f, moves)
    requires Bridged(t, copper, at, start, bridges, order) && BridgesStepwise(t.size, bridges)
    requires BridgesLawful(t.owner, t.viaOwner, t.netId, bridges)
    requires forall i :: 0 <= i < |copper| ==> Inside(t.size, copper[i].cell)
    requires forall c :: c in GrownCells(bridges) ==> Inside(t.size, c)
    ensures f.copperIdx < |copper|
    ensures var bridges', order' := bridges + [f.bridge], order + [copper[f.copperIdx].island];
            && Bridged(t, copper, at, start, bridges', order') && BridgesStepwise(t.size, bridges')
            && BridgesLawful(t.owner, t.viaOwner, t.netId, bridges')
            && GrownCells(bridges') == GrownCells(bridges) + f.bridge.cells
            && Islands(order') == Islands(order) + {copper[f.copperIdx].island}
            && forall c :: c in GrownCells(bridges') ==> Inside(t.size, c)
  {
    BridgedExtends(t, copper, at, start, bridges, order, f, moves);
    FoundIsStepwise(t, copper, Islands(order), GrownCells(bridges), at, f, moves);
    FoundIsLawful(t, copper, Islands(order), GrownCells(bridges), at, f, moves);
    hide Joins, Bridged, Inside, Lawful;
    StepwiseInside(t.size, f.bridge.cells);
    assert (bridges + [f.bridge])[..|bridges|] == bridges;
    hide Stepwise, GrownCells;
  }

  /** Legal moves are geometric steps and stay on the grid. */
  lemma {:induction false} TrailIsStepwise(t: Terrain, cells: seq<Cell>, moves: seq<Move>)
    requires Trail(t, cells, moves) && Inside(t.size, cells[0])
    ensures Stepwise(t.size, cells)
  {
    if moves != [] {
      var n := |moves|;
      assert t.Legal(cells[n - 1], moves[n - 1]) && cells[n - 1 + 1] == Target(cells[n - 1], moves[n - 1]);
      TrailIsStepwise(t, cells[..n], moves[..n - 1]);
      assert cells == cells[..n] + [cells[n]];
      forall k | 0 <= k < |cells| - 1
        ensures Step(cells[k], cells[k + 1])
      {
        if k < n - 1 {
          assert Step(cells[..n][k], cells[..n][k + 1]);
        }
      }
    }
  }

  // ---- The router --------------------------------------------------------------------------

  /** A flat array read as a function of cells; outside the grid it is `other`. */
  function CellsOf<T>(size: Size, a: seq<T>, other: T): Cell -> T {
    c => if Inside(size, c) && 0 <= NodeIdx(size, c) < |a| then a[NodeIdx(size, c)] else other
  }

  function PlaneOf<T>(size: Size, a: seq<T>, other: T): (int, int) -> T {
    (x, y) => if OnPlane(size, x, y) && 0 <= PlaneIdx(size, x, y) < |a| then a[PlaneIdx(size, x, y)] else other
  }

  lemma SquareNonNegative(x: real)
    ensures x * x >= 0.0
  {
  }

  /** One turn of the pass loop: the nets and history it began with, what it found after ripping up, its order and
      the nets it ended with. */
  datatype Turn = Turn(begun: seq<NetSpec>, history: seq<real>, found: seq<NetSpec>, order: seq<nat>,
                       ended: seq<NetSpec>)

  class Router {
    const size: Size
    const gridMm: real
    const originX: real
    const originY: real
    const trackWidthMm: real
    const clearanceMm: real
    const viaSizeMm: real
    const sqrt: real -> real
    const cellOwner: seq<int>
    const viaOwner: seq<int>
    const historyCost: array<real>
    const halo: CoverCounter
    const viaHalo: CoverCounter
    const newVia: CoverCounter
    const buf: Buffers
    var nets: seq<NetSpec>

    // -- Parameters

    /** Half a cell diagonal, squared: h * h == g * g / 2. */
    function HalfDiag2(): real {
      0.5 * (gridMm * gridMm)
    }

    function Slack1(r: real): real {
      sqrt(r * r + HalfDiag2())
    }

    function Slack2(r: real): real {
      sqrt(r * r + 2.0 * HalfDiag2())
    }

    function RadiiFor(width: real): Radii {
      Radii(Slack2(TrackReach(width)), Slack1(ViaReach(width)), Slack1(ViaReach(trackWidthMm)), ViaPitch())
    }

    /** Centre line to centre line, from a track of this width to one of the default width. */
    function TrackReach(width: real): real {
      0.5 * (width + trackWidthMm) + clearanceMm
    }

    /** Centre line to via centre, for a track of this width. */
    function ViaReach(width: real): real {
      0.5 * (width + viaSizeMm) + clearanceMm
    }

    function ViaPitch(): real {
      viaSizeMm + clearanceMm
    }

    function ViaCostSteps(): real
      requires gridMm > 0.0
    {
      if 1.25 / gridMm > 2.0 then 1.25 / gridMm else 2.0
    }

    function CellCentre(c: Cell): (real, real) {
      (originX + c.x as real * gridMm, originY + c.y as real * gridMm)
    }

    ghost predicate Parameters() {
      && size.layers <= MAX_LAYERS && size.w > 0 && size.h > 0 && gridMm > EPSILON
      && trackWidthMm >= 0.0 && clearanceMm >= 0.0 && viaSizeMm >= 0.0
      && forall v: real :: v >= 0.0 ==> sqrt(v) >= 0.0 && sqrt(v) * sqrt(v) == v
    }

    // -- State

    ghost predicate Separate() {
      && halo.Arrays() !! viaHalo.Arrays() !! newVia.Arrays() !! buf.Arrays() !! {historyCost as object}
      && halo != viaHalo && halo != newVia && viaHalo != newVia
      && |cellOwner| == TotalCells(size) && historyCost.Length == TotalCells(size)
      && |viaOwner| == PlaneCells(size)
      && halo.count.Length == TotalCells(size)
      && viaHalo.count.Length == PlaneCells(size) && newVia.count.Length == PlaneCells(size)
      && buf.size == size
    }

    ghost predicate Counted(nets: seq<NetSpec>)
      reads halo, halo.Arrays(), viaHalo, viaHalo.Arrays(), newVia, newVia.Arrays()
    {
      && halo.Valid(HaloRecords(nets)) && viaHalo.Valid(ViaHaloRecords(nets)) && newVia.Valid(NewViaRecords(nets))
    }

    ghost predicate HistoryGrows()
      reads historyCost
    {
      forall i :: 0 <= i < historyCost.Length ==> historyCost[i] >= 1.0
    }

    ghost predicate NetOk(net: NetSpec)
    {
      && net.widthMm >= 0.0
      && (forall i :: 0 <= i < |net.copper| ==> Inside(size, net.copper[i].cell))
      && (if net.routed
          then && Committed(size, gridMm, RadiiFor(net.widthMm), net)
               && Connects(net.copper, net.startIsland, net.bridges) && JoinedSome(net)
               && BridgesLawful(OwnerAt(), ViaOwnerAt(), net.id, net.bridges)
               && Ascending(net.centerCells) && Ascending(net.viaSites2D)
          else Blank(net))
    }

    ghost predicate NetsOk(nets: seq<NetSpec>) {
      forall k :: 0 <= k < |nets| ==> NetOk(nets[k])
    }

    /** The bookkeeping invariant of the whole run: every counter is the number of nets whose recorded list
        holds the cell, and every recorded list is what the net's bridges cover. */
    ghost predicate Valid()
      reads this, halo, halo.Arrays(), viaHalo, viaHalo.Arrays(), newVia, newVia.Arrays(), buf, buf.Arrays(),
            historyCost
    {
      Parameters() && Separate() && buf.Valid() && Counted(nets) && HistoryGrows() && NetsOk(nets)
    }

    constructor (size: Size, gridMm: real, origin: (real, real), trackWidthMm: real, clearanceMm: real,
                 viaSizeMm: real, sqrt: real -> real, cellOwner: seq<int>, viaOwner: seq<int>, nets: seq<NetSpec>)
      requires size.layers <= MAX_LAYERS && size.w > 0 && size.h > 0 && gridMm > EPSILON
      requires trackWidthMm >= 0.0 && clearanceMm >= 0.0 && viaSizeMm >= 0.0
      requires forall v: real :: v >= 0.0 ==> sqrt(v) >= 0.0 && sqrt(v) * sqrt(v) == v
      requires |cellOwner| == TotalCells(size) && |viaOwner| == PlaneCells(size)
      requires |nets| < 65536
      requires forall k :: 0 <= k < |nets| ==>
                 && !nets[k].routed && Blank(nets[k]) && nets[k].bridges == [] && nets[k].widthMm >= 0.0
                 && forall i :: 0 <= i < |nets[k].copper| ==> Inside(size, nets[k].copper[i].cell)
      ensures Valid() && this.nets == nets
      ensures this.size == size && this.gridMm == gridMm && this.trackWidthMm == trackWidthMm
      ensures this.clearanceMm == clearanceMm
      ensures this.viaSizeMm == viaSizeMm && this.sqrt == sqrt && this.cellOwner == cellOwner
      ensures this.viaOwner == viaOwner
      ensures forall i :: 0 <= i < historyCost.Length ==> historyCost[i] == 1.0
      ensures fresh(halo) && fresh(viaHalo) && fresh(newVia) && fresh(buf) && fresh(historyCost)
      ensures fresh(halo.Arrays()) && fresh(viaHalo.Arrays()) && fresh(newVia.Arrays()) && fresh(buf.Arrays())
    {
      hide CoverCounter.Valid, Buffers.Valid, TotalCells, PlaneCells, Inside, NetsOk, HaloRecords, ViaHaloRecords,
        NewViaRecords, Parameters, Blank, Counted, HistoryGrows, NoRecords;
      this.size, this.gridMm := size, gridMm;
      this.originX, this.originY := origin.0, origin.1;
      this.trackWidthMm, this.clearanceMm, this.viaSizeMm := trackWidthMm, clearanceMm, viaSizeMm;
      this.sqrt, this.cellOwner, this.viaOwner, this.nets := sqrt, cellOwner, viaOwner, nets;
      var costs := new real[TotalCells(size)](_ => 1.0);
      historyCost := costs;
      var c0 := new CoverCounter(TotalCells(size), |nets|);
      ghost var used := c0.Arrays();
      var c1 := new CoverCounter(PlaneCells(size), |nets|);
      assert used !! c1.Arrays();
      used := used + c1.Arrays();
      var c2 := new CoverCounter(PlaneCells(size), |nets|);
      assert used !! c2.Arrays();
      used := used + c2.Arrays();
      var b := new Buffers(size);
      assert used !! b.Arrays();
      used := used + b.Arrays();
      assert used !! {costs as object};
      halo, viaHalo, newVia, buf := c0, c1, c2, b;
      new;
      ParametersHold();
      FreshNets(nets);
      FreshCounters();
      FreshHistory();
    }

    lemma FreshCounters()
      requires var none := NoRecords(|nets|);
               && halo.Valid(none) && viaHalo.Valid(none) && newVia.Valid(none)
               && HaloRecords(nets) == none && ViaHaloRecords(nets) == none && NewViaRecords(nets) == none
      ensures Counted(nets)
    {
      hide CoverCounter.Valid, HaloRecords, ViaHaloRecords, NewViaRecords;
    }

    lemma FreshHistory()
      requires forall i :: 0 <= i < historyCost.Length ==> historyCost[i] == 1.0
      ensures HistoryGrows()
    {
    }

    lemma ParametersHold()
      requires size.layers <= MAX_LAYERS && size.w > 0 && size.h > 0 && gridMm > EPSILON
      requires trackWidthMm >= 0.0 && clearanceMm >= 0.0 && viaSizeMm >= 0.0
      requires forall v: real :: v >= 0.0 ==> sqrt(v) >= 0.0 && sqrt(v) * sqrt(v) == v
      ensures Parameters()
    {
    }

    lemma FreshNets(nets: seq<NetSpec>)
      requires forall k :: 0 <= k < |nets| ==>
                 && !nets[k].routed && Blank(nets[k]) && nets[k].widthMm >= 0.0
                 && forall i :: 0 <= i < |nets[k].copper| ==> Inside(size, nets[k].copper[i].cell)
      ensures NetsOk(nets)
      ensures var none := NoRecords(|nets|);
              HaloRecords(nets) == none && ViaHaloRecords(nets) == none && NewViaRecords(nets) == none
    {
    }

    // -- Searching

    /** The grids as one search sees them, before its goals are known. */
    function TerrainFor(netId: int, present: real): (t: Terrain)
      requires gridMm > 0.0
      reads halo.count, viaHalo.count, newVia.count, historyCost
      ensures t.size == size && t.owner == OwnerAt() && t.viaOwner == ViaOwnerAt() && t.netId == netId
    {
      TerrainWith(netId, present, halo.count[..], viaHalo.count[..], newVia.count[..], historyCost[..])
    }

    function TerrainWith(netId: int, present: real, h: seq<int>, v: seq<int>, n: seq<int>, history: seq<real>)
      : (t: Terrain)
      requires gridMm > 0.0
      ensures t.size == size && t.owner == OwnerAt() && t.viaOwner == ViaOwnerAt() && t.netId == netId
    {
      Terrain(size, netId, OwnerAt(), ViaOwnerAt(), CellsOf(size, h, 0), PlaneOf(size, v, 0), PlaneOf(size, n, 0),
              CellsOf(size, history, 1.0), present, ViaCostSteps(), {})
    }

    function OwnerAt(): Cell -> int {
      CellsOf(size, cellOwner, 0)
    }

    function ViaOwnerAt(): (int, int) -> int {
      PlaneOf(size, viaOwner, 0)
    }

    /** The terrain a net meets when exactly these nets are on the board, with this history: every counter is the
        number of them that list the cell. */
    ghost function TerrainAmong(nets: seq<NetSpec>, netId: int, present: real, history: seq<real>): Terrain
      requires gridMm > 0.0
    {
      TerrainWith(netId, present, Tallies(HaloRecords(nets), TotalCells(size)),
                  Tallies(ViaHaloRecords(nets), PlaneCells(size)), Tallies(NewViaRecords(nets), PlaneCells(size)),
                  history)
    }

    lemma CountersTellTerrain(netId: int, present: real)
      requires Parameters() && Separate() && Counted(nets)
      ensures TerrainFor(netId, present) == TerrainAmong(nets, netId, present, historyCost[..])
    {
      hide TotalCells, PlaneCells, HaloRecords, ViaHaloRecords, NewViaRecords, Tally;
      assert halo.count[..] == Tallies(HaloRecords(nets), TotalCells(size));
      assert viaHalo.count[..] == Tallies(ViaHaloRecords(nets), PlaneCells(size));
      assert newVia.count[..] == Tallies(NewViaRecords(nets), PlaneCells(size));
    }

    lemma TerrainIsValid(netId: int, present: real, copper: seq<CopperCell>, joined: set<int>)
      requires Parameters() && Separate() && Counted(nets) && HistoryGrows() && present >= 0.0
      requires forall i :: 0 <= i < |copper| ==> Inside(size, copper[i].cell)
      ensures WithGoals(TerrainFor(netId, present), copper, joined).Valid()
    {
      hide NodeIdx, PlaneIdx, TotalCells, Inside, OnPlane, PlaneCells;
      var t := WithGoals(TerrainFor(netId, present), copper, joined);
      forall c
        ensures t.history(c) >= 1.0 && t.halo(c) >= 0
      {
      }
      forall x, y
        ensures t.viaHalo(x, y) >= 0
      {
      }
    }

    lemma ParametersPositive()
      requires Parameters()
      ensures gridMm > EPSILON && size.layers <= MAX_LAYERS && size.w > 0
    {
    }

    lemma ValidIsPositive()
      requires Valid()
      ensures gridMm > 0.0 && Separate()
    {
    }

    lemma NetCopperInside(k: nat)
      requires NetsOk(nets) && k < |nets|
      ensures forall i :: 0 <= i < |nets[k].copper| ==> Inside(size, nets[k].copper[i].cell)
    {
      assert NetOk(nets[k]);
    }

    lemma ValidNetsOk()
      requires Valid()
      ensures NetsOk(nets)
    {
    }

    lemma UnroutedStaysOk(k: nat, bridges: seq<Bridge>)
      requires NetsOk(nets) && Counted(nets) && k < |nets| && !nets[k].routed
      ensures NetsOk(nets[k := nets[k].(bridges := bridges)]) && Counted(nets[k := nets[k].(bridges := bridges)])
    {
      hide Committed, Connects;
      var nets' := nets[k := nets[k].(bridges := bridges)];
      forall j | 0 <= j < |nets'|
        ensures NetOk(nets'[j])
      {
        assert NetOk(nets[j]);
      }
      assert HaloRecords(nets') == HaloRecords(nets) && ViaHaloRecords(nets') == ViaHaloRecords(nets) &&
             NewViaRecords(nets') == NewViaRecords(nets);
    }

    /** Bridges a net island by island, always over a cheapest bridge, until every required island is joined or
        no bridge exists. It reports success when nothing needed joining or at least one bridge was found
        while goals remained. */
    method RouteNet(k: nat, present: real) returns (ok: bool, ghost order: seq<int>)
      requires Valid() && k < |nets| && !nets[k].routed && present >= 0.0
      modifies this`nets, buf, buf.Arrays()
      ensures Valid() && |nets| == old(|nets|)
      ensures nets == old(nets)[k := old(nets)[k].(bridges := nets[k].bridges)]
      ensures BridgesStepwise(size, nets[k].bridges)
      ensures BridgesLawful(OwnerAt(), ViaOwnerAt(), nets[k].id, nets[k].bridges)
      ensures Routing(TerrainFor(nets[k].id, present), CellCentre, nets[k], order, ok)
    {
      hide Bridged, Stuck, Joins, GoalCells, Counted, HistoryGrows, NetsOk, Parameters, Buffers.Valid, Buffers.Active,
        Terrain.Valid, TerrainFor, NodeIdx, PlaneIdx, TotalCells, PlaneCells, ViaCostSteps, Inside, Stepwise,
        GrownCells, Islands, BridgesStepwise, BridgesLawful, Unreachable;
      var net := nets[k];
      ParametersPositive();
      var t := TerrainFor(net.id, present);
      var bridges: seq<Bridge> := [];
      var grown: seq<Cell> := [];
      var joined := {net.startIsland};
      order := [net.startIsland];
      var remaining := net.requiredIslands - 1;
      NothingBridged(t, net.copper, CellCentre, net.startIsland);
      NothingGrown(size, net.startIsland);
      assert BridgesLawful(t.owner, t.viaOwner, t.netId, bridges) by { NothingUnlawful(t); }
      NetCopperInside(k);
      ok := true;
      while remaining > 0
        invariant buf.Valid() && nets == old(nets)
        invariant joined == Islands(order) && grown == GrownCells(bridges)
        invariant |order| == |bridges| + 1 && remaining == net.requiredIslands - |order|
        invariant bridges != [] ==> |bridges| + 1 <= net.requiredIslands
        invariant Bridged(t, net.copper, CellCentre, net.startIsland, bridges, order)
        invariant BridgesStepwise(size, bridges) && forall c :: c in grown ==> Inside(size, c)
        invariant BridgesLawful(t.owner, t.viaOwner, t.netId, bridges)
        invariant t == TerrainFor(net.id, present)
      {
        TerrainIsValid(net.id, present, net.copper, joined);
        var f, moves := FindBridge(buf, t, net.copper, joined, grown, CellCentre);
        if !f.Found? {
          ok := f.NoBridge? && bridges != [];
          NotFoundIsStuck(t, net.copper, CellCentre, bridges, order, f);
          break;
        }
        BridgeAdded(t, net.copper, CellCentre, net.startIsland, bridges, order, f, moves);
        bridges := bridges + [f.bridge];
        grown := grown + f.bridge.cells;
        joined := joined + {net.copper[f.copperIdx].island};
        order := order + [net.copper[f.copperIdx].island];
        remaining := remaining - 1;
      }
      UnroutedStaysOk(k, bridges);
      nets := nets[k := net.(bridges := bridges)];
    }

    // -- Committing

    /** Stamps a disc on one layer; every cell is counted once per commit. */
    method AddHalo(l: int, c: Cell, g: real, r: real, offs: seq<(int, int)>, record: Record,
                   ghost records: seq<Record>, ghost k: nat) returns (record': Record)
      requires 0 <= l < size.layers && g == gridMm
      requires forall ox, oy :: (ox, oy) in offs <==> InDisc(g, r, ox, oy)
      requires halo.count.Length == TotalCells(size)
      requires k < |records| && halo.Writing(records, k) && record == records[k]
      modifies halo.count, halo.stamp
      ensures halo.Writing(records[k := record'], k)
      ensures forall d {:trigger NodeIdx(size, d)} :: Inside(size, d) ==>
                (NodeIdx(size, d) in record' <==> NodeIdx(size, d) in record || (d.l == l && Near(g, r, c, d.x, d.y)))
    {
      IndexFacts(size);
      hide NodeIdx, TotalCells, InDisc, CoverCounter.Writing;
      record' := record;
      assert records[k := record] == records;
      for i := 0 to |offs|
        invariant halo.Writing(records[k := record'], k)
        invariant forall d {:trigger NodeIdx(size, d)} :: Inside(size, d) ==>
                    (NodeIdx(size, d) in record' <==>
                     NodeIdx(size, d) in record || (d.l == l && (d.x - c.x, d.y - c.y) in offs[..i]))
      {
        var d := Cell(l, c.x + offs[i].0, c.y + offs[i].1);
        assert offs[..i + 1] == offs[..i] + [offs[i]];
        if Inside(size, d) {
          ghost var before := record';
          record' := halo.Cover(NodeIdx(size, d), record', records[k := record'], k);
          assert records[k := before][k := record'] == records[k := record'];
        }
      }
      assert offs[..|offs|] == offs;
    }

    /** The same on the plane, for either of the two via counters. */
    method AddPlane(counter: CoverCounter, c: Cell, g: real, r: real, offs: seq<(int, int)>, record: Record,
                    ghost records: seq<Record>, ghost k: nat) returns (record': Record)
      requires g == gridMm
      requires forall ox, oy :: (ox, oy) in offs <==> InDisc(g, r, ox, oy)
      requires counter.count.Length == PlaneCells(size)
      requires k < |records| && counter.Writing(records, k) && record == records[k]
      modifies counter.count, counter.stamp
      ensures counter.Writing(records[k := record'], k)
      ensures forall x, y {:trigger PlaneIdx(size, x, y)} :: OnPlane(size, x, y) ==>
                (PlaneIdx(size, x, y) in record' <==> PlaneIdx(size, x, y) in record || Near(g, r, c, x, y))
    {
      PlaneFacts(size);
      hide PlaneIdx, PlaneCells, InDisc, CoverCounter.Writing;
      record' := record;
      assert records[k := record] == records;
      for i := 0 to |offs|
        invariant counter.Writing(records[k := record'], k)
        invariant forall x, y {:trigger PlaneIdx(size, x, y)} :: OnPlane(size, x, y) ==>
                    (PlaneIdx(size, x, y) in record' <==>
                     PlaneIdx(size, x, y) in record || (x - c.x, y - c.y) in offs[..i])
      {
        var x, y := c.x + offs[i].0, c.y + offs[i].1;
        assert offs[..i + 1] == offs[..i] + [offs[i]];
        if OnPlane(size, x, y) {
          ghost var before := record';
          record' := counter.Cover(PlaneIdx(size, x, y), record', records[k := record'], k);
          assert records[k := before][k := record'] == records[k := record'];
        }
      }
      assert offs[..|offs|] == offs;
    }

    /** All three counters are writing record `k`, with `h`, `v` and `n` on it so far. */
    ghost predicate Recording(base: seq<NetSpec>, k: nat, h: Record, v: Record, n: Record)
      reads halo, halo.Arrays(), viaHalo, viaHalo.Arrays(), newVia, newVia.Arrays()
    {
      && k < |base|
      && halo.Writing(HaloRecords(base)[k := h], k)
      && viaHalo.Writing(ViaHaloRecords(base)[k := v], k)
      && newVia.Writing(NewViaRecords(base)[k := n], k)
    }

    /** The track halo of every cell of the net, and its clearance disc for vias. */
    method CommitTrack(s: Site, radii: Radii, discs: DiscSet, ghost base: seq<NetSpec>, ghost k: nat, lists: Lists)
      returns (lists': Lists)
      requires Separate() && Inside(size, s.cell) && discs.Matches(gridMm, radii)
      requires Recording(base, k, lists.halo, lists.viaHalo, lists.newVia)
      modifies halo.Arrays(), viaHalo.Arrays(), newVia.Arrays()
      ensures Recording(base, k, lists'.halo, lists'.viaHalo, lists'.newVia)
      ensures lists' == lists.(halo := lists'.halo, viaHalo := lists'.viaHalo)
      ensures forall d {:trigger NodeIdx(size, d)} :: Inside(size, d) ==>
                (NodeIdx(size, d) in lists'.halo <==>
                 NodeIdx(size, d) in lists.halo || (d.l == s.cell.l && Near(gridMm, radii.track, s.cell, d.x, d.y)))
      ensures forall x, y {:trigger PlaneIdx(size, x, y)} :: OnPlane(size, x, y) ==>
                (PlaneIdx(size, x, y) in lists'.viaHalo <==>
                 PlaneIdx(size, x, y) in lists.viaHalo || Near(gridMm, radii.trackVia, s.cell, x, y))
    {
      hide NodeIdx, PlaneIdx, TotalCells, PlaneCells, Near, CoverCounter.Writing, InDisc;
      ghost var hr, vr := HaloRecords(base)[k := lists.halo], ViaHaloRecords(base)[k := lists.viaHalo];
      var h := AddHalo(s.cell.l, s.cell, gridMm, radii.track, discs.track, lists.halo, hr, k);
      var v := AddPlane(viaHalo, s.cell, gridMm, radii.trackVia, discs.trackVia, lists.viaHalo, vr, k);
      lists' := lists.(halo := h, viaHalo := v);
      assert hr[k := h] == HaloRecords(base)[k := h] && vr[k := v] == ViaHaloRecords(base)[k := v];
    }

    /** A via: its halo on every layer, and its pitch disc on both via counters. */
    method CommitVia(c: Cell, radii: Radii, discs: DiscSet, ghost base: seq<NetSpec>, ghost k: nat, lists: Lists)
      returns (lists': Lists)
      requires Separate() && Inside(size, c) && discs.Matches(gridMm, radii)
      requires Recording(base, k, lists.halo, lists.viaHalo, lists.newVia)
      modifies halo.Arrays(), viaHalo.Arrays(), newVia.Arrays()
      ensures Recording(base, k, lists'.halo, lists'.viaHalo, lists'.newVia)
      ensures lists' == lists.(halo := lists'.halo, viaHalo := lists'.viaHalo, newVia := lists'.newVia,
                               viaSites := lists.viaSites + [PlaneIdx(size, c.x, c.y)])
      ensures forall d {:trigger NodeIdx(size, d)} :: Inside(size, d) ==>
                (NodeIdx(size, d) in lists'.halo <==>
                 NodeIdx(size, d) in lists.halo || Near(gridMm, radii.viaLayer, c, d.x, d.y))
      ensures forall x, y {:trigger PlaneIdx(size, x, y)} :: OnPlane(size, x, y) ==>
                (PlaneIdx(size, x, y) in lists'.viaHalo <==>
                 PlaneIdx(size, x, y) in lists.viaHalo || Near(gridMm, radii.viaVia, c, x, y))
      ensures forall x, y {:trigger PlaneIdx(size, x, y)} :: OnPlane(size, x, y) ==>
                (PlaneIdx(size, x, y) in lists'.newVia <==>
                 PlaneIdx(size, x, y) in lists.newVia || Near(gridMm, radii.viaVia, c, x, y))
    {
      hide NodeIdx, PlaneIdx, TotalCells, PlaneCells, Near, CoverCounter.Writing, InDisc;
      ghost var hr := HaloRecords(base);
      ghost var vr, nr := ViaHaloRecords(base)[k := lists.viaHalo], NewViaRecords(base)[k := lists.newVia];
      var h := lists.halo;
      for ly := 0 to size.layers
        invariant halo.Writing(hr[k := h], k)
        invariant viaHalo.Writing(vr, k) && newVia.Writing(nr, k)
        invariant forall d {:trigger NodeIdx(size, d)} :: Inside(size, d) ==>
                    (NodeIdx(size, d) in h <==>
                     NodeIdx(size, d) in lists.halo || (d.l < ly && Near(gridMm, radii.viaLayer, c, d.x, d.y)))
      {
        ghost var before := h;
        h := AddHalo(ly, c, gridMm, radii.viaLayer, discs.viaLayer, h, hr[k := h], k);
        assert hr[k := before][k := h] == hr[k := h];
      }
      var v := AddPlane(viaHalo, c, gridMm, radii.viaVia, discs.viaVia, lists.viaHalo, vr, k);
      var n := AddPlane(newVia, c, gridMm, radii.viaVia, discs.viaVia, lists.newVia, nr, k);
      lists' := lists.(halo := h, viaHalo := v, newVia := n, viaSites := lists.viaSites + [PlaneIdx(size, c.x, c.y)]);
      assert vr[k := v] == ViaHaloRecords(base)[k := v] && nr[k := n] == NewViaRecords(base)[k := n];
    }

    /** One cell of a bridge: afterwards the lists are exactly what the sites so far and this one cover. */
    method CommitSite(s: Site, radii: Radii, discs: DiscSet, ghost base: seq<NetSpec>, ghost k: nat, lists: Lists,
                      ghost sites: seq<Site>) returns (lists': Lists)
      requires Separate() && Inside(size, s.cell) && discs.Matches(gridMm, radii)
      requires Recording(base, k, lists.halo, lists.viaHalo, lists.newVia)
      requires Recorded(size, gridMm, radii, sites, lists)
      modifies halo.Arrays(), viaHalo.Arrays(), newVia.Arrays()
      ensures Recording(base, k, lists'.halo, lists'.viaHalo, lists'.newVia)
      ensures Recorded(size, gridMm, radii, sites + [s], lists')
    {
      hide NodeIdx, PlaneIdx, TotalCells, PlaneCells, Near, Recording, Inside, OnPlane, HaloRecord, ViaHaloRecord,
        NewViaRecord, CenterRecord, ViaSiteRecord, DiscSet.Matches;
      lists' := CommitTrack(s, radii, discs, base, k, lists.(centers := lists.centers + [NodeIdx(size, s.cell)]));
      if s.via {
        lists' := CommitVia(s.cell, radii, discs, base, k, lists');
      }
      HaloRecordStep(size, gridMm, radii, sites, s, lists.halo, lists'.halo);
      ViaHaloRecordStep(size, gridMm, radii, sites, s, lists.viaHalo, lists'.viaHalo);
      NewViaRecordStep(size, gridMm, radii, sites, s, lists.newVia, lists'.newVia);
      CenterRecordStep(size, sites, s, lists.centers);
      ViaSiteRecordStep(size, sites, s, lists.viaSites);
    }

    method Discs(radii: Radii) returns (discs: DiscSet)
      requires gridMm > EPSILON
      requires radii.track >= 0.0 && radii.trackVia >= 0.0 && radii.viaLayer >= 0.0 && radii.viaVia >= 0.0
      ensures discs.Matches(gridMm, radii)
    {
      hide InDisc;
      var track := DiscOffsets(gridMm, radii.track);
      var trackVia := DiscOffsets(gridMm, radii.trackVia);
      var viaLayer := DiscOffsets(gridMm, radii.viaLayer);
      var viaVia := DiscOffsets(gridMm, radii.viaVia);
      discs := DiscSet(track, trackVia, viaLayer, viaVia);
    }

    /** What the inflated radii are: non-negative, with the intended squares. */
    lemma SlackSquares(r: real)
      requires Parameters()
      ensures Slack1(r) >= 0.0 && Slack1(r) * Slack1(r) == r * r + 0.5 * (gridMm * gridMm)
      ensures Slack2(r) >= 0.0 && Slack2(r) * Slack2(r) == r * r + gridMm * gridMm
    {
      SquareNonNegative(r);
      SquareNonNegative(gridMm);
      hide Slack1, Slack2;
      assert Slack1(r) == sqrt(r * r + HalfDiag2()) by { SlackIsRoot(r); }
      assert Slack2(r) == sqrt(r * r + 2.0 * HalfDiag2()) by { SlackIsRoot(r); }
    }

    lemma SlackIsRoot(r: real)
      ensures Slack1(r) == sqrt(r * r + HalfDiag2()) && Slack2(r) == sqrt(r * r + 2.0 * HalfDiag2())
    {
    }

    lemma RadiiNonNegative(width: real)
      requires Parameters()
      ensures var r := RadiiFor(width); r.track >= 0.0 && r.trackVia >= 0.0 && r.viaLayer >= 0.0 && r.viaVia >= 0.0
    {
      SlackSquares(TrackReach(width));
      SlackSquares(ViaReach(width));
      SlackSquares(ViaReach(trackWidthMm));
      hide Slack1, Slack2, TrackReach, ViaReach;
    }

    /** The radii a net of this width stamps: a track keeps the rule against default tracks beyond two half diagonals of
        a cell, and against vias beyond one; a via keeps it against default tracks beyond one, and its pitch. */
    lemma HaloRadii(width: real)
      requires Parameters() && width >= 0.0
      ensures var r, g2 := RadiiFor(width), gridMm * gridMm;
              var toTrack := (width + trackWidthMm) / 2.0 + clearanceMm;
              var toVia := (width + viaSizeMm) / 2.0 + clearanceMm;
              var viaToTrack := (trackWidthMm + viaSizeMm) / 2.0 + clearanceMm;
              && r.track >= 0.0 && r.track * r.track == toTrack * toTrack + g2
              && r.trackVia >= 0.0 && r.trackVia * r.trackVia == toVia * toVia + g2 / 2.0
              && r.viaLayer >= 0.0 && r.viaLayer * r.viaLayer == viaToTrack * viaToTrack + g2 / 2.0
              && r.viaVia == viaSizeMm + clearanceMm
    {
      SlackSquares(TrackReach(width));
      SlackSquares(ViaReach(width));
      SlackSquares(ViaReach(trackWidthMm));
      hide Slack1, Slack2;
    }

    /** A via costs as much as 1.25 mm of track, but never less than two steps. */
    lemma ViaCostLaw()
      requires gridMm > 0.0
      ensures ViaCostSteps() >= 2.0 && ViaCostSteps() * gridMm >= 1.25
      ensures ViaCostSteps() == 2.0 || ViaCostSteps() * gridMm == 1.25
    {
      assert 1.25 / gridMm * gridMm == 1.25;
      if ViaCostSteps() == 2.0 {
        assert 1.25 / gridMm * gridMm <= 2.0 * gridMm;
      }
    }

    /** Centres of neighbouring cells are one grid step apart, from the board's origin on. */
    lemma CentreSpacing(c: Cell, m: Move)
      ensures CellCentre(Cell(c.l, 0, 0)) == (originX, originY)
      ensures var to := Target(c, m);
              && CellCentre(to).0 - CellCentre(c).0 == (to.x - c.x) as real * gridMm
              && CellCentre(to).1 - CellCentre(c).1 == (to.y - c.y) as real * gridMm
    {
    }

    /** Every site of one bridge, in order. */
    method CommitBridge(cells: seq<Cell>, radii: Radii, discs: DiscSet, ghost base: seq<NetSpec>, ghost k: nat,
                        lists: Lists, ghost before: seq<Site>) returns (lists': Lists)
      requires Separate() && Stepwise(size, cells) && discs.Matches(gridMm, radii)
      requires Recording(base, k, lists.halo, lists.viaHalo, lists.newVia)
      requires Recorded(size, gridMm, radii, before, lists) && SitesInside(size, before)
      modifies halo.Arrays(), viaHalo.Arrays(), newVia.Arrays()
      ensures Recording(base, k, lists'.halo, lists'.viaHalo, lists'.newVia)
      ensures Recorded(size, gridMm, radii, before + SitesOf(cells), lists')
      ensures SitesInside(size, before + SitesOf(cells))
    {
      hide Recording, Recorded, DiscSet.Matches, Separate, Inside, Step;
      lists' := lists;
      ghost var sites := before;
      assert SitesOf(cells)[..0] == [];
      for i := 0 to |cells|
        invariant Recording(base, k, lists'.halo, lists'.viaHalo, lists'.newVia)
        invariant sites == before + SitesOf(cells)[..i]
        invariant Recorded(size, gridMm, radii, sites, lists') && SitesInside(size, sites)
      {
        var s := SiteAt(cells, i);
        lists' := CommitSite(s, radii, discs, base, k, lists', sites);
        sites := sites + [s];
        assert SitesOf(cells)[..i + 1] == SitesOf(cells)[..i] + [s];
      }
      assert SitesOf(cells)[..|cells|] == SitesOf(cells);
    }

    lemma NoSites(radii: Radii)
      ensures Recorded(size, gridMm, radii, AllSites([]), Lists([], [], [], [], [])) && SitesInside(size, AllSites([]))
    {
    }

    /** Every site of every bridge, in order. */
    method CommitSites(bridges: seq<Bridge>, radii: Radii, discs: DiscSet, ghost base: seq<NetSpec>, ghost k: nat)
      returns (lists: Lists)
      requires Separate() && BridgesStepwise(size, bridges) && discs.Matches(gridMm, radii)
      requires Recording(base, k, [], [], [])
      modifies halo.Arrays(), viaHalo.Arrays(), newVia.Arrays()
      ensures Recording(base, k, lists.halo, lists.viaHalo, lists.newVia)
      ensures Recorded(size, gridMm, radii, AllSites(bridges), lists) && SitesInside(size, AllSites(bridges))
    {
      hide Recording, Recorded, DiscSet.Matches, Separate, Stepwise, SitesInside, SitesOf;
      NoSites(radii);
      lists := Lists([], [], [], [], []);
      assert bridges[..0] == [];
      for b := 0 to |bridges|
        invariant Recording(base, k, lists.halo, lists.viaHalo, lists.newVia)
        invariant Recorded(size, gridMm, radii, AllSites(bridges[..b]), lists)
        invariant SitesInside(size, AllSites(bridges[..b]))
      {
        lists := CommitBridge(bridges[b].cells, radii, discs, base, k, lists, AllSites(bridges[..b]));
        assert bridges[..b + 1][..b] == bridges[..b];
      }
      assert bridges[..|bridges|] == bridges;
    }

    method BeginCommit(ghost base: seq<NetSpec>, ghost k: nat)
      requires Separate() && Counted(base) && NetsOk(base) && k < |base| && !base[k].routed
      modifies halo, viaHalo, newVia, halo.Arrays(), viaHalo.Arrays(), newVia.Arrays()
      ensures Recording(base, k, [], [], [])
    {
      BlankRecords(base, k);
      hide HaloRecords, ViaHaloRecords, NewViaRecords, CoverCounter.Valid, CoverCounter.Writing, NetsOk;
      halo.Begin(HaloRecords(base), k);
      viaHalo.Begin(ViaHaloRecords(base), k);
      newVia.Begin(NewViaRecords(base), k);
    }

    lemma RecordingCounts(base: seq<NetSpec>, k: nat, h: Record, v: Record, n: Record, nets': seq<NetSpec>)
      requires Recording(base, k, h, v, n)
      requires HaloRecords(nets') == HaloRecords(base)[k := h]
      requires ViaHaloRecords(nets') == ViaHaloRecords(base)[k := v]
      requires NewViaRecords(nets') == NewViaRecords(base)[k := n]
      ensures Counted(nets')
    {
      hide CoverCounter.Valid, HaloRecords, ViaHaloRecords, NewViaRecords;
    }

    /** Puts a bridged net's copper on the counters. */
    method CommitNet(k: nat)
      requires Valid() && k < |nets| && !nets[k].routed && BridgesStepwise(size, nets[k].bridges)
      requires Connects(nets[k].copper, nets[k].startIsland, nets[k].bridges) && JoinedSome(nets[k])
      requires BridgesLawful(OwnerAt(), ViaOwnerAt(), nets[k].id, nets[k].bridges)
      modifies this`nets, halo, viaHalo, newVia, halo.Arrays(), viaHalo.Arrays(), newVia.Arrays()
      ensures Valid() && |nets| == old(|nets|) && nets == old(nets)[k := nets[k]]
      ensures nets[k].routed && SameNet(nets[k], old(nets[k])) && nets[k].bridges == old(nets[k].bridges)
    {
      hide Buffers.Valid, HistoryGrows, Recorded, SitesInside, AllSites, RadiiFor, NetsOk, Recording, Counted,
        HaloRecords, ViaHaloRecords, NewViaRecords, BridgesStepwise, BridgesLawful, DiscSet.Matches, Connects,
        JoinedSome, Ascending;
      var net := nets[k];
      ghost var base := nets;
      RadiiNonNegative(net.widthMm);
      var radii := RadiiFor(net.widthMm);
      ParametersPositive();
      hide Parameters;
      var discs := Discs(radii);
      BeginCommit(base, k);
      var lists := CommitSites(net.bridges, radii, discs, base, k);
      var centers := SortUnique(lists.centers);
      var viaSites := SortUnique(lists.viaSites);
      CommittedIsOk(base, k, lists, centers, viaSites);
      nets := nets[k := net.(haloCells := lists.halo, viaHalo2D := lists.viaHalo, newVia2D := lists.newVia,
                             centerCells := centers, viaSites2D := viaSites, routed := true)];
      RecordingCounts(base, k, lists.halo, lists.viaHalo, lists.newVia, nets);
    }

    lemma BlankRecords(base: seq<NetSpec>, k: nat)
      requires NetsOk(base) && k < |base| && !base[k].routed
      ensures HaloRecords(base)[k := []] == HaloRecords(base) && ViaHaloRecords(base)[k := []] == ViaHaloRecords(base)
      ensures NewViaRecords(base)[k := []] == NewViaRecords(base)
      ensures HaloRecords(base)[k] == [] && ViaHaloRecords(base)[k] == [] && NewViaRecords(base)[k] == []
    {
      hide Committed, Connects;
      assert NetOk(base[k]);
    }

    lemma CommittedIsOk(base: seq<NetSpec>, k: nat, lists: Lists, centers: seq<int>, viaSites: seq<int>)
      requires NetsOk(base) && k < |base| && BridgesStepwise(size, base[k].bridges)
      requires Connects(base[k].copper, base[k].startIsland, base[k].bridges)
      requires SitesInside(size, AllSites(base[k].bridges))
      requires Recorded(size, gridMm, RadiiFor(base[k].widthMm), AllSites(base[k].bridges), lists)
      requires BridgesLawful(OwnerAt(), ViaOwnerAt(), base[k].id, base[k].bridges) && JoinedSome(base[k])
      requires Ascending(centers) && forall x :: x in centers <==> x in lists.centers
      requires Ascending(viaSites) && forall x :: x in viaSites <==> x in lists.viaSites
      ensures var net := base[k].(haloCells := lists.halo, viaHalo2D := lists.viaHalo, newVia2D := lists.newVia,
                                  centerCells := centers, viaSites2D := viaSites, routed := true);
              var nets' := base[k := net];
              && NetsOk(nets')
              && HaloRecords(nets') == HaloRecords(base)[k := lists.halo]
              && ViaHaloRecords(nets') == ViaHaloRecords(base)[k := lists.viaHalo]
              && NewViaRecords(nets') == NewViaRecords(base)[k := lists.newVia]
    {
      hide HaloRecord, ViaHaloRecord, NewViaRecord, SitesInside, AllSites, NodeIdx, PlaneIdx, RadiiFor, Inside,
        Connects, BridgesLawful, Ascending;
      var net := base[k].(haloCells := lists.halo, viaHalo2D := lists.viaHalo, newVia2D := lists.newVia,
                          centerCells := centers, viaSites2D := viaSites, routed := true);
      assert NetOk(base[k]);
      assert NetOk(net);
      hide NetOk;
      var nets' := base[k := net];
      forall j | 0 <= j < |nets'|
        ensures NetOk(nets'[j])
      {
        assert NetOk(base[j]);
      }
    }

    // -- Ripping up

    function Ripped(net: NetSpec): NetSpec {
      net.(haloCells := [], viaHalo2D := [], newVia2D := [], centerCells := [], viaSites2D := [], bridges := [],
           routed := false)
    }

    /** Takes a net's copper off the counters again. */
    method RipUpNet(k: nat)
      requires Valid() && k < |nets|
      modifies this`nets, halo.count, viaHalo.count, newVia.count
      ensures Valid() && nets == old(nets)[k := Ripped(old(nets)[k])]
    {
      hide Buffers.Valid, HistoryGrows, HaloRecords, ViaHaloRecords, NewViaRecords, CoverCounter.Valid, Parameters;
      RippedRecords(nets, k);
      hide NetsOk;
      var net := nets[k];
      halo.Release(net.haloCells, HaloRecords(nets), k);
      viaHalo.Release(net.viaHalo2D, ViaHaloRecords(nets), k);
      newVia.Release(net.newVia2D, NewViaRecords(nets), k);
      nets := nets[k := Ripped(net)];
    }

    lemma RippedRecords(nets: seq<NetSpec>, k: nat)
      requires NetsOk(nets) && k < |nets|
      ensures NetsOk(nets[k := Ripped(nets[k])])
      ensures |HaloRecords(nets)| == |ViaHaloRecords(nets)| == |NewViaRecords(nets)| == |nets|
      ensures HaloRecords(nets)[k] == nets[k].haloCells
      ensures HaloRecords(nets[k := Ripped(nets[k])]) == HaloRecords(nets)[k := []]
      ensures ViaHaloRecords(nets)[k] == nets[k].viaHalo2D
      ensures ViaHaloRecords(nets[k := Ripped(nets[k])]) == ViaHaloRecords(nets)[k := []]
      ensures NewViaRecords(nets)[k] == nets[k].newVia2D
      ensures NewViaRecords(nets[k := Ripped(nets[k])]) == NewViaRecords(nets)[k := []]
    {
      hide Committed, Connects;
      var nets' := nets[k := Ripped(nets[k])];
      forall j | 0 <= j < |nets'|
        ensures NetOk(nets'[j])
      {
        assert NetOk(nets[j]);
      }
    }

    // -- Violations

    /** A routed net's own copper lies on the grid, so its lists can be looked up. */
    ghost predicate Indexed(net: NetSpec)
      reads halo, viaHalo
    {
      && (forall j :: 0 <= j < |net.centerCells| ==> 0 <= net.centerCells[j] < halo.count.Length)
      && (forall j :: 0 <= j < |net.viaSites2D| ==> 0 <= net.viaSites2D[j] < viaHalo.count.Length)
    }

    /** No other net's halo reaches this net's centre cells or via sites. */
    ghost predicate Undisturbed(net: NetSpec)
      requires Indexed(net)
      reads halo, halo.count, viaHalo, viaHalo.count
    {
      && (forall j :: 0 <= j < |net.centerCells| ==> halo.count[net.centerCells[j]] <= 1)
      && (forall j :: 0 <= j < |net.viaSites2D| ==> viaHalo.count[net.viaSites2D[j]] <= 1)
    }

    lemma NetIsIndexed(net: NetSpec)
      requires Separate() && NetOk(net)
      ensures Indexed(net)
    {
      IndexFacts(size);
      PlaneFacts(size);
      hide NodeIdx, PlaneIdx, TotalCells, PlaneCells, HaloRecord, ViaHaloRecord, NewViaRecord, RadiiFor, AllSites,
        Connects;
      if net.routed {
        var sites := AllSites(net.bridges);
        forall j | 0 <= j < |net.centerCells|
          ensures 0 <= net.centerCells[j] < halo.count.Length
        {
          var id := net.centerCells[j];
          assert id in net.centerCells;
          var i :| 0 <= i < |sites| && id == NodeIdx(size, sites[i].cell);
        }
        forall j | 0 <= j < |net.viaSites2D|
          ensures 0 <= net.viaSites2D[j] < viaHalo.count.Length
        {
          var id := net.viaSites2D[j];
          assert id in net.viaSites2D;
          var i :| 0 <= i < |sites| && sites[i].via && id == PlaneIdx(size, sites[i].cell.x, sites[i].cell.y);
          assert OnPlane(size, sites[i].cell.x, sites[i].cell.y);
        }
      }
    }

    lemma NetsAreIndexed(nets: seq<NetSpec>)
      requires Separate() && NetsOk(nets)
      ensures forall k :: 0 <= k < |nets| ==> Indexed(nets[k])
    {
      hide Indexed, NetOk;
      forall k | 0 <= k < |nets|
        ensures Indexed(nets[k])
      {
        NetIsIndexed(nets[k]);
      }
    }

    /** The cells of a list on which more than one net's halo falls. */
    ghost function Crowded(ids: seq<int>, count: seq<int>): (n: nat)
      ensures n == 0 <==> forall j :: 0 <= j < |ids| && 0 <= ids[j] < |count| ==> count[ids[j]] <= 1
    {
      if ids == [] then 0
      else
        var last := ids[|ids| - 1];
        assert ids == ids[..|ids| - 1] + [last];
        Crowded(ids[..|ids| - 1], count) + (if 0 <= last < |count| && count[last] > 1 then 1 else 0)
    }

    ghost function NetViolationsOf(net: NetSpec): nat
      reads halo.count, viaHalo.count
    {
      Crowded(net.centerCells, halo.count[..]) + Crowded(net.viaSites2D, viaHalo.count[..])
    }

    ghost function Violations(nets: seq<NetSpec>): nat
      reads halo.count, viaHalo.count
    {
      if nets == [] then 0
      else
        var last := nets[|nets| - 1];
        Violations(nets[..|nets| - 1]) + (if last.routed then NetViolationsOf(last) else 0)
    }

    method CountCrowded(ids: seq<int>, count: array<int>) returns (v: nat)
      requires forall j :: 0 <= j < |ids| ==> 0 <= ids[j] < count.Length
      ensures v == Crowded(ids, count[..])
    {
      v := 0;
      for i := 0 to |ids|
        invariant v == Crowded(ids[..i], count[..])
      {
        assert ids[..i + 1][..i] == ids[..i];
        if count[ids[i]] > 1 {
          v := v + 1;
        }
      }
      assert ids[..|ids|] == ids;
    }

    /** Counts the centre cells and via sites that more than one net's halo covers. */
    method NetViolations(net: NetSpec) returns (v: nat)
      requires Indexed(net)
      ensures v == NetViolationsOf(net) && (v == 0 <==> Undisturbed(net))
    {
      var c := CountCrowded(net.centerCells, halo.count);
      var s := CountCrowded(net.viaSites2D, viaHalo.count);
      v := c + s;
    }

    // -- Passes

    /** What a cell covered by `n` nets' halos adds to its history. */
    function Penalty(n: int): real {
      if n > 1 then 1.5 * (n - 1) as real else 0.0
    }

    ghost function CentrePenalty(ids: seq<int>, id: int): (p: real)
      requires 0 <= id < halo.count.Length
      reads halo.count
      ensures p >= 0.0
    {
      if id in ids then Penalty(halo.count[id]) else 0.0
    }

    ghost function SitePenalty(pids: seq<int>, pid: int): (p: real)
      requires 0 <= pid < viaHalo.count.Length
      reads viaHalo.count
      ensures p >= 0.0
    {
      if pid in pids then Penalty(viaHalo.count[pid]) else 0.0
    }

    /** Every cell a violation sits on becomes dearer for good, in proportion to the overlap, and a crowded via
        site makes its column dearer on every layer; nothing else changes. Reports whether the net is disturbed. */
    method Penalise(net: NetSpec) returns (disturbed: bool)
      requires Separate() && buf.Valid() && HistoryGrows() && Indexed(net) && size.w > 0
      requires Ascending(net.centerCells) && Ascending(net.viaSites2D)
      modifies historyCost
      ensures HistoryGrows()
      ensures disturbed <==> !Undisturbed(net)
      ensures !disturbed ==> historyCost[..] == old(historyCost[..])
      ensures forall c {:trigger NodeIdx(size, c)} :: Inside(size, c) ==>
                var id, pid := NodeIdx(size, c), PlaneIdx(size, c.x, c.y);
                && 0 <= id < historyCost.Length && 0 <= pid < viaHalo.count.Length
                && historyCost[id] ==
                  old(historyCost[id]) + CentrePenalty(net.centerCells, id) + SitePenalty(net.viaSites2D, pid)
    {
      IndexFacts(size);
      PlaneFacts(size);
      hide NodeIdx, PlaneIdx, TotalCells, PlaneCells, Buffers.Valid;
      disturbed := PenaliseCentres(net.centerCells);
      label Mid:
      var crowded := PenaliseSites(net.viaSites2D);
      disturbed := disturbed || crowded;
      forall c | Inside(size, c)
        ensures historyCost[NodeIdx(size, c)] == old(historyCost[NodeIdx(size, c)])
                  + CentrePenalty(net.centerCells, NodeIdx(size, c)) +
                    SitePenalty(net.viaSites2D, PlaneIdx(size, c.x, c.y))
      {
        assert historyCost[NodeIdx(size, c)] ==
               old@Mid(historyCost[NodeIdx(size, c)]) + SitePenalty(net.viaSites2D, PlaneIdx(size, c.x, c.y));
      }
    }

    method PenaliseSites(pids: seq<int>) returns (disturbed: bool)
      requires Separate() && HistoryGrows() && Ascending(pids) && size.w > 0
      requires forall j :: 0 <= j < |pids| ==> 0 <= pids[j] < viaHalo.count.Length
      modifies historyCost
      ensures HistoryGrows()
      ensures !disturbed <==> forall j :: 0 <= j < |pids| ==> viaHalo.count[pids[j]] <= 1
      ensures !disturbed ==> historyCost[..] == old(historyCost[..])
      ensures forall c {:trigger NodeIdx(size, c)} :: Inside(size, c) ==>
                && 0 <= NodeIdx(size, c) < historyCost.Length && 0 <= PlaneIdx(size, c.x, c.y) < viaHalo.count.Length
                && historyCost[NodeIdx(size, c)] ==
                   old(historyCost[NodeIdx(size, c)]) + SitePenalty(pids, PlaneIdx(size, c.x, c.y))
    {
      IndexFacts(size);
      PlaneFacts(size);
      hide NodeIdx, PlaneIdx, TotalCells, PlaneCells;
      disturbed := false;
      forall c | Inside(size, c)
        ensures 0 <= PlaneIdx(size, c.x, c.y) < viaHalo.count.Length && SitePenalty([], PlaneIdx(size, c.x, c.y)) == 0.0
      {
        assert OnPlane(size, c.x, c.y);
      }
      assert pids[..0] == [];
      for i := 0 to |pids|
        invariant HistoryGrows()
        invariant forall c {:trigger NodeIdx(size, c)} :: Inside(size, c) ==>
                    && 0 <= PlaneIdx(size, c.x, c.y) < viaHalo.count.Length
                    && historyCost[NodeIdx(size, c)] ==
                       old(historyCost[NodeIdx(size, c)]) + SitePenalty(pids[..i], PlaneIdx(size, c.x, c.y))
        invariant !disturbed <==> forall j :: 0 <= j < i ==> viaHalo.count[pids[j]] <= 1
        invariant !disturbed ==> historyCost[..] == old(historyCost[..])
      {
        var pid := pids[i];
        assert pids[..i + 1] == pids[..i] + [pid] && pid !in pids[..i];
        if viaHalo.count[pid] > 1 {
          disturbed := true;
          PenaliseColumn(pid, 1.5 * (viaHalo.count[pid] - 1) as real);
        }
      }
      assert pids[..|pids|] == pids;
    }

    method PenaliseCentres(ids: seq<int>) returns (disturbed: bool)
      requires Separate() && HistoryGrows() && Ascending(ids)
      requires forall j :: 0 <= j < |ids| ==> 0 <= ids[j] < halo.count.Length
      modifies historyCost
      ensures HistoryGrows()
      ensures !disturbed <==> forall j :: 0 <= j < |ids| ==> halo.count[ids[j]] <= 1
      ensures !disturbed ==> historyCost[..] == old(historyCost[..])
      ensures forall id :: 0 <= id < historyCost.Length ==>
                historyCost[id] == old(historyCost[id]) + CentrePenalty(ids, id)
    {
      hide TotalCells, PlaneCells;
      disturbed := false;
      for i := 0 to |ids|
        invariant HistoryGrows()
        invariant forall id :: 0 <= id < historyCost.Length ==>
                    historyCost[id] == old(historyCost[id]) + CentrePenalty(ids[..i], id)
        invariant !disturbed <==> forall j :: 0 <= j < i ==> halo.count[ids[j]] <= 1
        invariant !disturbed ==> historyCost[..] == old(historyCost[..])
      {
        var id := ids[i];
        assert ids[..i + 1] == ids[..i] + [id] && id !in ids[..i];
        if halo.count[id] > 1 {
          disturbed := true;
          historyCost[id] := historyCost[id] + 1.5 * (halo.count[id] - 1) as real;
        }
      }
      assert ids[..|ids|] == ids;
    }

    method PenaliseColumn(pid: int, amount: real)
      requires historyCost.Length == TotalCells(size) && HistoryGrows() && size.w > 0
      requires 0 <= pid < PlaneCells(size) && amount >= 0.0
      modifies historyCost
      ensures HistoryGrows()
      ensures forall c {:trigger NodeIdx(size, c)} :: Inside(size, c) && 0 <= NodeIdx(size, c) < historyCost.Length ==>
                historyCost[NodeIdx(size, c)] ==
                old(historyCost[NodeIdx(size, c)]) + (if PlaneIdx(size, c.x, c.y) == pid then amount else 0.0)
    {
      IndexFacts(size);
      PlaneFacts(size);
      PlaneDecodes(size, pid);
      PlaneEncodes(size, pid);
      hide NodeIdx, PlaneIdx, TotalCells, PlaneCells;
      var vx, vy := pid % size.w, pid / size.w;
      for ly := 0 to size.layers
        invariant HistoryGrows()
        invariant forall c {:trigger NodeIdx(size, c)} :: Inside(size, c) ==>
                    historyCost[NodeIdx(size, c)] ==
                    old(historyCost[NodeIdx(size, c)]) + (if c.l < ly && c.x == vx && c.y == vy then amount else 0.0)
      {
        var id := NodeIdx(size, Cell(ly, vx, vy));
        historyCost[id] := historyCost[id] + amount;
      }
      assert forall x, y {:trigger PlaneIdx(size, x, y)} :: OnPlane(size, x, y) ==>
               (PlaneIdx(size, x, y) == pid <==> x == vx && y == vy);
    }

    ghost predicate Disturbed(net: NetSpec)
      reads halo, halo.count, viaHalo, viaHalo.count
    {
      net.routed && Indexed(net) && !Undisturbed(net)
    }

    predicate ListsAscend(nets: seq<NetSpec>) {
      forall k :: 0 <= k < |nets| ==> Ascending(nets[k].centerCells) && Ascending(nets[k].viaSites2D)
    }

    lemma NetsAscend(nets: seq<NetSpec>)
      requires NetsOk(nets)
      ensures ListsAscend(nets)
    {
      hide Committed, Connects, BridgesLawful, JoinedSome;
      forall k | 0 <= k < |nets|
        ensures Ascending(nets[k].centerCells) && Ascending(nets[k].viaSites2D)
      {
        assert NetOk(nets[k]);
      }
    }

    // -- The board of a pass, as a list of nets

    /** Another net's halo covers one of the net's centre cells or via sites. */
    ghost predicate CrowdedAmong(nets: seq<NetSpec>, net: NetSpec) {
      || (exists id :: id in net.centerCells && Tally(HaloRecords(nets), id) > 1)
      || (exists id :: id in net.viaSites2D && Tally(ViaHaloRecords(nets), id) > 1)
    }

    /** The nets a later pass takes up again: those not routed and those that are crowded. */
    ghost predicate TakenUp(nets: seq<NetSpec>, k: int) {
      0 <= k < |nets| && (!nets[k].routed || CrowdedAmong(nets, nets[k]))
    }

    lemma CountersTellCrowds(k: nat)
      requires Valid() && k < |nets|
      ensures TakenUp(nets, k) <==> !nets[k].routed || Disturbed(nets[k])
    {
      NetsAreIndexed(nets);
      hide NetsOk, Parameters, Counted, Indexed, Undisturbed, CrowdedAmong, Separate, Buffers.Valid, HistoryGrows;
      CountersTellCrowd(nets[k]);
    }

    lemma CountersTellCrowd(net: NetSpec)
      requires Counted(nets) && Indexed(net)
      ensures CrowdedAmong(nets, net) <==> !Undisturbed(net)
    {
      hide HaloRecords, ViaHaloRecords, Tally;
      if !Undisturbed(net) {
        if j :| 0 <= j < |net.centerCells| && halo.count[net.centerCells[j]] > 1 {
          assert net.centerCells[j] in net.centerCells;
        } else {
          var j :| 0 <= j < |net.viaSites2D| && viaHalo.count[net.viaSites2D[j]] > 1;
          assert net.viaSites2D[j] in net.viaSites2D;
        }
      }
    }

    /** What a net adds to the history of a cell `id` in column `pid`: one and a half for every other net there. */
    ghost function Charge(all: seq<NetSpec>, net: NetSpec, id: int, pid: int): (r: real) {
      (if id in net.centerCells then Penalty(Tally(HaloRecords(all), id)) else 0.0) +
      (if pid in net.viaSites2D then Penalty(Tally(ViaHaloRecords(all), pid)) else 0.0)
    }

    ghost function Charges(all: seq<NetSpec>, nets: seq<NetSpec>, id: int, pid: int): real {
      if nets == [] then 0.0
      else
        var last := nets[|nets| - 1];
        Charges(all, nets[..|nets| - 1], id, pid) + (if last.routed then Charge(all, last, id, pid) else 0.0)
    }

    /** The history after a survey: every routed net has added its charges, and nothing else changed. */
    ghost predicate Surveyed(nets: seq<NetSpec>, history: seq<real>, history': seq<real>) {
      SurveyedUpto(nets, nets, history, history')
    }

    ghost predicate SurveyedUpto(all: seq<NetSpec>, nets: seq<NetSpec>, history: seq<real>, history': seq<real>) {
      && |history'| == |history|
      && forall c {:trigger NodeIdx(size, c)} :: Inside(size, c) && 0 <= NodeIdx(size, c) < |history| ==>
           history'[NodeIdx(size, c)] ==
           history[NodeIdx(size, c)] + Charges(all, nets, NodeIdx(size, c), PlaneIdx(size, c.x, c.y))
    }

    lemma NothingSurveyed(all: seq<NetSpec>, history: seq<real>)
      ensures SurveyedUpto(all, [], history, history)
    {
    }

    lemma SkipUnrouted(all: seq<NetSpec>, i: nat, history: seq<real>, history': seq<real>)
      requires i < |all| && !all[i].routed && SurveyedUpto(all, all[..i], history, history')
      ensures SurveyedUpto(all, all[..i + 1], history, history')
    {
      assert all[..i + 1][..i] == all[..i];
      hide NodeIdx, PlaneIdx, Inside, Charge;
    }

    lemma HeapCharge(net: NetSpec, id: int, pid: int)
      requires Counted(nets) && 0 <= id < halo.count.Length && 0 <= pid < viaHalo.count.Length
      ensures CentrePenalty(net.centerCells, id) + SitePenalty(net.viaSites2D, pid) == Charge(nets, net, id, pid)
    {
      hide HaloRecords, ViaHaloRecords, Tally;
    }

    lemma ChargeRouted(i: nat, history: seq<real>, was: seq<real>, now: seq<real>)
      requires Counted(nets) && Separate() && i < |nets| && nets[i].routed
      requires |history| == |was| == |now| == TotalCells(size) && SurveyedUpto(nets, nets[..i], history, was)
      requires forall c {:trigger NodeIdx(size, c)} :: Inside(size, c) ==>
                 var id, pid := NodeIdx(size, c), PlaneIdx(size, c.x, c.y);
                 && 0 <= id < |now| && 0 <= pid < viaHalo.count.Length
                 && now[id] == was[id] + CentrePenalty(nets[i].centerCells, id) + SitePenalty(nets[i].viaSites2D, pid)
      ensures SurveyedUpto(nets, nets[..i + 1], history, now)
    {
      assert nets[..i + 1][..i] == nets[..i];
      hide NodeIdx, PlaneIdx, Inside, Charge, CentrePenalty, SitePenalty, Counted, TotalCells, PlaneCells;
      forall c | Inside(size, c) && 0 <= NodeIdx(size, c) < |history|
        ensures now[NodeIdx(size, c)] == history[NodeIdx(size, c)]
                                           + Charges(nets, nets[..i + 1], NodeIdx(size, c), PlaneIdx(size, c.x, c.y))
      {
        HeapCharge(nets[i], NodeIdx(size, c), PlaneIdx(size, c.x, c.y));
      }
    }

    /** The survey at the head of a pass. */
    method Assess() returns (anyCongestion: bool, allRouted: bool)
      requires Valid()
      modifies historyCost
      ensures Valid()
      ensures anyCongestion <==> exists k :: 0 <= k < |nets| && Disturbed(nets[k])
      ensures !anyCongestion ==> historyCost[..] == old(historyCost[..])
      ensures allRouted <==> forall k :: 0 <= k < |nets| ==> nets[k].routed
      ensures Surveyed(nets, old(historyCost[..]), historyCost[..])
    {
      hide Parameters, Buffers.Valid, Counted, NetsOk, HistoryGrows, Indexed, Undisturbed, TotalCells, PlaneCells,
        NodeIdx, PlaneIdx, Inside, CentrePenalty, SitePenalty, SurveyedUpto;
      ghost var first := historyCost[..];
      NothingSurveyed(nets, first);
      assert nets[..0] == [];
      ParametersPositive();
      NetsAreIndexed(nets);
      assert ListsAscend(nets) by { NetsAscend(nets); }
      anyCongestion, allRouted := false, true;
      for i := 0 to |nets|
        invariant HistoryGrows() && Separate() && buf.Valid() && Counted(nets)
        invariant anyCongestion <==> exists k :: 0 <= k < i && Disturbed(nets[k])
        invariant !anyCongestion ==> historyCost[..] == old(historyCost[..])
        invariant allRouted <==> forall k :: 0 <= k < i ==> nets[k].routed
        invariant SurveyedUpto(nets, nets[..i], first, historyCost[..])
      {
        ghost var was := historyCost[..];
        if !nets[i].routed {
          allRouted := false;
          SkipUnrouted(nets, i, first, was);
        } else {
          var disturbed := Penalise(nets[i]);
          anyCongestion := anyCongestion || disturbed;
          ChargeRouted(i, first, was, historyCost[..]);
        }
      }
      assert nets[..|nets|] == nets;
    }

    /** The nets to rip up, in routing order: those unrouted or disturbed now. */
    method DrawUp(netOrder: seq<nat>) returns (todo: seq<nat>)
      requires Valid() && forall i :: 0 <= i < |netOrder| ==> netOrder[i] < |nets|
      ensures forall k :: k in todo <==> k in netOrder && (!nets[k].routed || Disturbed(nets[k]))
      ensures forall i :: 0 <= i < |todo| ==> todo[i] < |nets|
    {
      NetsAreIndexed(nets);
      hide Valid, Indexed, Undisturbed;
      todo := [];
      for i := 0 to |netOrder|
        invariant forall k :: k in todo <==> k in netOrder[..i] && (!nets[k].routed || Disturbed(nets[k]))
        invariant forall j :: 0 <= j < |todo| ==> todo[j] < |nets|
      {
        var k := netOrder[i];
        assert netOrder[..i + 1] == netOrder[..i] + [k];
        var v := 1;
        if nets[k].routed {
          v := NetViolations(nets[k]);
        }
        if v > 0 {
          todo := todo + [k];
        }
      }
      assert netOrder[..|netOrder|] == netOrder;
    }

    /** Rips up every net that is unrouted or disturbed; the list is drawn up before the first one goes. */
    method RipUpDisturbed(netOrder: seq<nat>) returns (ripped: nat)
      requires Valid() && forall i :: 0 <= i < |netOrder| ==> netOrder[i] < |nets|
      modifies this`nets, halo.count, viaHalo.count, newVia.count
      ensures Valid() && |nets| == old(|nets|)
      ensures forall k :: 0 <= k < |nets| ==>
                nets[k] == if k in netOrder && old(!nets[k].routed || Disturbed(nets[k]))
                           then Ripped(old(nets[k])) else old(nets[k])
      ensures ripped > 0 <==> exists k :: 0 <= k < |nets| && k in netOrder && old(!nets[k].routed || Disturbed(nets[k]))
    {
      var todo := DrawUp(netOrder);
      hide Valid, Disturbed, Ripped;
      ripped := |todo|;
      assert |todo| > 0 <==> exists k :: k in todo by {
        if |todo| > 0 {
          assert todo[0] in todo;
        }
      }
      RipUpAll(todo);
    }

    method RipUpAll(todo: seq<nat>)
      requires Valid() && forall i :: 0 <= i < |todo| ==> todo[i] < |nets|
      modifies this`nets, halo.count, viaHalo.count, newVia.count
      ensures Valid() && |nets| == old(|nets|)
      ensures forall k :: 0 <= k < |nets| ==>
                nets[k] == if k in todo then Ripped(old(nets[k])) else old(nets[k])
    {
      RippedTwice();
      hide Valid, Ripped;
      for i := 0 to |todo|
        invariant Valid() && |nets| == old(|nets|)
        invariant forall k :: 0 <= k < |nets| ==>
                    nets[k] == if k in todo[..i] then Ripped(old(nets[k])) else old(nets[k])
      {
        assert todo[..i + 1] == todo[..i] + [todo[i]];
        RipUpNet(todo[i]);
      }
      assert todo[..|todo|] == todo;
    }

    lemma RippedTwice()
      ensures forall net :: Ripped(Ripped(net)) == Ripped(net)
    {
    }

    /** The board while a pass is at work: the nets in `done` as they end up, the others as they were. */
    ghost function Midway(before: seq<NetSpec>, after: seq<NetSpec>, done: seq<nat>): (m: seq<NetSpec>)
      requires |before| == |after|
      ensures |m| == |before|
      ensures forall j :: 0 <= j < |m| ==> m[j] == if j in done then after[j] else before[j]
    {
      seq(|before|, j requires 0 <= j < |before| => if j in done then after[j] else before[j])
    }

    /** What a pass did to the net at place `p`: it was bridged on the terrain that the nets before it left, and
        is routed exactly when that bridging reported success. */
    ghost predicate Outcome(before: seq<NetSpec>, after: seq<NetSpec>, netOrder: seq<nat>, p: nat, present: real,
                            history: seq<real>)
      requires |before| == |after| && p < |netOrder| && netOrder[p] < |after| && gridMm > 0.0
    {
      var net := after[netOrder[p]];
      var among := Midway(before, after, netOrder[..p]);
      exists order :: Routing(TerrainAmong(among, net.id, present, history), CellCentre, net, order, net.routed)
    }

    /** A pass takes the nets in order and leaves routed ones alone. */
    ghost predicate PassDone(before: seq<NetSpec>, after: seq<NetSpec>, netOrder: seq<nat>, present: real,
                             history: seq<real>)
      requires gridMm > 0.0
    {
      && SameNets(before, after)
      && (forall k :: 0 <= k < |before| && (before[k].routed || k !in netOrder) ==> after[k] == before[k])
      && (forall p :: 0 <= p < |netOrder| && netOrder[p] < |before| && !before[netOrder[p]].routed ==>
            Outcome(before, after, netOrder, p, present, history))
    }

    lemma RoutingKeeps(t: Terrain, a: NetSpec, b: NetSpec, order: seq<int>, ok: bool)
      requires Routing(t, CellCentre, a, order, ok) && SameNet(a, b) && a.bridges == b.bridges
      ensures Routing(t, CellCentre, b, order, ok)
    {
      hide Bridged, Stuck, GoalCells, Islands;
    }

    /** Bridges one net and commits it on success. */
    method RouteOne(k: nat, present: real) returns (ghost order: seq<int>)
      requires Valid() && k < |nets| && !nets[k].routed && present >= 0.0
      modifies this`nets, buf, buf.Arrays(), halo, viaHalo, newVia, halo.Arrays(), viaHalo.Arrays(), newVia.Arrays()
      ensures Valid() && |nets| == old(|nets|) && nets == old(nets)[k := nets[k]] && SameNet(nets[k], old(nets[k]))
      ensures gridMm > 0.0
      ensures Routing(TerrainAmong(old(nets), nets[k].id, present, historyCost[..]), CellCentre, nets[k], order,
                      nets[k].routed)
    {
      hide Valid, Bridged, Stuck, TerrainFor, TerrainAmong, Connects, Routing, JoinedSome, BridgesStepwise,
        BridgesLawful;
      ValidIsPositive();
      ghost var t := TerrainFor(nets[k].id, present);
      assert t ==
             TerrainAmong(nets, nets[k].id, present, historyCost[..]) by { ValidTellsTerrain(nets[k].id, present); }
      var ok;
      ok, order := RouteNet(k, present);
      ghost var net := nets[k];
      assert Routing(t, CellCentre, net, order, ok);
      if ok {
        RoutedJoinsSome(t, CellCentre, net, order);
        BridgedConnects(t, net.copper, CellCentre, net.startIsland, net.bridges, order);
        CommitNet(k);
        RoutingKeeps(t, net, nets[k], order, ok);
      }
    }

    lemma ValidTellsTerrain(netId: int, present: real)
      requires Valid()
      ensures gridMm > 0.0 && TerrainFor(netId, present) == TerrainAmong(nets, netId, present, historyCost[..])
    {
      hide NetsOk, HistoryGrows, Buffers.Valid, TerrainFor, TerrainAmong;
      CountersTellTerrain(netId, present);
    }

    /** Routes every net that is not routed, committing each before the next is searched; routed nets keep theirs. */
    method RouteUnrouted(netOrder: seq<nat>, present: real)
      requires Valid() && present >= 0.0 && Distinct(netOrder)
      requires forall i :: 0 <= i < |netOrder| ==> netOrder[i] < |nets|
      modifies this`nets, buf, buf.Arrays(), halo, viaHalo, newVia, halo.Arrays(), viaHalo.Arrays(), newVia.Arrays()
      ensures Valid() && gridMm > 0.0 && PassDone(old(nets), nets, netOrder, present, historyCost[..])
    {
      hide Valid, Routing, TerrainAmong, CellCentre;
      ValidIsPositive();
      ghost var before, history := nets, historyCost[..];
      for i := 0 to |netOrder|
        invariant Valid() && SameNets(before, nets)
        invariant forall k :: 0 <= k < |nets| && (before[k].routed || k !in netOrder[..i]) ==> nets[k] == before[k]
        invariant forall p :: 0 <= p < i && !before[netOrder[p]].routed ==>
                    Outcome(before, nets, netOrder, p, present, history)
      {
        var k := netOrder[i];
        assert k !in netOrder[..i];
        assert netOrder[..i + 1] == netOrder[..i] + [k];
        if !nets[k].routed {
          ghost var was := nets;
          assert was == Midway(before, was, netOrder[..i]);
          ghost var order := RouteOne(k, present);
          assert Midway(before, nets, netOrder[..i]) == was;
          assert Outcome(before, nets, netOrder, i, present, history);
          forall p | 0 <= p < i && !before[netOrder[p]].routed
            ensures Outcome(before, nets, netOrder, p, present, history)
          {
            EarlierOutcome(before, was, nets, netOrder, p, i, present, history);
          }
        }
      }
      assert netOrder[..|netOrder|] == netOrder;
    }

    lemma EarlierOutcome(before: seq<NetSpec>, was: seq<NetSpec>, after: seq<NetSpec>, netOrder: seq<nat>,
                         p: nat, i: nat, present: real, history: seq<real>)
      requires |before| == |was| == |after| && p < i < |netOrder| && Distinct(netOrder) && gridMm > 0.0
      requires netOrder[p] < |was| && netOrder[i] < |was| && after == was[netOrder[i] := after[netOrder[i]]]
      requires Outcome(before, was, netOrder, p, present, history)
      ensures Outcome(before, after, netOrder, p, present, history)
    {
      hide Routing, TerrainAmong, CellCentre;
      assert netOrder[i] !in netOrder[..p] && netOrder[p] != netOrder[i];
      var among := Midway(before, was, netOrder[..p]);
      assert among == Midway(before, after, netOrder[..p]);
      var net := was[netOrder[p]];
      assert net == after[netOrder[p]];
      var order :| Routing(TerrainAmong(among, net.id, present, history), CellCentre, net, order, net.routed);
      assert Routing(TerrainAmong(among, after[netOrder[p]].id, present, history), CellCentre, after[netOrder[p]],
                     order,
                     net.routed);
    }

    lemma {:induction false} NoViolationsLeft(nets: seq<NetSpec>)
      requires forall k :: 0 <= k < |nets| ==> Indexed(nets[k])
      ensures Violations(nets) == 0 <==> forall k :: 0 <= k < |nets| ==> !Disturbed(nets[k])
    {
      if nets != [] {
        var n := |nets| - 1;
        NoViolationsLeft(nets[..n]);
        assert NetViolationsOf(nets[n]) == 0 <==> Undisturbed(nets[n]);
        hide NetViolationsOf, Undisturbed, Indexed;
        assert forall k :: 0 <= k < n ==> nets[..n][k] == nets[k];
      }
    }

    lemma NoNetsNoViolations()
      ensures Violations([]) == 0
    {
    }

    lemma OneMoreNet(nets: seq<NetSpec>, i: nat)
      requires i < |nets|
      ensures Violations(nets[..i + 1]) ==
              Violations(nets[..i]) + (if nets[i].routed then NetViolationsOf(nets[i]) else 0)
    {
      hide NetViolationsOf;
      assert nets[..i + 1][..i] == nets[..i];
    }

    method CountViolations() returns (drc: nat)
      requires Valid()
      ensures drc == Violations(nets) && (drc == 0 <==> forall k :: 0 <= k < |nets| ==> !Disturbed(nets[k]))
    {
      NetsAreIndexed(nets);
      NoViolationsLeft(nets);
      hide Valid, Indexed, Disturbed, Violations;
      drc := SumViolations();
    }

    method SumViolations() returns (drc: nat)
      requires forall k :: 0 <= k < |nets| ==> Indexed(nets[k])
      ensures drc == Violations(nets)
    {
      hide Indexed, Undisturbed, NetViolationsOf, Violations;
      drc := 0;
      assert Violations(nets[..0]) == 0 by { NoNetsNoViolations(); }
      for i := 0 to |nets|
        invariant drc == Violations(nets[..i])
      {
        OneMoreNet(nets, i);
        if nets[i].routed {
          var v := NetViolations(nets[i]);
          drc := drc + v;
        }
      }
      assert nets[..|nets|] == nets;
    }

    function Reversed(order: seq<nat>): (r: seq<nat>)
      ensures Backwards(order, r)
    {
      if order == [] then [] else Reversed(order[1..]) + [order[0]]
    }

    predicate Backwards(a: seq<nat>, b: seq<nat>) {
      |b| == |a| && forall i :: 0 <= i < |b| ==> b[i] == a[|a| - 1 - i]
    }

    /** Sharing a cell costs more from pass to pass. */
    function PresentFactor(pass: nat): (f: real)
      ensures f >= 1.0 && (pass == 0 ==> f == 1.0)
      ensures pass > 0 ==> f == PresentFactor(pass - 1) + 2.5
    {
      1.0 + pass as real * 2.5
    }

    lemma NoChange(nets: seq<NetSpec>)
      ensures SameNets(nets, nets)
    {
    }

    lemma ChangesAdd(a: seq<NetSpec>, b: seq<NetSpec>, c: seq<NetSpec>)
      requires SameNets(a, b) && SameNets(b, c)
      ensures SameNets(a, c)
    {
      forall k | 0 <= k < |a|
        ensures SameNet(a[k], c[k])
      {
        assert SameNet(a[k], b[k]) && SameNet(b[k], c[k]);
      }
    }

    lemma SameNetCount(a: seq<NetSpec>, b: seq<NetSpec>)
      requires SameNets(a, b)
      ensures |a| == |b|
    {
    }

    lemma PassKeeps(before: seq<NetSpec>, after: seq<NetSpec>, netOrder: seq<nat>, present: real, history: seq<real>)
      requires gridMm > 0.0 && PassDone(before, after, netOrder, present, history)
      ensures SameNets(before, after)
    {
      hide Outcome;
    }

    predicate Permutation(order: seq<nat>, n: nat) {
      |order| == n && Distinct(order) && forall i :: 0 <= i < |order| ==> order[i] < n
    }

    /** Nothing of the net is on the board. */
    predicate Bare(net: NetSpec) {
      Blank(net) && !net.routed && net.bridges == []
    }

    // -- Whole passes

    /** A later pass first takes up the unrouted and the crowded nets; the first one takes up none. */
    ghost predicate RippedUp(begun: seq<NetSpec>, found: seq<NetSpec>, pass: nat) {
      && |found| == |begun|
      && forall k :: 0 <= k < |found| ==>
           if pass > 0 && TakenUp(begun, k) then SameNet(begun[k], found[k]) && Bare(found[k])
           else found[k] == begun[k]
    }

    /** The order is read backwards whenever nets were taken up. */
    ghost predicate Reordered(begun: seq<NetSpec>, order: seq<nat>, order': seq<nat>, pass: nat) {
      if pass > 0 && (exists k :: TakenUp(begun, k)) then Backwards(order, order') else order' == order
    }

    /** One pass from the nets `begun` to `ended`. */
    ghost predicate PassRun(begun: seq<NetSpec>, found: seq<NetSpec>, ended: seq<NetSpec>, order: seq<nat>,
                            order': seq<nat>, pass: nat, history: seq<real>)
      requires gridMm > 0.0
    {
      && RippedUp(begun, found, pass) && Reordered(begun, order, order', pass) && Permutation(order', |begun|)
      && PassDone(found, ended, order', PresentFactor(pass), history)
    }

    lemma RippedIsBare(net: NetSpec)
      ensures SameNet(net, Ripped(net)) && Bare(Ripped(net))
    {
    }

    lemma AllTakenUp(order: seq<nat>)
      requires Valid() && Permutation(order, |nets|)
      ensures forall k :: 0 <= k < |nets| ==> (TakenUp(nets, k) <==> !nets[k].routed || Disturbed(nets[k]))
      ensures forall k :: TakenUp(nets, k) ==> 0 <= k < |nets|
      ensures forall k :: 0 <= k < |nets| ==> k in order
    {
      hide Valid, Disturbed;
      assert forall k :: TakenUp(nets, k) ==> 0 <= k < |nets|;
      hide TakenUp;
      forall k | 0 <= k < |nets|
        ensures TakenUp(nets, k) <==> !nets[k].routed || Disturbed(nets[k])
      {
        CountersTellCrowds(k);
      }
      PermutationCovers(order, |nets|);
    }

    lemma PermutationCovers(order: seq<nat>, n: nat)
      requires Permutation(order, n)
      ensures forall k :: 0 <= k < n ==> k in order
    {
      DistinctElements(order);
      if exists k :: 0 <= k < n && k !in order {
        var k :| 0 <= k < n && k !in order;
        assert Elements(order) <= Upto(n) - {k};
        SubsetSize(Elements(order), Upto(n) - {k});
      }
    }

    lemma RippingKeeps(begun: seq<NetSpec>, found: seq<NetSpec>, pass: nat)
      requires RippedUp(begun, found, pass)
      ensures SameNets(begun, found)
    {
      hide TakenUp;
    }

    /** The rest of one pass: disturbed and unrouted nets go, then unrouted ones are routed. `found` is what the
        routing started from. */
    method RoutePass(order: seq<nat>, pass: nat) returns (order': seq<nat>, ghost found: seq<NetSpec>)
      requires Valid() && Permutation(order, |nets|)
      modifies this`nets, buf, buf.Arrays(), halo, viaHalo, newVia, halo.Arrays(), viaHalo.Arrays(), newVia.Arrays()
      ensures Valid() && gridMm > 0.0 && SameNets(old(nets), nets)
      ensures PassRun(old(nets), found, nets, order, order', pass, historyCost[..])
    {
      hide Valid, Disturbed, PassDone, SameNet, TakenUp, PresentFactor, Permutation, Ripped, Bare;
      order' := order;
      ghost var before := nets;
      AllTakenUp(order);
      PermutationIndexes(order, |nets|);
      if pass > 0 {
        var ripped := RipUpDisturbed(order);
        forall k | 0 <= k < |nets| && TakenUp(before, k)
          ensures SameNet(before[k], nets[k]) && Bare(nets[k])
        {
          RippedIsBare(before[k]);
        }
        if ripped > 0 {
          order' := Reversed(order);
        }
        ReversedPermutes(order, |nets|);
      }
      assert Reordered(before, order, order', pass);
      found := nets;
      PermutationIndexes(order', |nets|);
      RippingKeeps(before, found, pass);
      RouteUnrouted(order', PresentFactor(pass));
      PassKeeps(found, nets, order', PresentFactor(pass), historyCost[..]);
      ChangesAdd(before, found, nets);
    }

    lemma PermutationIndexes(order: seq<nat>, n: nat)
      requires Permutation(order, n)
      ensures Distinct(order) && forall i :: 0 <= i < |order| ==> order[i] < n
    {
    }

    lemma ReversedPermutes(order: seq<nat>, n: nat)
      requires Permutation(order, n)
      ensures Permutation(Reversed(order), n)
    {
    }

    /** Every turn goes on from the one before with the history its survey leaves; later turns only begin while some
        net is unrouted or crowded. */
    ghost predicate Run(given: seq<NetSpec>, history: seq<real>, run: seq<Turn>)
      requires gridMm > 0.0
    {
      forall p :: 0 <= p < |run| ==> TurnTaken(given, history, run, p)
    }

    ghost predicate TurnTaken(given: seq<NetSpec>, history: seq<real>, run: seq<Turn>, p: nat)
      requires gridMm > 0.0 && p < |run|
    {
      var t := run[p];
      && t.begun == (if p == 0 then given else run[p - 1].ended)
      && NetsOk(t.begun) && (p > 0 ==> exists k :: TakenUp(t.begun, k))
      && Surveyed(t.begun, if p == 0 then history else run[p - 1].history, t.history)
      && PassRun(t.begun, t.found, t.ended, if p == 0 then InTurn(|given|) else run[p - 1].order, t.order, p, t.history)
    }

    function InTurn(n: nat): (order: seq<nat>)
      ensures |order| == n && forall i :: 0 <= i < n ==> order[i] == i
    {
      seq(n, i => i)
    }

    lemma TurnAdded(given: seq<NetSpec>, history: seq<real>, run: seq<Turn>, t: Turn)
      requires gridMm > 0.0 && Run(given, history, run)
      requires TurnTaken(given, history, run + [t], |run|)
      ensures Run(given, history, run + [t])
    {
      hide Surveyed, PassRun, TakenUp, NetsOk;
      var run' := run + [t];
      forall p | 0 <= p < |run'|
        ensures TurnTaken(given, history, run', p)
      {
        if p < |run| {
          assert TurnTaken(given, history, run, p);
        }
      }
    }

    lemma TurnIsTaken(given: seq<NetSpec>, history: seq<real>, run: seq<Turn>, t: Turn, past: seq<real>,
                      before: seq<nat>)
      requires gridMm > 0.0 && t.begun == (if run == [] then given else run[|run| - 1].ended)
      requires past == (if run == [] then history else run[|run| - 1].history) && Surveyed(t.begun, past, t.history)
      requires before == if run == [] then InTurn(|given|) else run[|run| - 1].order
      requires NetsOk(t.begun) && (run != [] ==> exists k :: TakenUp(t.begun, k))
      requires PassRun(t.begun, t.found, t.ended, before, t.order, |run|, t.history)
      ensures TurnTaken(given, history, run + [t], |run|)
    {
      hide Surveyed, PassRun, TakenUp, InTurn, NetsOk;
      assert run != [] ==> (run + [t])[|run| - 1] == run[|run| - 1];
    }

    /** The first pass takes nothing up and keeps the order. */
    lemma FirstPassRun(begun: seq<NetSpec>, found: seq<NetSpec>, ended: seq<NetSpec>, order: seq<nat>,
                       order': seq<nat>, history: seq<real>)
      requires gridMm > 0.0 && PassRun(begun, found, ended, order, order', 0, history)
      ensures PassDone(begun, ended, order, 1.0, history)
    {
      hide PassDone, TakenUp;
      assert found == begun;
    }

    lemma PassPermutes(begun: seq<NetSpec>, found: seq<NetSpec>, ended: seq<NetSpec>, order: seq<nat>,
                       order': seq<nat>, pass: nat, history: seq<real>)
      requires gridMm > 0.0 && PassRun(begun, found, ended, order, order', pass, history)
      ensures Permutation(order', |begun|)
    {
    }

    lemma RunIsDone(order: seq<nat>)
      requires Valid() && Permutation(order, |nets|)
      ensures (exists k :: TakenUp(nets, k)) <==>
              exists k :: 0 <= k < |nets| && (!nets[k].routed || Disturbed(nets[k]))
    {
      AllTakenUp(order);
      hide Valid, Disturbed;
    }

    /** The whole run. Whatever the passes did, the bookkeeping invariant holds and the nets are the ones given; the
        final count is the number of shared copper cells and via sites, zero exactly when no routed net is disturbed.
        The passes are a run: each takes up exactly the unrouted and crowded nets of the one before, bridges them
        anew in the order reversed and leaves the others alone. It stops early as soon as there are none. */
    method RoutePasses(maxPasses: nat) returns (passesRun: nat, drc: nat, ghost run: seq<Turn>)
      requires Valid() && forall k :: 0 <= k < |nets| ==> !nets[k].routed
      modifies this`nets, historyCost, buf, buf.Arrays(), halo, viaHalo, newVia,
               halo.Arrays(), viaHalo.Arrays(), newVia.Arrays()
      ensures Valid() && SameNets(old(nets), nets)
      ensures drc == Violations(nets) && (drc == 0 <==> forall k :: 0 <= k < |nets| ==> !Disturbed(nets[k]))
      ensures gridMm > 0.0 && |run| == passesRun <= maxPasses && Run(old(nets), old(historyCost[..]), run)
      ensures nets == if run == [] then old(nets) else run[|run| - 1].ended
      ensures maxPasses > 0 ==> passesRun > 0
      ensures passesRun < maxPasses ==> drc == 0 && forall k :: 0 <= k < |nets| ==> nets[k].routed
    {
      hide Valid, Disturbed, PassRun, SameNet, Violations, TakenUp, Surveyed, TurnTaken, NetsOk;
      ValidIsPositive();
      ghost var given, first, past := nets, historyCost[..], historyCost[..];
      var order := InTurn(|nets|);
      assert Permutation(order, |nets|);
      hide Permutation, SameNets;
      passesRun, run := 0, [];
      NoChange(nets);
      while passesRun < maxPasses
        invariant Valid() && SameNets(given, nets) && |run| == passesRun <= maxPasses
        invariant Permutation(order, |nets|) && Run(given, first, run)
        invariant nets == if run == [] then given else run[|run| - 1].ended
        invariant historyCost[..] == if run == [] then first else run[|run| - 1].history
        invariant order == if run == [] then InTurn(|given|) else run[|run| - 1].order
      {
        past := historyCost[..];
        var anyCongestion, allRouted := Assess();
        if passesRun > 0 && !anyCongestion && allRouted {
          break;
        }
        RunIsDone(order);
        ValidNetsOk();
        ghost var begun, before := nets, order;
        ghost var found;
        order, found := RoutePass(order, passesRun);
        ghost var t := Turn(begun, historyCost[..], found, order, nets);
        assert TurnTaken(given, first, run + [t], |run|) by { TurnIsTaken(given, first, run, t, past, before); }
        TurnAdded(given, first, run, t);
        run := run + [t];
        ChangesAdd(given, begun, nets);
        SameNetCount(begun, nets);
        PassPermutes(begun, found, nets, before, order, passesRun, historyCost[..]);
        passesRun := passesRun + 1;
      }
      drc := CountViolations();
    }
  }
}

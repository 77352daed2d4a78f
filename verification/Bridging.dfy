/** What an island-to-island bridge is: legal moves over net ownership, their congestion cost, and the
    octile heuristic that steers the search. Costs are exact reals. */
module Bridging {
  import opened Grid

  /** Everything one search reads: the ownership and counters at its start, the net, and the goal cells. */
  datatype Terrain = Terrain(
    size: Size,
    netId: int,
    owner: Cell -> int,
    viaOwner: (int, int) -> int,
    halo: Cell -> int,
    viaHalo: (int, int) -> int,
    newVia: (int, int) -> int,
    history: Cell -> real,
    present: real,
    viaCost: real,
    goals: set<Cell>)
  {
    /** Counters and costs in the ranges the router keeps them in; goals lie on the grid. */
    ghost predicate Valid() {
      && present >= 0.0 && viaCost >= 0.0
      && (forall c :: c in goals ==> Inside(size, c))
      && (forall c :: history(c) >= 1.0)
      && (forall c :: halo(c) >= 0)
      && (forall x, y :: viaHalo(x, y) >= 0)
    }

    predicate Blocked(c: Cell) {
      owner(c) != 0 && owner(c) != netId
    }

    predicate Enterable(c: Cell) {
      c in goals || !Blocked(c)
    }

    predicate PlanarOk(c: Cell, d: nat) {
      var to := Target(c, Planar(d));
      && d < DIRECTIONS
      && Inside(size, to) && Enterable(to)
      && (d >= FIRST_DIAGONAL ==> !Blocked(Cell(c.l, c.x, to.y)) && !Blocked(Cell(c.l, to.x, c.y)))
    }

    predicate ViaAllowed(x: int, y: int) {
      (viaOwner(x, y) == 0 || viaOwner(x, y) == netId) && newVia(x, y) <= 0
    }

    predicate ViaOk(c: Cell, layer: int) {
      && 0 <= layer < size.layers && layer != c.l
      && ViaAllowed(c.x, c.y)
      && Enterable(Target(c, Via(layer)))
    }

    predicate Legal(c: Cell, m: Move) {
      match m
      case Planar(d) => PlanarOk(c, d)
      case Via(layer) => ViaOk(c, layer)
    }

    function Congestion(c: Cell, d: nat): real {
      var to := Target(c, Planar(d));
      1.0 + halo(to) as real * present +
      (if d >= FIRST_DIAGONAL
       then 0.5 * (halo(Cell(c.l, c.x, to.y)) + halo(Cell(c.l, to.x, c.y))) as real * present
       else 0.0)
    }

    function Cost(c: Cell, m: Move): real {
      match m
      case Planar(d) => StepLength(d) * history(Target(c, m)) * Congestion(c, d)
      case Via(_) =>
        viaCost * history(Target(c, m)) * (1.0 + (halo(Target(c, m)) + viaHalo(c.x, c.y)) as real * present)
    }
  }

  const DIAGONAL_EXTRA: real := 0.41421356

  function StepLength(d: nat): real {
    if d >= FIRST_DIAGONAL then 1.0 + DIAGONAL_EXTRA else 1.0
  }

  // ---- Walks -------------------------------------------------------------------------------

  function End(from: Cell, moves: seq<Move>): Cell {
    if moves == [] then from
    else Target(End(from, moves[..|moves| - 1]), moves[|moves| - 1])
  }

  ghost predicate Walk(t: Terrain, from: Cell, moves: seq<Move>) {
    moves != [] ==>
      && Walk(t, from, moves[..|moves| - 1])
      && t.Legal(End(from, moves[..|moves| - 1]), moves[|moves| - 1])
  }

  function WalkCost(t: Terrain, from: Cell, moves: seq<Move>): real {
    if moves == [] then 0.0
    else WalkCost(t, from, moves[..|moves| - 1]) + t.Cost(End(from, moves[..|moves| - 1]), moves[|moves| - 1])
  }

  // ---- What halos add to a step --------------------------------------------------------------

  /** The price of a step where no other net is near. */
  ghost function Fare(t: Terrain, c: Cell, m: Move): real {
    match m
    case Planar(d) => (if d < 4 then 1.0 else 1.41421356) * t.history(Target(c, m))
    case Via(_) => t.viaCost * t.history(Target(c, m))
  }

  /** How much of a cover a step meets: the cell it enters in full, each corner a diagonal passes by half, and for
      a via the column's own cover in full. */
  ghost function Crossing(on: Cell -> int, site: (int, int) -> int, c: Cell, m: Move): real {
    var to := Target(c, m);
    match m
    case Planar(d) =>
      on(to) as real +
      (if d < 4 then 0.0 else 0.5 * on(Cell(c.l, c.x, to.y)) as real + 0.5 * on(Cell(c.l, to.x, c.y)) as real)
    case Via(_) => on(to) as real + site(c.x, c.y) as real
  }

  lemma Spread(f: real, h: real, n: real, p: real)
    ensures f * h * (1.0 + n * p) == f * h + f * h * p * n
  {
  }

  lemma SpreadCorners(f: real, h: real, n: real, k: real, p: real)
    ensures f * h * (1.0 + n * p + 0.5 * k * p) == f * h + f * h * p * (n + 0.5 * k)
  {
    assert n * p + 0.5 * k * p == (n + 0.5 * k) * p;
    Spread(f, h, n + 0.5 * k, p);
  }

  /** The price of a step is linear in the halos it meets. */
  lemma CostIsLinear(t: Terrain, c: Cell, m: Move)
    ensures t.Cost(c, m) == Fare(t, c, m) + Fare(t, c, m) * t.present * Crossing(t.halo, t.viaHalo, c, m)
  {
    var to := Target(c, m);
    match m
    case Planar(d) =>
      if d < 4 {
        Spread(1.0, t.history(to), t.halo(to) as real, t.present);
      } else {
        SpreadCorners(1.41421356, t.history(to), t.halo(to) as real, CornerHalos(t, c, to) as real, t.present);
      }
    case Via(_) =>
      Spread(t.viaCost, t.history(to), (t.halo(to) + t.viaHalo(c.x, c.y)) as real, t.present);
  }

  /** Two terrains that differ only in what the copper of other nets covers. */
  ghost predicate SameBoard(t: Terrain, u: Terrain) {
    u == t.(halo := u.halo, viaHalo := u.viaHalo, newVia := u.newVia)
  }

  /** More cover makes a step dearer by its fare for every cell of it, in the measure in which it is met. */
  lemma CoverAdds(t: Terrain, u: Terrain, on: Cell -> int, site: (int, int) -> int, c: Cell, m: Move)
    requires SameBoard(t, u)
    requires forall d :: u.halo(d) == t.halo(d) + on(d)
    requires forall x, y :: u.viaHalo(x, y) == t.viaHalo(x, y) + site(x, y)
    ensures u.Cost(c, m) == t.Cost(c, m) + Fare(t, c, m) * t.present * Crossing(on, site, c, m)
  {
    CostIsLinear(t, c, m);
    CostIsLinear(u, c, m);
    var a, b := Crossing(t.halo, t.viaHalo, c, m), Crossing(on, site, c, m);
    assert Crossing(u.halo, u.viaHalo, c, m) == a + b;
    var f := Fare(t, c, m) * t.present;
    hide *;
    assert f * (a + b) == f * a + f * b;
  }

  /** Exactly one counter is higher by one. */
  ghost predicate OneMoreHalo(t: Terrain, u: Terrain, at: Cell) {
    && SameBoard(t, u) && u.viaHalo == t.viaHalo
    && forall d :: u.halo(d) == t.halo(d) + (if d == at then 1 else 0)
  }

  ghost predicate OneMoreViaHalo(t: Terrain, u: Terrain, x: int, y: int) {
    && SameBoard(t, u) && u.halo == t.halo
    && forall x', y' :: u.viaHalo(x', y') == t.viaHalo(x', y') + (if x' == x && y' == y then 1 else 0)
  }

  ghost predicate PassesCorner(c: Cell, m: Move, at: Cell) {
    var to := Target(c, m);
    m.Planar? && 4 <= m.d < 8 && (at == Cell(c.l, c.x, to.y) || at == Cell(c.l, to.x, c.y))
  }

  /** One more halo on a cell charges the length of a planar step into it once more, of a diagonal step past it half
      of that, and of a via into it the via cost; all other steps cost the same. */
  lemma HaloRaisesCost(t: Terrain, u: Terrain, at: Cell, c: Cell, m: Move)
    requires OneMoreHalo(t, u, at) && (m.Planar? ==> m.d < 8)
    ensures var length := if m.Via? then t.viaCost else if m.d < 4 then 1.0 else 1.41421356;
            u.Cost(c, m) - t.Cost(c, m) ==
              if Target(c, m) == at then length * t.history(at) * t.present
              else if PassesCorner(c, m, at) then length * t.history(Target(c, m)) * t.present / 2.0
              else 0.0
  {
    var on: Cell -> int := d => if d == at then 1 else 0;
    CoverAdds(t, u, on, (x, y) => 0, c, m);
  }

  /** One more halo of a via's column charges every via there its cost once more, and nothing else. */
  lemma ViaHaloRaisesCost(t: Terrain, u: Terrain, x: int, y: int, c: Cell, m: Move)
    requires OneMoreViaHalo(t, u, x, y)
    ensures u.Cost(c, m) - t.Cost(c, m) ==
            if m.Via? && c.x == x && c.y == y then t.viaCost * t.history(Target(c, m)) * t.present else 0.0
  {
    var site: (int, int) -> int := (x', y') => if x' == x && y' == y then 1 else 0;
    CoverAdds(t, u, d => 0, site, c, m);
  }

  // ---- Heuristic ---------------------------------------------------------------------------

  /** The bounding box of the goal cells. */
  datatype Box = Box(x0: int, x1: int, y0: int, y1: int)

  predicate BoxHolds(b: Box, goals: set<Cell>) {
    forall c :: c in goals ==> b.x0 <= c.x <= b.x1 && b.y0 <= c.y <= b.y1
  }

  function Gap(lo: int, hi: int, v: int): int {
    var below := if lo - v > 0 then lo - v else 0;
    if v - hi > below then v - hi else below
  }

  function Octile(dx: int, dy: int): real {
    if dx >= dy then dx as real + DIAGONAL_EXTRA * dy as real
    else dy as real + DIAGONAL_EXTRA * dx as real
  }

  function Heuristic(b: Box, c: Cell): real {
    Octile(Gap(b.x0, b.x1, c.x), Gap(b.y0, b.y1, c.y))
  }

  /** The estimate counts diagonal steps towards the box and straight ones for the rest. */
  lemma EstimateCounts(b: Box, c: Cell, straight: nat, diagonal: nat)
    requires var x, y := Gap(b.x0, b.x1, c.x), Gap(b.y0, b.y1, c.y);
             (x == straight + diagonal && y == diagonal) || (x == diagonal && y == straight + diagonal)
    ensures Heuristic(b, c) == straight as real + 1.41421356 * diagonal as real
  {
  }

  /** The distance of a coordinate from an interval: some point of it is that far away and none is closer. */
  lemma GapIsDistance(lo: int, hi: int, v: int, w: int) returns (near: int)
    requires lo <= w <= hi
    ensures lo <= near <= hi && (near - v == Gap(lo, hi, v) || v - near == Gap(lo, hi, v))
    ensures Gap(lo, hi, v) >= 0 && (w - v >= Gap(lo, hi, v) || v - w >= Gap(lo, hi, v))
  {
    near := if v < lo then lo else if v > hi then hi else v;
  }

  lemma OctileStep(dx: int, dy: int, dx': int, dy': int)
    requires -1 <= dx - dx' <= 1 && -1 <= dy - dy' <= 1
    ensures Octile(dx, dy) <= Octile(dx', dy') + 1.0 + DIAGONAL_EXTRA
    ensures dx == dx' || dy == dy' ==> Octile(dx, dy) <= Octile(dx', dy') + 1.0
  {
  }

  lemma AtLeast(k: real, a: real, b: real)
    requires k >= 0.0 && a >= 1.0 && b >= 1.0
    ensures k * a * b >= k
  {
    assert k * a >= k;
    assert k * a * b - k * a == (k * a) * (b - 1.0);
  }

  lemma NonNegativeProduct(a: real, b: real)
    requires a >= 0.0 && b >= 0.0
    ensures a * b >= 0.0
  {
  }

  /** Congestion and history only ever add to the geometric length of a step. */
  lemma CostAtLeastLength(t: Terrain, c: Cell, m: Move)
    requires t.Valid()
    ensures m.Planar? ==> t.Cost(c, m) >= StepLength(m.d)
    ensures m.Via? ==> t.Cost(c, m) >= t.viaCost
  {
    var to := Target(c, m);
    match m
    case Planar(d) =>
      var n := CornerHalos(t, c, to);
      NonNegativeProduct(t.halo(to) as real, t.present);
      NonNegativeProduct(0.5 * n as real, t.present);
      AtLeast(StepLength(d), t.history(to), t.Congestion(c, d));
    case Via(_) =>
      var k := (t.halo(to) + t.viaHalo(c.x, c.y)) as real;
      NonNegativeProduct(k, t.present);
      AtLeast(t.viaCost, t.history(to), 1.0 + k * t.present);
  }

  ghost function CornerHalos(t: Terrain, c: Cell, to: Cell): int {
    t.halo(Cell(c.l, c.x, to.y)) + t.halo(Cell(c.l, to.x, c.y))
  }

  /** Consistency: the estimate never drops by more than the cost of the step taken. */
  lemma HeuristicConsistent(t: Terrain, b: Box, c: Cell, m: Move)
    requires t.Valid() && t.Legal(c, m)
    ensures Heuristic(b, c) <= t.Cost(c, m) + Heuristic(b, Target(c, m))
  {
    CostAtLeastLength(t, c, m);
    var to := Target(c, m);
    OctileStep(Gap(b.x0, b.x1, c.x), Gap(b.y0, b.y1, c.y), Gap(b.x0, b.x1, to.x), Gap(b.y0, b.y1, to.y));
  }

  lemma HeuristicZeroOnGoals(t: Terrain, b: Box, c: Cell)
    requires BoxHolds(b, t.goals) && c in t.goals
    ensures Heuristic(b, c) == 0.0
  {
  }
}

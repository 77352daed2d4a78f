/** The multi-source best-first search from the connected copper of a net to its other islands. */
module BridgeSearch {
  import opened Grid
  import opened Bridging
  import opened SearchProof
  import opened SearchBuffers

  /** A seed or goal cell of an island, with the exact copper point it stands for. */
  datatype CopperCell = CopperCell(cell: Cell, island: int, ex: real, ey: real, interior: bool)

  datatype Seed = Seed(cost: real, ex: real, ey: real)

  datatype Bridge = Bridge(cells: seq<Cell>, sx: real, sy: real, ex: real, ey: real)

  datatype Found = NoGoal | NoBridge | Found(bridge: Bridge, copperIdx: nat)

  /** Starting on a track's interior is discouraged by three quarters of a grid step. */
  const INTERIOR_COST: real := 0.75

  // ---- Goals and seeds ---------------------------------------------------------------------

  function GoalCells(copper: seq<CopperCell>, joined: set<int>): (goals: set<Cell>)
    ensures forall i :: 0 <= i < |copper| && copper[i].island !in joined ==> copper[i].cell in goals
    ensures forall c :: c in goals ==>
              exists i :: 0 <= i < |copper| && copper[i].island !in joined && copper[i].cell == c
  {
    set i | 0 <= i < |copper| && copper[i].island !in joined :: copper[i].cell
  }

  /** A seed is added unless its cell is a goal or already a seed. */
  function AddSeed(seeds: map<Cell, Seed>, goals: set<Cell>, c: Cell, s: Seed): map<Cell, Seed> {
    if c in goals || c in seeds then seeds else seeds[c := s]
  }

  function CopperSeeds(copper: seq<CopperCell>, joined: set<int>, goals: set<Cell>): map<Cell, Seed> {
    if copper == [] then map[]
    else
      var rest := CopperSeeds(copper[..|copper| - 1], joined, goals);
      var cc := copper[|copper| - 1];
      if cc.island in joined
      then AddSeed(rest, goals, cc.cell, Seed(if cc.interior then INTERIOR_COST else 0.0, cc.ex, cc.ey))
      else rest
  }

  /** `at` gives the world coordinates of a cell centre. */
  function GrownSeeds(seeds: map<Cell, Seed>, goals: set<Cell>, grown: seq<Cell>,
                      at: Cell -> (real, real)): map<Cell, Seed>
  {
    if grown == [] then seeds
    else
      var c := grown[|grown| - 1];
      AddSeed(GrownSeeds(seeds, goals, grown[..|grown| - 1], at), goals, c, Seed(0.0, at(c).0, at(c).1))
  }

  function AllSeeds(copper: seq<CopperCell>, joined: set<int>, grown: seq<Cell>,
                    at: Cell -> (real, real)): map<Cell, Seed>
  {
    var goals := GoalCells(copper, joined);
    GrownSeeds(CopperSeeds(copper, joined, goals), goals, grown, at)
  }

  function Costs(seeds: map<Cell, Seed>): map<Cell, real> {
    map c | c in seeds :: seeds[c].cost
  }

  lemma {:induction false} CopperSeedsAreJoined(copper: seq<CopperCell>, joined: set<int>, goals: set<Cell>)
    ensures forall c :: c in CopperSeeds(copper, joined, goals) ==>
                          c !in goals &&
                          exists i :: 0 <= i < |copper| && copper[i].island in joined && copper[i].cell == c
  {
    if copper != [] {
      CopperSeedsAreJoined(copper[..|copper| - 1], joined, goals);
      assert copper == copper[..|copper| - 1] + [copper[|copper| - 1]];
      forall c | c in CopperSeeds(copper, joined, goals)
        ensures c !in goals && exists i :: 0 <= i < |copper| && copper[i].island in joined && copper[i].cell == c
      {
        if c in CopperSeeds(copper[..|copper| - 1], joined, goals) {
          var i :| 0 <= i < |copper| - 1 && copper[..|copper| - 1][i].island in joined &&
              copper[..|copper| - 1][i].cell == c;
          assert copper[i].cell == c;
        } else {
          assert copper[|copper| - 1].cell == c;
        }
      }
    }
  }

  lemma {:induction false} GrownSeedsAreGrown(seeds: map<Cell, Seed>, goals: set<Cell>, grown: seq<Cell>,
                                              at: Cell -> (real, real))
    ensures forall c :: c in GrownSeeds(seeds, goals, grown, at) ==> c in seeds || (c in grown && c !in goals)
  {
    if grown != [] {
      GrownSeedsAreGrown(seeds, goals, grown[..|grown| - 1], at);
    }
  }

  /** The first joined copper cell at a place that is no goal gives the seed there: it starts free at an end and at
      three quarters of a step on a track's interior. */
  lemma {:induction false} FirstCopperSeeds(copper: seq<CopperCell>, joined: set<int>, goals: set<Cell>, i: nat)
    requires i < |copper| && copper[i].island in joined && copper[i].cell !in goals
    requires forall j :: 0 <= j < i && copper[j].island in joined ==> copper[j].cell != copper[i].cell
    ensures var cc, seeds := copper[i], CopperSeeds(copper, joined, goals);
            cc.cell in seeds && seeds[cc.cell] == Seed(if cc.interior then 0.75 else 0.0, cc.ex, cc.ey)
  {
    var n := |copper| - 1;
    if i < n {
      FirstCopperSeeds(copper[..n], joined, goals, i);
    } else {
      CopperSeedsAreJoined(copper[..n], joined, goals);
    }
  }

  /** Cells of earlier bridges start free at their centres, unless copper gave a seed there already. */
  lemma {:induction false} GrownStartFree(seeds: map<Cell, Seed>, goals: set<Cell>, grown: seq<Cell>,
                                          at: Cell -> (real, real), c: Cell)
    ensures var all := GrownSeeds(seeds, goals, grown, at);
            && (c in seeds ==> c in all && all[c] == seeds[c])
            && (c !in seeds && c !in goals && c in grown ==> c in all && all[c] == Seed(0.0, at(c).0, at(c).1))
  {
    if grown != [] {
      GrownStartFree(seeds, goals, grown[..|grown| - 1], at, c);
      GrownSeedsAreGrown(seeds, goals, grown[..|grown| - 1], at);
    }
  }

  // ---- The search's result -----------------------------------------------------------------

  /** A legal bridge from a seed to a goal that repeats no cell, whose interior is free of other nets' copper
      and of goals, and that no other legal walk from any seed to any goal undercuts. */
  ghost predicate CheapestBridge(t: Terrain, seeds: map<Cell, real>, cells: seq<Cell>, moves: seq<Move>) {
    && Trail(t, cells, moves)
    && cells[0] in seeds && cells[|moves|] in t.goals
    && (forall i, j :: 0 <= i < j < |cells| ==> cells[i] != cells[j])
    && (forall i :: 1 <= i < |moves| ==> cells[i] !in t.goals && !t.Blocked(cells[i]))
    && (forall s, others :: s in seeds && Walk(t, s, others) && End(s, others) in t.goals ==>
                              seeds[cells[0]] + WalkCost(t, cells[0], moves) <= seeds[s] + WalkCost(t, s, others))
  }

  ghost predicate Unreachable(t: Terrain, seeds: map<Cell, real>) {
    forall s, moves :: s in seeds && Walk(t, s, moves) ==> End(s, moves) !in t.goals
  }

  // ---- Finite grids ------------------------------------------------------------------------

  ghost function Upto(n: nat): (s: set<int>)
    ensures forall i :: i in s <==> 0 <= i < n
    ensures |s| == n
  {
    if n == 0 then {} else Upto(n - 1) + {n - 1}
  }

  ghost function Elements(s: seq<int>): (r: set<int>)
    ensures forall x :: x in r <==> x in s
  {
    if s == [] then {} else
      assert s == s[..|s| - 1] + [s[|s| - 1]];
      Elements(s[..|s| - 1]) + {s[|s| - 1]}
  }

  lemma {:induction false} DistinctElements(s: seq<int>)
    requires forall i, j :: 0 <= i < j < |s| ==> s[i] != s[j]
    ensures |Elements(s)| == |s|
  {
    if s != [] {
      DistinctElements(s[..|s| - 1]);
    }
  }

  lemma SubsetSize<T>(a: set<T>, b: set<T>)
    requires a <= b
    ensures |a| <= |b|
  {
    assert b == a + (b - a);
  }

  /** Distinct cells of the grid are no more than the grid has. */
  lemma DistinctCells(s: Size, cells: seq<Cell>)
    requires forall c :: c in cells ==> Inside(s, c)
    requires forall i, j :: 0 <= i < j < |cells| ==> cells[i] != cells[j]
    ensures |cells| <= TotalCells(s)
  {
    IndexFacts(s);
    hide NodeIdx, TotalCells;
    var idx := seq(|cells|, i requires 0 <= i < |cells| => NodeIdx(s, cells[i]));
    forall i, j | 0 <= i < j < |idx|
      ensures idx[i] != idx[j]
    {
      assert cells[i] in cells && cells[j] in cells;
    }
    DistinctElements(idx);
    SubsetSize(Elements(idx), Upto(TotalCells(s)));
  }

  // ---- Setting up --------------------------------------------------------------------------

  function Grow(b: Box, c: Cell): Box {
    Box(if c.x < b.x0 then c.x else b.x0, if c.x > b.x1 then c.x else b.x1,
        if c.y < b.y0 then c.y else b.y0, if c.y > b.y1 then c.y else b.y1)
  }

  /** Marks every copper cell of every island not yet connected, and boxes them in. */
  method MarkGoals(buf: Buffers, copper: seq<CopperCell>, joined: set<int>) returns (any: bool, b: Box)
    requires buf.Valid() && forall i :: 0 <= i < |copper| ==> Inside(buf.size, copper[i].cell)
    modifies buf, buf.visitGen, buf.markGen, buf.markRef
    ensures buf.Active() && buf.labels == map[]
    ensures any <==> GoalCells(copper, joined) != {}
    ensures BoxHolds(b, GoalCells(copper, joined)) && buf.marks.Keys == GoalCells(copper, joined)
    ensures forall c :: c in buf.marks ==>
              0 <= buf.marks[c] < |copper| && copper[buf.marks[c]].cell == c && copper[buf.marks[c]].island !in joined
  {
    buf.Begin();
    any := false;
    b := Box(0, 0, 0, 0);
    for i := 0 to |copper|
      invariant buf.Active() && buf.labels == map[]
      invariant any <==> buf.marks.Keys != {}
      invariant BoxHolds(b, buf.marks.Keys)
      invariant forall c :: c in buf.marks ==>
                  0 <= buf.marks[c] < i && copper[buf.marks[c]].cell == c && copper[buf.marks[c]].island !in joined
      invariant forall j :: 0 <= j < i && copper[j].island !in joined ==> copper[j].cell in buf.marks
    {
      var cc := copper[i];
      if cc.island !in joined {
        buf.SetMark(cc.cell, i);
        b := if any then Grow(b, cc.cell) else Box(cc.cell.x, cc.cell.x, cc.cell.y, cc.cell.y);
        any := true;
        assert cc.cell in buf.marks;
      }
    }
    assert buf.marks.Keys == GoalCells(copper, joined);
  }

  /** What seeding has built: one label, one mark and one queue entry for each seed; goal marks untouched. */
  ghost predicate Seeded(seeds: map<Cell, Seed>, goalMarks: map<Cell, int>, b: Box, labels: Labels,
                         marks: map<Cell, int>, exact: seq<(real, real)>, queue: Queue) {
    && labels.Keys == seeds.Keys
    && marks.Keys == goalMarks.Keys + seeds.Keys
    && (forall c :: c in goalMarks ==> c !in seeds && marks[c] == goalMarks[c])
    && (forall c :: c in seeds ==>
          && labels[c] == Label(seeds[c].cost, SEED_CODE) && seeds[c].cost >= 0.0
          && -|exact| <= marks[c] < 0 && exact[-1 - marks[c]] == (seeds[c].ex, seeds[c].ey))
    && (forall c {:trigger HasEntry(b, labels, queue, c)} :: c in seeds ==> HasEntry(b, labels, queue, c))
    && (forall n {:trigger SeedEntry(b, seeds, queue, n)} :: n in queue ==> SeedEntry(b, seeds, queue, n))
  }

  ghost predicate SeedEntry(b: Box, seeds: map<Cell, Seed>, queue: Queue, n: QueueNode) {
    queue[n] == 1 && n.cell in seeds && n.g == seeds[n.cell].cost && n.f == n.g + Heuristic(b, n.cell)
  }

  lemma SeedKeepsSeeded(seeds: map<Cell, Seed>, goalMarks: map<Cell, int>, b: Box, labels: Labels,
                        marks: map<Cell, int>, exact: seq<(real, real)>, queue: Queue, c: Cell, s: Seed)
    requires Seeded(seeds, goalMarks, b, labels, marks, exact, queue)
    requires c !in goalMarks && c !in seeds && s.cost >= 0.0
    ensures Seeded(seeds[c := s], goalMarks, b, labels[c := Label(s.cost, SEED_CODE)], marks[c := -1 - |exact|],
                   exact + [(s.ex, s.ey)], queue + multiset{QueueNode(s.cost + Heuristic(b, c), s.cost, c)})
  {
    hide Heuristic;
    var n := QueueNode(s.cost + Heuristic(b, c), s.cost, c);
    var queue' := queue + multiset{n};
    var labels' := labels[c := Label(s.cost, SEED_CODE)];
    assert n !in queue by {
      assert n in queue ==> SeedEntry(b, seeds, queue, n);
    }
    forall k | k in queue'
      ensures SeedEntry(b, seeds[c := s], queue', k)
    {
      if k != n {
        assert SeedEntry(b, seeds, queue, k);
      }
    }
    forall d | d in seeds[c := s]
      ensures HasEntry(b, labels', queue', d)
    {
      if d != c {
        assert HasEntry(b, labels, queue, d);
      }
    }
  }

  lemma HeuristicNonNegative(b: Box, c: Cell)
    ensures Heuristic(b, c) >= 0.0
  {
  }

  /** Seeding establishes the search invariant with nothing expanded. */
  lemma SeededGivesInv(t: Terrain, seeds: map<Cell, Seed>, goalMarks: map<Cell, int>, b: Box, labels: Labels,
                       marks: map<Cell, int>, exact: seq<(real, real)>, queue: Queue)
    requires Seeded(seeds, goalMarks, b, labels, marks, exact, queue)
    requires forall c :: c in seeds ==> Inside(t.size, c)
    ensures Inv(t, b, Costs(seeds), labels, queue, [], 0.0)
  {
    hide Heuristic;
    forall n | n in queue
      ensures SoundEntry(b, labels, queue, [], 0.0, n)
    {
      assert SeedEntry(b, seeds, queue, n);
      HeuristicNonNegative(b, n.cell);
    }
    forall c | c in labels && c !in []
      ensures HasEntry(b, labels, queue, c)
    {
    }
    assert Queued(b, labels, queue, []);
    assert QueueSound(b, labels, queue, [], 0.0);
  }

  method SeedCell(buf: Buffers, ghost goalMarks: map<Cell, int>, b: Box, ghost seeds: map<Cell, Seed>,
                  exact: seq<(real, real)>, queue: Queue, c: Cell, s: Seed)
    returns (exact': seq<(real, real)>, queue': Queue)
    requires buf.Active() && Inside(buf.size, c) && s.cost >= 0.0
    requires Seeded(seeds, goalMarks, b, buf.labels, buf.marks, exact, queue)
    modifies buf`labels, buf`marks, buf.visitGen, buf.bestG, buf.parentCode, buf.markGen, buf.markRef
    ensures buf.Active()
    ensures Seeded(AddSeed(seeds, goalMarks.Keys, c, s), goalMarks, b, buf.labels, buf.marks, exact', queue')
  {
    hide Seeded, Heuristic;
    assert c in buf.marks <==>
             c in goalMarks || c in seeds by { SeededMarks(seeds, goalMarks, b, buf.labels, buf.marks, exact, queue); }
    exact', queue' := exact, queue;
    if !buf.Marked(c) {
      SeedKeepsSeeded(seeds, goalMarks, b, buf.labels, buf.marks, exact, queue, c, s);
      buf.SetMark(c, -1 - |exact|);
      buf.SetLabel(c, s.cost, SEED_CODE);
      exact' := exact + [(s.ex, s.ey)];
      queue' := queue + multiset{QueueNode(s.cost + Heuristic(b, c), s.cost, c)};
    }
  }

  lemma SeededMarks(seeds: map<Cell, Seed>, goalMarks: map<Cell, int>, b: Box, labels: Labels,
                    marks: map<Cell, int>, exact: seq<(real, real)>, queue: Queue)
    requires Seeded(seeds, goalMarks, b, labels, marks, exact, queue)
    ensures marks.Keys == goalMarks.Keys + seeds.Keys
  {
  }

  /** All copper of the connected islands, then every cell of the bridges added so far. */
  method PlaceSeeds(buf: Buffers, ghost goalMarks: map<Cell, int>, b: Box, copper: seq<CopperCell>, joined: set<int>,
                    grown: seq<Cell>, at: Cell -> (real, real)) returns (exact: seq<(real, real)>, queue: Queue)
    requires buf.Active() && buf.labels == map[] && buf.marks == goalMarks
    requires goalMarks.Keys == GoalCells(copper, joined)
    requires forall i :: 0 <= i < |copper| ==> Inside(buf.size, copper[i].cell)
    requires forall c :: c in grown ==> Inside(buf.size, c)
    modifies buf`labels, buf`marks, buf.visitGen, buf.bestG, buf.parentCode, buf.markGen, buf.markRef
    ensures buf.Active()
    ensures Seeded(AllSeeds(copper, joined, grown, at), goalMarks, b, buf.labels, buf.marks, exact, queue)
  {
    exact, queue := [], multiset{};
    ghost var goals := GoalCells(copper, joined);
    assert Seeded(map[], goalMarks, b, buf.labels, buf.marks, exact, queue);
    hide Seeded;
    for i := 0 to |copper|
      invariant buf.Active()
      invariant Seeded(CopperSeeds(copper[..i], joined, goals), goalMarks, b, buf.labels, buf.marks, exact, queue)
    {
      var cc := copper[i];
      assert copper[..i + 1][..i] == copper[..i];
      if cc.island in joined {
        exact, queue := SeedCell(buf, goalMarks, b, CopperSeeds(copper[..i], joined, goals), exact, queue, cc.cell,
                                 Seed(if cc.interior then INTERIOR_COST else 0.0, cc.ex, cc.ey));
      }
    }
    assert copper[..|copper|] == copper;
    ghost var base := CopperSeeds(copper, joined, goals);
    for i := 0 to |grown|
      invariant buf.Active()
      invariant Seeded(GrownSeeds(base, goals, grown[..i], at), goalMarks, b, buf.labels, buf.marks, exact, queue)
    {
      assert grown[..i + 1][..i] == grown[..i];
      exact, queue := SeedCell(buf, goalMarks, b, GrownSeeds(base, goals, grown[..i], at), exact, queue, grown[i],
                               Seed(0.0, at(grown[i]).0, at(grown[i]).1));
    }
    assert grown[..|grown|] == grown;
  }

  // ---- The search loop ---------------------------------------------------------------------

  method Relax(buf: Buffers, b: Box, queue: Queue, to: Cell, g: real, code: int) returns (queue': Queue)
    requires buf.Active() && Inside(buf.size, to)
    modifies buf`labels, buf.visitGen, buf.bestG, buf.parentCode
    ensures buf.Active()
    ensures buf.labels == Relaxed(old(buf.labels), to, g, code)
    ensures queue' == Pushed(old(buf.labels), queue, b, to, g)
  {
    queue' := queue;
    if !buf.Visited(to) || g < buf.Cost(to) {
      buf.SetLabel(to, g, code);
      queue' := queue + multiset{QueueNode(g + Heuristic(b, to), g, to)};
    }
  }

  /** The moves out of a cell that the two inner loops have already tried. */
  predicate Tried(m: Move, d: int, layer: int) {
    match m
    case Planar(k) => k < d
    case Via(k) => k < layer
  }

  ghost predicate Expanding(t: Terrain, b: Box, seeds: map<Cell, real>, labels: Labels, queue: Queue,
                            expanded: seq<Cell>, cur: Cell, d: int, layer: int) {
    && cur !in expanded && cur in labels
    && Inv(t, b, seeds, labels, queue, expanded + [cur], labels[cur].g + Heuristic(b, cur))
    && AllStepsDone(t, labels, expanded)
    && forall m {:trigger StepDone(t, labels, cur, m)} :: Tried(m, d, layer) ==> StepDone(t, labels, cur, m)
  }

  lemma RelaxKeepsExpanding(t: Terrain, b: Box, seeds: map<Cell, real>, labels: Labels, queue: Queue,
                            expanded: seq<Cell>, cur: Cell, d: int, layer: int, m: Move)
    requires t.Valid() && t.size.layers <= MAX_LAYERS
    requires Expanding(t, b, seeds, labels, queue, expanded, cur, d, layer) && t.Legal(cur, m)
    ensures var g := labels[cur].g + t.Cost(cur, m);
            var labels' := Relaxed(labels, Target(cur, m), g, ParentCode(cur, m));
            var queue' := Pushed(labels, queue, b, Target(cur, m), g);
            && Expanding(t, b, seeds, labels', queue', expanded, cur, d, layer)
            && labels'[cur] == labels[cur] && StepDone(t, labels', cur, m)
  {
    hide Terrain.Legal, Terrain.Cost, Terrain.Valid, Heuristic, Target, ParentCode, Inv, StepDone, AllStepsDone,
      Improves, Relaxed, Pushed;
    var last := labels[cur].g + Heuristic(b, cur);
    var expanded' := expanded + [cur];
    RelaxKeepsInv(t, b, seeds, labels, queue, expanded', last, cur, m);
    var g := labels[cur].g + t.Cost(cur, m);
    var labels' := Relaxed(labels, Target(cur, m), g, ParentCode(cur, m));
    ExpandedAreLabelled(t, b, seeds, labels, queue, expanded', last);
    StepsStayDone(t, labels, labels', expanded, expanded');
    forall k | Tried(k, d, layer)
      ensures StepDone(t, labels', cur, k)
    {
      StepStaysDone(t, labels, labels', expanded', cur, k);
    }
  }

  lemma ExpandedAreLabelled(t: Terrain, b: Box, seeds: map<Cell, real>, labels: Labels, queue: Queue,
                            expanded: seq<Cell>, last: real)
    requires Inv(t, b, seeds, labels, queue, expanded, last)
    ensures forall c :: c in expanded ==> c in labels
  {
  }

  lemma CurrentIsLabelled(t: Terrain, b: Box, seeds: map<Cell, real>, labels: Labels, queue: Queue,
                          expanded: seq<Cell>, cur: Cell, d: int, layer: int)
    requires Expanding(t, b, seeds, labels, queue, expanded, cur, d, layer)
    ensures cur in labels && Inside(t.size, cur)
  {
  }

  lemma NextDirection(t: Terrain, b: Box, seeds: map<Cell, real>, labels: Labels, queue: Queue,
                      expanded: seq<Cell>, cur: Cell, d: int, layer: int, d': int, layer': int)
    requires Expanding(t, b, seeds, labels, queue, expanded, cur, d, layer)
    requires forall m :: Tried(m, d', layer') && !Tried(m, d, layer) ==> StepDone(t, labels, cur, m)
    ensures Expanding(t, b, seeds, labels, queue, expanded, cur, d', layer')
  {
    hide StepDone, Tried, Inv, AllStepsDone, Heuristic;
  }

  ghost predicate MarksSpell(buf: Buffers, goals: set<Cell>)
    reads buf
  {
    && (forall c :: c in goals ==> c in buf.marks && buf.marks[c] >= 0)
    && (forall c :: c in buf.marks && buf.marks[c] >= 0 ==> c in goals)
  }

  method IsGoal(buf: Buffers, c: Cell, ghost goals: set<Cell>) returns (g: bool)
    requires buf.Active() && Inside(buf.size, c) && MarksSpell(buf, goals)
    ensures g <==> c in goals
  {
    g := buf.Marked(c) && buf.Mark(c) >= 0;
  }

  /** One planar direction: on the grid, enterable, and cutting no blocked corner. */
  method TryPlanar(buf: Buffers, t: Terrain, b: Box, ghost seeds: map<Cell, real>, queue: Queue,
                   ghost expanded: seq<Cell>, cur: Cell, d: nat) returns (queue': Queue)
    requires t.Valid() && t.size == buf.size && t.size.layers <= MAX_LAYERS && d < DIRECTIONS
    requires buf.Active() && MarksSpell(buf, t.goals)
    requires Expanding(t, b, seeds, buf.labels, queue, expanded, cur, d, 0)
    modifies buf`labels, buf.visitGen, buf.bestG, buf.parentCode
    ensures buf.Active() && cur in old(buf.labels)
    ensures Expanding(t, b, seeds, buf.labels, queue', expanded, cur, d + 1, 0)
  {
    hide Expanding, Heuristic, StepDone, Dx, Dy, Relaxed, Pushed, Buffers.Active, Terrain.Valid;
    queue' := queue;
    ghost var labels := buf.labels;
    CurrentIsLabelled(t, b, seeds, labels, queue, expanded, cur, d, 0);
    var m := Planar(d);
    var to := Target(cur, m);
    var open := false;
    if Inside(t.size, to) {
      var goal := IsGoal(buf, to, t.goals);
      open := (goal || !t.Blocked(to)) &&
              !(d >= FIRST_DIAGONAL && (t.Blocked(Cell(cur.l, cur.x, to.y)) || t.Blocked(Cell(cur.l, to.x, cur.y))));
    }
    assert open <==> t.Legal(cur, m);
    hide Terrain.Cost, Terrain.Legal, Target;
    if open {
      RelaxKeepsExpanding(t, b, seeds, labels, queue, expanded, cur, d, 0, m);
      queue' := Relax(buf, b, queue, to, buf.Cost(cur) + t.Cost(cur, m), ParentCode(cur, m));
    } else {
      IllegalStepDone(t, labels, cur, m);
    }
    assert forall k :: Tried(k, d + 1, 0) && !Tried(k, d, 0) ==> k == m;
    NextDirection(t, b, seeds, buf.labels, queue', expanded, cur, d, 0, d + 1, 0);
  }

  /** One other layer through a via; the column must be clear of foreign copper and of other nets' new vias. */
  method TryVia(buf: Buffers, t: Terrain, b: Box, ghost seeds: map<Cell, real>, queue: Queue,
                ghost expanded: seq<Cell>, cur: Cell, layer: nat) returns (queue': Queue)
    requires t.Valid() && t.size == buf.size && t.size.layers <= MAX_LAYERS && layer < t.size.layers
    requires buf.Active() && MarksSpell(buf, t.goals) && t.ViaAllowed(cur.x, cur.y)
    requires Expanding(t, b, seeds, buf.labels, queue, expanded, cur, DIRECTIONS, layer)
    modifies buf`labels, buf.visitGen, buf.bestG, buf.parentCode
    ensures buf.Active() && cur in old(buf.labels)
    ensures Expanding(t, b, seeds, buf.labels, queue', expanded, cur, DIRECTIONS, layer + 1)
  {
    hide Expanding, Heuristic, StepDone, Relaxed, Pushed, Buffers.Active, Terrain.Valid;
    queue' := queue;
    ghost var labels := buf.labels;
    CurrentIsLabelled(t, b, seeds, labels, queue, expanded, cur, DIRECTIONS, layer);
    var m := Via(layer);
    var to := Target(cur, m);
    var open := false;
    if layer != cur.l {
      var goal := IsGoal(buf, to, t.goals);
      open := goal || !t.Blocked(to);
    }
    assert open <==> t.Legal(cur, m);
    hide Terrain.Cost, Terrain.Legal, Target;
    if open {
      RelaxKeepsExpanding(t, b, seeds, labels, queue, expanded, cur, DIRECTIONS, layer, m);
      queue' := Relax(buf, b, queue, to, buf.Cost(cur) + t.Cost(cur, m), ParentCode(cur, m));
    } else {
      IllegalStepDone(t, labels, cur, m);
    }
    assert forall k :: Tried(k, DIRECTIONS, layer + 1) && !Tried(k, DIRECTIONS, layer) ==> k == m;
    NextDirection(t, b, seeds, buf.labels, queue', expanded, cur, DIRECTIONS, layer, DIRECTIONS, layer + 1);
  }

  lemma IllegalStepDone(t: Terrain, labels: Labels, cur: Cell, m: Move)
    requires cur in labels && !t.Legal(cur, m)
    ensures StepDone(t, labels, cur, m)
  {
  }

  /** Every legal move out of the popped cell is relaxed. */
  method Expand(buf: Buffers, t: Terrain, b: Box, ghost seeds: map<Cell, real>, queue: Queue,
                ghost expanded: seq<Cell>, cur: Cell) returns (queue': Queue)
    requires t.Valid() && t.size == buf.size && t.size.layers <= MAX_LAYERS
    requires buf.Active() && MarksSpell(buf, t.goals)
    requires Expanding(t, b, seeds, buf.labels, queue, expanded, cur, 0, 0)
    modifies buf`labels, buf.visitGen, buf.bestG, buf.parentCode
    ensures buf.Active()
    ensures cur in buf.labels && AllStepsDone(t, buf.labels, expanded + [cur])
    ensures Inv(t, b, seeds, buf.labels, queue', expanded + [cur], buf.labels[cur].g + Heuristic(b, cur))
  {
    hide Expanding, Buffers.Active, Terrain.Valid, Heuristic, Terrain.ViaAllowed, Inv, AllStepsDone;
    queue' := queue;
    for d := 0 to DIRECTIONS
      invariant buf.Active() && MarksSpell(buf, t.goals)
      invariant Expanding(t, b, seeds, buf.labels, queue', expanded, cur, d, 0)
    {
      queue' := TryPlanar(buf, t, b, seeds, queue', expanded, cur, d);
    }
    if t.ViaAllowed(cur.x, cur.y) {
      for layer := 0 to t.size.layers
        invariant buf.Active() && MarksSpell(buf, t.goals)
        invariant Expanding(t, b, seeds, buf.labels, queue', expanded, cur, DIRECTIONS, layer)
      {
        queue' := TryVia(buf, t, b, seeds, queue', expanded, cur, layer);
      }
      AllTried(t, b, seeds, buf.labels, queue', expanded, cur, t.size.layers);
    } else {
      AllTried(t, b, seeds, buf.labels, queue', expanded, cur, 0);
    }
  }

  lemma AllTried(t: Terrain, b: Box, seeds: map<Cell, real>, labels: Labels, queue: Queue,
                 expanded: seq<Cell>, cur: Cell, layer: int)
    requires Expanding(t, b, seeds, labels, queue, expanded, cur, DIRECTIONS, layer)
    requires layer == t.size.layers || !t.ViaAllowed(cur.x, cur.y)
    ensures cur in labels && AllStepsDone(t, labels, expanded + [cur])
    ensures Inv(t, b, seeds, labels, queue, expanded + [cur], labels[cur].g + Heuristic(b, cur))
  {
    hide Heuristic, Inv;
    forall c, m | c in expanded + [cur] && c in labels
      ensures StepDone(t, labels, c, m)
    {
      if c == cur && !Tried(m, DIRECTIONS, layer) {
        IllegalStepDone(t, labels, cur, m);
      }
    }
  }

  ghost predicate Searching(t: Terrain, b: Box, seeds: map<Cell, real>, labels: Labels, queue: Queue,
                            expanded: seq<Cell>, last: real) {
    Inv(t, b, seeds, labels, queue, expanded, last) && AllStepsDone(t, labels, expanded)
  }

  lemma PoppedIsLabelled(t: Terrain, b: Box, seeds: map<Cell, real>, labels: Labels, queue: Queue,
                         expanded: seq<Cell>, last: real, n: QueueNode)
    requires Searching(t, b, seeds, labels, queue, expanded, last) && n in queue
    ensures n.cell in labels && labels[n.cell].g <= n.g && Inside(t.size, n.cell)
    ensures labels[n.cell].g == n.g ==> n.cell !in expanded
  {
    hide Heuristic, Entered, Terrain.Legal, Terrain.Cost;
    assert SoundEntry(b, labels, queue, expanded, last, n);
  }

  lemma SkipKeepsSearching(t: Terrain, b: Box, seeds: map<Cell, real>, labels: Labels, queue: Queue,
                           expanded: seq<Cell>, last: real, n: QueueNode)
    requires Searching(t, b, seeds, labels, queue, expanded, last)
    requires n in queue && n.cell in labels && labels[n.cell].g < n.g
    ensures Searching(t, b, seeds, labels, queue - multiset{n}, expanded, last)
  {
    hide Inv, AllStepsDone;
    SkipKeepsInv(t, b, seeds, labels, queue, expanded, last, n);
  }

  lemma PopStartsExpanding(t: Terrain, b: Box, seeds: map<Cell, real>, labels: Labels, queue: Queue,
                           expanded: seq<Cell>, last: real, n: QueueNode)
    requires Searching(t, b, seeds, labels, queue, expanded, last)
    requires n in queue && (forall k :: k in queue ==> n.f <= k.f)
    requires n.cell in labels && n.g <= labels[n.cell].g && n.cell !in t.goals
    ensures Expanding(t, b, seeds, labels, queue - multiset{n}, expanded, n.cell, 0, 0)
  {
    hide Inv, AllStepsDone, Heuristic, StepDone, Inside;
    PopKeepsInv(t, b, seeds, labels, queue, expanded, last, n);
    NothingTried(t, labels, n.cell);
  }

  lemma NothingTried(t: Terrain, labels: Labels, cur: Cell)
    requires cur in labels
    ensures forall m {:trigger StepDone(t, labels, cur, m)} :: Tried(m, 0, 0) ==> StepDone(t, labels, cur, m)
  {
    forall m | Tried(m, 0, 0)
      ensures StepDone(t, labels, cur, m)
    {
      assert m.Via? && m.layer < 0;
    }
  }

  lemma ExpandedFitGrid(t: Terrain, b: Box, seeds: map<Cell, real>, labels: Labels, queue: Queue,
                        expanded: seq<Cell>, last: real)
    requires Inv(t, b, seeds, labels, queue, expanded, last)
    ensures |expanded| <= TotalCells(t.size)
  {
    hide Heuristic, Entered, Terrain.Legal, Terrain.Cost, TotalCells, NodeIdx;
    DistinctCells(t.size, expanded);
  }

  /** Pops least keys until a goal comes up or nothing is left. */
  method SearchLoop(buf: Buffers, t: Terrain, b: Box, ghost seeds: map<Cell, real>, queue0: Queue)
    returns (reached: bool, goal: Cell, ghost expanded: seq<Cell>, ghost last: real)
    requires t.Valid() && t.size == buf.size && t.size.layers <= MAX_LAYERS && BoxHolds(b, t.goals)
    requires buf.Active() && MarksSpell(buf, t.goals)
    requires Searching(t, b, seeds, buf.labels, queue0, [], 0.0)
    modifies buf`labels, buf.visitGen, buf.bestG, buf.parentCode
    ensures buf.Active()
    ensures !reached ==> Unreachable(t, seeds)
    ensures reached ==>
              && goal in t.goals && goal in buf.labels && goal !in expanded
              && AllEntered(t, seeds, buf.labels, expanded) && Settled(t, b, buf.labels, expanded, last)
              && |expanded| <= TotalCells(t.size)
              && forall s, moves :: s in seeds && Walk(t, s, moves) && End(s, moves) in t.goals ==>
                   buf.labels[goal].g <= seeds[s] + WalkCost(t, s, moves)
  {
    hide Buffers.Active, Terrain.Valid, Heuristic, Inv, AllStepsDone, TotalCells, AllEntered, Settled, Expanding,
      Inside, StepDone;
    var queue := queue0;
    expanded, last := [], 0.0;
    ExpandedFitGrid(t, b, seeds, buf.labels, queue, expanded, last);
    while |queue| > 0
      invariant buf.Active() && MarksSpell(buf, t.goals)
      invariant Searching(t, b, seeds, buf.labels, queue, expanded, last)
      invariant |expanded| <= TotalCells(t.size)
      decreases TotalCells(t.size) - |expanded|, |queue|
    {
      ghost var least := LeastKey(queue);
      var cur :| cur in queue && forall k :: k in queue ==> cur.f <= k.f;
      ghost var before := queue;
      queue := queue - multiset{cur};
      assert |queue| == |before| - 1;
      PoppedIsLabelled(t, b, seeds, buf.labels, before, expanded, last, cur);
      if cur.g > buf.Cost(cur.cell) {
        SkipKeepsSearching(t, b, seeds, buf.labels, before, expanded, last, cur);
      } else {
        var isGoal := IsGoal(buf, cur.cell, t.goals);
        if isGoal {
          GoalPopped(t, b, seeds, buf.labels, before, expanded, last, cur);
          return true, cur.cell, expanded, last;
        }
        PopStartsExpanding(t, b, seeds, buf.labels, before, expanded, last, cur);
        queue := Expand(buf, t, b, seeds, queue, expanded, cur.cell);
        expanded := expanded + [cur.cell];
        last := buf.labels[cur.cell].g + Heuristic(b, cur.cell);
        ExpandedFitGrid(t, b, seeds, buf.labels, queue, expanded, last);
      }
    }
    QueueDry(t, b, seeds, buf.labels, queue, expanded, last);
    return false, Cell(0, 0, 0), expanded, last;
  }

  lemma GoalPopped(t: Terrain, b: Box, seeds: map<Cell, real>, labels: Labels, queue: Queue,
                   expanded: seq<Cell>, last: real, n: QueueNode)
    requires t.Valid() && BoxHolds(b, t.goals) && Searching(t, b, seeds, labels, queue, expanded, last)
    requires n in queue && (forall k :: k in queue ==> n.f <= k.f)
    requires n.cell in t.goals && n.cell in labels && n.g <= labels[n.cell].g
    ensures AllEntered(t, seeds, labels, expanded) && Settled(t, b, labels, expanded, last) && n.cell !in expanded
    ensures forall s, moves :: s in seeds && Walk(t, s, moves) && End(s, moves) in t.goals ==>
              labels[n.cell].g <= seeds[s] + WalkCost(t, s, moves)
  {
    PoppedIsLabelled(t, b, seeds, labels, queue, expanded, last, n);
    assert AllEntered(t, seeds, labels, expanded) && Settled(t, b, labels, expanded, last);
    hide Inv, AllStepsDone, AllEntered, Settled, Heuristic, Terrain.Valid, Inside;
    forall s, moves | s in seeds && Walk(t, s, moves) && End(s, moves) in t.goals
      ensures labels[n.cell].g <= seeds[s] + WalkCost(t, s, moves)
    {
      PoppedGoalIsCheapest(t, b, seeds, labels, queue, expanded, last, n, s, moves);
    }
  }

  lemma QueueDry(t: Terrain, b: Box, seeds: map<Cell, real>, labels: Labels, queue: Queue,
                 expanded: seq<Cell>, last: real)
    requires t.Valid() && Searching(t, b, seeds, labels, queue, expanded, last) && |queue| == 0
    ensures Unreachable(t, seeds)
  {
    hide Inv, AllStepsDone, Terrain.Valid;
    assert queue == multiset{};
    forall s, moves | s in seeds && Walk(t, s, moves)
      ensures End(s, moves) !in t.goals
    {
      EmptyQueueMeansNoBridge(t, b, seeds, labels, expanded, last, s, moves);
    }
  }

  /** Follows the parent bytes from the reached goal to a seed. The guard allows one cell more than the grid
      has, and the walk always ends at a seed before it runs out. */
  method WalkBack(buf: Buffers, t: Terrain, ghost b: Box, ghost seeds: map<Cell, real>, ghost expanded: seq<Cell>,
                  ghost last: real, goal: Cell) returns (cells: seq<Cell>, ghost moves: seq<Move>)
    requires t.size == buf.size && buf.Active() && goal in buf.labels && goal !in expanded
    requires AllEntered(t, seeds, buf.labels, expanded) && Settled(t, b, buf.labels, expanded, last)
    requires |expanded| <= TotalCells(t.size)
    ensures |cells| == |moves| + 1 && Trail(t, cells, moves) && cells[|moves|] == goal && cells[0] in seeds
    ensures seeds[cells[0]] + WalkCost(t, cells[0], moves) == buf.labels[goal].g
    ensures forall i, j :: 0 <= i < j < |cells| ==> cells[i] != cells[j]
    ensures forall i :: 1 <= i < |moves| ==> cells[i] !in t.goals && !t.Blocked(cells[i])
  {
    hide Buffers.Active, Heuristic, TotalCells, AllEntered, Settled, Target, Terrain.Legal, Terrain.Cost, ParentOf,
      MoveInto, Tail, Reach;
    var c := goal;
    cells, moves := [goal], [];
    ghost var pos: seq<nat> := [];
    StartTail(t, buf.labels, expanded, goal);
    var guard := 0;
    while guard <= TotalCells(t.size) && buf.Code(c) != SEED_CODE
      invariant c in buf.labels && |cells| > 0 && cells[0] == c && cells[|cells| - 1] == goal
      invariant Tail(t, buf.labels, expanded, pos, cells, moves)
      invariant guard + Reach(expanded, pos) <= |expanded|
    {
      var p := ParentOf(c, buf.Code(c));
      ghost var m := MoveInto(c, buf.labels[c].code);
      ghost var before := TailStep(t, seeds, buf.labels, expanded, pos, cells, moves);
      cells, moves, pos := [p] + cells, [m] + moves, [before] + pos;
      c := p;
      guard := guard + 1;
    }
    TailEnds(t, seeds, buf.labels, expanded, pos, cells, moves);
    TailIsBridge(t, b, buf.labels, expanded, last, pos, cells, moves);
  }

  lemma StartTail(t: Terrain, labels: Labels, expanded: seq<Cell>, goal: Cell)
    requires goal in labels && goal !in expanded
    ensures Tail(t, labels, expanded, [], [goal], []) && Reach(expanded, []) == |expanded|
  {
  }

  lemma TailStep(t: Terrain, seeds: map<Cell, real>, labels: Labels, expanded: seq<Cell>,
                 pos: seq<nat>, cells: seq<Cell>, moves: seq<Move>) returns (before: nat)
    requires AllEntered(t, seeds, labels, expanded) && Tail(t, labels, expanded, pos, cells, moves)
    requires |cells| > 0 && cells[0] in labels && labels[cells[0]].code != SEED_CODE
    ensures before < Reach(expanded, pos) && Reach(expanded, [before] + pos) == before
    ensures var p := ParentOf(cells[0], labels[cells[0]].code);
            var m := MoveInto(cells[0], labels[cells[0]].code);
            p in labels && Tail(t, labels, expanded, [before] + pos, [p] + cells, [m] + moves)
  {
    hide AllEntered, Target, Terrain.Legal, Terrain.Cost, ParentOf, MoveInto;
    var at := Reach(expanded, pos);
    before := ParentIsEarlier(t, seeds, labels, expanded, at, cells[0]);
    var p := ParentOf(cells[0], labels[cells[0]].code);
    var m := MoveInto(cells[0], labels[cells[0]].code);
    TailExtends(t, labels, expanded, before, p, m, pos, cells, moves);
  }

  lemma TailEnds(t: Terrain, seeds: map<Cell, real>, labels: Labels, expanded: seq<Cell>,
                 pos: seq<nat>, cells: seq<Cell>, moves: seq<Move>)
    requires AllEntered(t, seeds, labels, expanded) && Tail(t, labels, expanded, pos, cells, moves)
    requires |cells| > 0 && cells[0] in labels && labels[cells[0]].code == SEED_CODE
    ensures Trail(t, cells, moves) && cells[0] in seeds && cells[|moves|] in labels
    ensures seeds[cells[0]] + WalkCost(t, cells[0], moves) == labels[cells[|moves|]].g
  {
    assert Entered(t, seeds, labels, expanded, cells[0]);
  }

  /** The terrain of one search: the router's grids with the goals of this round. */
  function WithGoals(t: Terrain, copper: seq<CopperCell>, joined: set<int>): Terrain {
    t.(goals := GoalCells(copper, joined))
  }

  lemma SeedsInside(s: Size, copper: seq<CopperCell>, joined: set<int>, grown: seq<Cell>, at: Cell -> (real, real))
    requires forall i :: 0 <= i < |copper| ==> Inside(s, copper[i].cell)
    requires forall c :: c in grown ==> Inside(s, c)
    ensures forall c :: c in AllSeeds(copper, joined, grown, at) ==> Inside(s, c)
  {
    var goals := GoalCells(copper, joined);
    CopperSeedsAreJoined(copper, joined, goals);
    GrownSeedsAreGrown(CopperSeeds(copper, joined, goals), goals, grown, at);
  }

  /** What one round finds: the exact end points are those of the seed and of the goal's copper cell. */
  ghost predicate Joins(t: Terrain, copper: seq<CopperCell>, joined: set<int>, grown: seq<Cell>,
                        at: Cell -> (real, real), f: Found, moves: seq<Move>)
    requires f.Found?
  {
    var seeds := AllSeeds(copper, joined, grown, at);
    var br := f.bridge;
    && CheapestBridge(WithGoals(t, copper, joined), Costs(seeds), br.cells, moves)
    && br.cells[0] in seeds && br.sx == seeds[br.cells[0]].ex && br.sy == seeds[br.cells[0]].ey
    && f.copperIdx < |copper| && copper[f.copperIdx].island !in joined
    && copper[f.copperIdx].cell == br.cells[|br.cells| - 1]
    && br.ex == copper[f.copperIdx].ex && br.ey == copper[f.copperIdx].ey
  }

  /** The marks left by set-up: goals name their copper cell, seeds their exact point. */
  ghost predicate MarksName(copper: seq<CopperCell>, joined: set<int>, seeds: map<Cell, Seed>,
                            marks: map<Cell, int>, exact: seq<(real, real)>) {
    && (forall c :: c in GoalCells(copper, joined) ==>
          c in marks && 0 <= marks[c] < |copper| && copper[marks[c]].cell == c && copper[marks[c]].island !in joined)
    && (forall c :: c in seeds ==>
          c in marks && -|exact| <= marks[c] < 0 && exact[-1 - marks[c]] == (seeds[c].ex, seeds[c].ey))
    && (forall c :: c in marks ==> c in GoalCells(copper, joined) || c in seeds)
  }

  lemma SeededMarksName(copper: seq<CopperCell>, joined: set<int>, seeds: map<Cell, Seed>, goalMarks: map<Cell, int>,
                        b: Box, labels: Labels, marks: map<Cell, int>, exact: seq<(real, real)>, queue: Queue)
    requires Seeded(seeds, goalMarks, b, labels, marks, exact, queue)
    requires goalMarks.Keys == GoalCells(copper, joined)
    requires forall c :: c in goalMarks ==>
               0 <= goalMarks[c] < |copper| && copper[goalMarks[c]].cell == c && copper[goalMarks[c]].island !in joined
    ensures MarksName(copper, joined, seeds, marks, exact)
  {
    hide GoalCells, HasEntry, SeedEntry;
    assert forall c :: c in GoalCells(copper, joined) <==> c in goalMarks;
    assert forall c :: c in marks ==> c in goalMarks || c in seeds;
  }

  lemma MarksNameSpell(buf: Buffers, copper: seq<CopperCell>, joined: set<int>, seeds: map<Cell, Seed>,
                       exact: seq<(real, real)>)
    requires MarksName(copper, joined, seeds, buf.marks, exact)
    ensures MarksSpell(buf, GoalCells(copper, joined))
  {
    hide GoalCells;
  }

  method SetUp(buf: Buffers, t: Terrain, copper: seq<CopperCell>, joined: set<int>, grown: seq<Cell>,
               at: Cell -> (real, real)) returns (any: bool, b: Box, exact: seq<(real, real)>, queue: Queue)
    requires buf.Valid() && t.size == buf.size && t.goals == GoalCells(copper, joined)
    requires forall i :: 0 <= i < |copper| ==> Inside(buf.size, copper[i].cell)
    requires forall c :: c in grown ==> Inside(buf.size, c)
    modifies buf, buf.visitGen, buf.bestG, buf.parentCode, buf.markGen, buf.markRef
    ensures buf.Active() && (any <==> t.goals != {})
    ensures any ==>
              && BoxHolds(b, t.goals)
              && Searching(t, b, Costs(AllSeeds(copper, joined, grown, at)), buf.labels, queue, [], 0.0)
              && MarksName(copper, joined, AllSeeds(copper, joined, grown, at), buf.marks, exact)
  {
    hide GoalCells, AllSeeds, Seeded, Buffers.Active, BoxHolds, Inv, MarksName;
    any, b := MarkGoals(buf, copper, joined);
    exact, queue := [], multiset{};
    if any {
      ghost var seeds := AllSeeds(copper, joined, grown, at);
      ghost var goalMarks := buf.marks;
      exact, queue := PlaceSeeds(buf, goalMarks, b, copper, joined, grown, at);
      SeedsInside(t.size, copper, joined, grown, at);
      SeededGivesInv(t, seeds, goalMarks, b, buf.labels, buf.marks, exact, queue);
      SeededMarksName(copper, joined, seeds, goalMarks, b, buf.labels, buf.marks, exact, queue);
    }
  }

  /** One island-to-island search. It finds a bridge exactly when a legal walk from some seed to some goal
      exists, and then a cheapest one. */
  method FindBridge(buf: Buffers, t: Terrain, copper: seq<CopperCell>, joined: set<int>, grown: seq<Cell>,
                    at: Cell -> (real, real)) returns (f: Found, ghost moves: seq<Move>)
    requires buf.Valid() && t.size == buf.size && t.size.layers <= MAX_LAYERS
    requires WithGoals(t, copper, joined).Valid()
    requires forall i :: 0 <= i < |copper| ==> Inside(buf.size, copper[i].cell)
    requires forall c :: c in grown ==> Inside(buf.size, c)
    modifies buf, buf.visitGen, buf.bestG, buf.parentCode, buf.markGen, buf.markRef
    ensures buf.Valid()
    ensures f.NoGoal? <==> GoalCells(copper, joined) == {}
    ensures f.NoBridge? ==> Unreachable(WithGoals(t, copper, joined), Costs(AllSeeds(copper, joined, grown, at)))
    ensures f.Found? ==> Joins(t, copper, joined, grown, at, f, moves)
  {
    hide GoalCells, AllSeeds, Buffers.Active, BoxHolds, Searching, Terrain.Valid, Terrain.Blocked, Terrain.Legal,
      MarksSpell, AllEntered, Settled, Trail, Walk, WalkCost, End, MarksName, Joins;
    var round := WithGoals(t, copper, joined);
    ghost var seeds := AllSeeds(copper, joined, grown, at);
    moves := [];
    var any, b, exact, queue := SetUp(buf, round, copper, joined, grown, at);
    ActiveIsValid(buf);
    if !any {
      return NoGoal, moves;
    }
    MarksNameSpell(buf, copper, joined, seeds, exact);
    var reached, goal, expanded, last := SearchLoop(buf, round, b, Costs(seeds), queue);
    ActiveIsValid(buf);
    if !reached {
      return NoBridge, moves;
    }
    var cells;
    cells, moves := WalkBack(buf, round, b, Costs(seeds), expanded, last, goal);
    MarksTell(copper, joined, seeds, buf.marks, exact, cells[0], goal);
    var seedRef := buf.Mark(cells[0]);
    var i := buf.Mark(goal);
    var from := exact[-1 - seedRef];
    f := Found(Bridge(cells, from.0, from.1, copper[i].ex, copper[i].ey), i);
    FoundJoins(t, copper, joined, grown, at, f, moves);
  }

  lemma MarksTell(copper: seq<CopperCell>, joined: set<int>, seeds: map<Cell, Seed>, marks: map<Cell, int>,
                  exact: seq<(real, real)>, from: Cell, goal: Cell)
    requires MarksName(copper, joined, seeds, marks, exact) && from in seeds && goal in GoalCells(copper, joined)
    ensures from in marks && -|exact| <= marks[from] < 0
    ensures exact[-1 - marks[from]] == (seeds[from].ex, seeds[from].ey)
    ensures goal in marks && 0 <= marks[goal] < |copper|
    ensures copper[marks[goal]].cell == goal && copper[marks[goal]].island !in joined
  {
    hide GoalCells;
  }

  lemma FoundJoins(t: Terrain, copper: seq<CopperCell>, joined: set<int>, grown: seq<Cell>, at: Cell -> (real, real),
                   f: Found, moves: seq<Move>)
    requires f.Found? && f.bridge.cells != []
    requires CheapestBridge(WithGoals(t, copper, joined), Costs(AllSeeds(copper, joined, grown, at)), f.bridge.cells,
                            moves)
    requires var br, seeds := f.bridge, AllSeeds(copper, joined, grown, at);
             && br.cells[0] in seeds && br.sx == seeds[br.cells[0]].ex && br.sy == seeds[br.cells[0]].ey
             && f.copperIdx < |copper| && copper[f.copperIdx].island !in joined
             && copper[f.copperIdx].cell == br.cells[|br.cells| - 1]
             && br.ex == copper[f.copperIdx].ex && br.ey == copper[f.copperIdx].ey
    ensures Joins(t, copper, joined, grown, at, f, moves)
  {
    hide CheapestBridge, AllSeeds, WithGoals;
  }

  lemma ActiveIsValid(buf: Buffers)
    requires buf.Active()
    ensures buf.Valid()
  {
  }
}

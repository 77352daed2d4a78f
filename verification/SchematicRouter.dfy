/** Routing one schematic connection on the 50 mil grid, and turning the route into wires. */
module SchematicRouter {
  import opened Basics

  datatype Pt = Pt(gx: int, gy: int)

  datatype QNode = QNode(f: int, g: nat, pt: Pt, dir: int)

  const MARGIN: int := 15
  const BEND_PENALTY: nat := 2

  /** Cells may be searched within a margin around the two pins. */
  datatype Box = Box(minX: int, maxX: int, minY: int, maxY: int)
  {
    predicate Holds(p: Pt) {
      minX <= p.gx <= maxX && minY <= p.gy <= maxY
    }

    ghost function Cells(): set<Pt> {
      set x, y | minX <= x <= maxX && minY <= y <= maxY :: Pt(x, y)
    }
  }

  function BoxFor(a: Pt, b: Pt): Box {
    Box((if a.gx < b.gx then a.gx else b.gx) - MARGIN, (if a.gx < b.gx then b.gx else a.gx) + MARGIN,
        (if a.gy < b.gy then a.gy else b.gy) - MARGIN, (if a.gy < b.gy then b.gy else a.gy) + MARGIN)
  }

  function Neighbour(p: Pt, d: nat): Pt {
    if d == 0 then Pt(p.gx + 1, p.gy) else if d == 1 then Pt(p.gx - 1, p.gy)
    else if d == 2 then Pt(p.gx, p.gy + 1) else Pt(p.gx, p.gy - 1)
  }

  predicate UnitStep(a: Pt, b: Pt) {
    exists d: nat :: d < 4 && b == Neighbour(a, d)
  }

  // ---- Legal paths ---------------------------------------------------------------------------

  /** What one search is about. */
  datatype Task = Task(start: Pt, goal: Pt, blocked: set<Pt>)
  {
    function Area(): Box {
      BoxFor(start, goal)
    }

    /** Free to be entered: inside the box, and not blocked unless it is one of the two pins. */
    predicate Open(p: Pt) {
      Area().Holds(p) && (p == goal || p == start || p !in blocked)
    }

    ghost predicate LegalPath(path: seq<Pt>) {
      && path != [] && path[0] == start
      && forall k :: 0 <= k < |path| - 1 ==> LegalStep(path, k)
    }

    ghost predicate LegalStep(path: seq<Pt>, k: nat)
      requires k + 1 < |path|
    {
      UnitStep(path[k], path[k + 1]) && Open(path[k + 1])
    }

    /** The points reached: a set around the start that no legal step leaves, and without the goal. */
    ghost predicate Enclosed(reached: set<Pt>) {
      && start in reached && goal !in reached
      && forall p, d: nat :: p in reached && d < 4 && Open(Neighbour(p, d)) ==> Neighbour(p, d) in reached
    }

    lemma {:induction false} EnclosedHasNoPath(reached: set<Pt>, path: seq<Pt>)
      requires Enclosed(reached) && LegalPath(path)
      ensures path[|path| - 1] in reached && path[|path| - 1] != goal
    {
      var n := |path| - 1;
      if n > 0 {
        var q := path[..n];
        forall k | 0 <= k < |q| - 1
          ensures LegalStep(q, k)
        {
          assert LegalStep(path, k);
        }
        EnclosedHasNoPath(reached, q);
        assert LegalStep(path, n - 1);
        var d: nat :| d < 4 && path[n] == Neighbour(path[n - 1], d);
      }
    }
  }

  // ---- The search ----------------------------------------------------------------------------

  datatype Search = Search(bestG: map<Pt, nat>, parent: map<Pt, Pt>, pq: seq<QNode>)

  /** Every reached point except the start came from a cheaper one by a legal step. */
  ghost predicate Rooted(t: Task, s: Search) {
    && t.start in s.bestG && s.bestG[t.start] == 0
    && forall p :: p in s.bestG && p != t.start ==> Came(t, s, p)
  }

  ghost predicate Came(t: Task, s: Search, p: Pt)
    requires p in s.bestG
  {
    && t.Open(p) && p in s.parent && s.parent[p] in s.bestG
    && UnitStep(s.parent[p], p) && s.bestG[s.parent[p]] < s.bestG[p]
  }

  /** Queue entries are about reached points, never better than what is known of them. */
  ghost predicate Queued(s: Search) {
    forall i :: 0 <= i < |s.pq| ==> s.pq[i].pt in s.bestG && s.bestG[s.pq[i].pt] <= s.pq[i].g
  }

  ghost predicate Waiting(s: Search, p: Pt)
    requires p in s.bestG
  {
    exists i :: 0 <= i < |s.pq| && s.pq[i].pt == p && s.pq[i].g == s.bestG[p]
  }

  /** All legal steps from `p` in the first `n` directions are reached. */
  ghost predicate Expanded(t: Task, s: Search, p: Pt, n: nat) {
    forall d: nat :: d < n && d < 4 && t.Open(Neighbour(p, d)) ==> Neighbour(p, d) in s.bestG
  }

  /** Every reached point other than `busy` waits in the queue or has been expanded; the goal has not been. */
  ghost predicate Frontier(t: Task, s: Search, busy: set<Pt>) {
    forall p :: p in s.bestG && p !in busy ==> Waiting(s, p) || (p != t.goal && Expanded(t, s, p, 4))
  }

  ghost predicate Sound(t: Task, s: Search, busy: set<Pt>) {
    Rooted(t, s) && Queued(s) && Frontier(t, s, busy) && s.bestG.Keys <= t.Area().Cells()
  }

  // ---- What the labels mean ------------------------------------------------------------------

  /** Where a sequence of directions leads. */
  ghost function Reached(from: Pt, dirs: seq<nat>): Pt {
    if dirs == [] then from else Neighbour(Reached(from, dirs[..|dirs| - 1]), dirs[|dirs| - 1])
  }

  /** The price of a walk: one for every step and two for every bend. */
  ghost function Price(dirs: seq<nat>): nat {
    if dirs == [] then 0
    else
      var n := |dirs| - 1;
      Price(dirs[..n]) + 1 + (if n > 0 && dirs[n - 1] != dirs[n] then 2 else 0)
  }

  /** A legal walk from the start comes to `p` in direction `dir` at this price. */
  ghost predicate Walks(t: Task, dirs: seq<nat>, p: Pt, dir: int, price: nat) {
    && Allowed(t, dirs) && Reached(t.start, dirs) == p && Price(dirs) == price
    && dir == if dirs == [] then -1 else dirs[|dirs| - 1]
  }

  ghost predicate Allowed(t: Task, dirs: seq<nat>) {
    dirs != [] ==>
      && Allowed(t, dirs[..|dirs| - 1])
      && dirs[|dirs| - 1] < 4 && t.Open(Reached(t.start, dirs))
  }

  ghost predicate HasWalk(t: Task, p: Pt, dir: int, price: nat) {
    exists dirs :: Walks(t, dirs, p, dir, price)
  }

  /** Every label and every queue entry is the price of a legal walk; entries are ordered by that price and the
      distance to the goal. */
  ghost predicate Priced(t: Task, s: Search) {
    && (forall i :: 0 <= i < |s.pq| ==> EntryPriced(t, s.pq[i]))
    && (forall p :: p in s.bestG ==> exists dir :: HasWalk(t, p, dir, s.bestG[p]))
  }

  ghost predicate EntryPriced(t: Task, q: QNode) {
    && HasWalk(t, q.pt, q.dir, q.g)
    && q.f == q.g + Abs(q.pt.gx - t.goal.gx) + Abs(q.pt.gy - t.goal.gy)
  }

  lemma WalkGrows(t: Task, p: Pt, dir: int, price: nat, d: nat)
    requires HasWalk(t, p, dir, price) && d < 4 && t.Open(Neighbour(p, d))
    ensures HasWalk(t, Neighbour(p, d), d, price + 1 + (if dir != -1 && dir != d then 2 else 0))
  {
    hide Task.Open, Neighbour;
    var dirs :| Walks(t, dirs, p, dir, price);
    var n, longer := |dirs|, dirs + [d];
    assert longer[..n] == dirs && longer[n] == d;
    assert n > 0 ==> longer[n - 1] == dirs[n - 1];
    assert Walks(t, longer, Neighbour(p, d), d, price + 1 + (if dir != -1 && dir != d then 2 else 0));
  }

  lemma StartIsPriced(t: Task, s: Search)
    requires s.bestG == map[t.start := 0] && |s.pq| == 1 && s.pq[0].pt == t.start && s.pq[0].g == 0
    requires s.pq[0].dir == -1 && s.pq[0].f == Abs(t.start.gx - t.goal.gx) + Abs(t.start.gy - t.goal.gy)
    ensures Priced(t, s)
  {
    assert Walks(t, [], t.start, -1, 0);
    assert HasWalk(t, t.start, -1, 0);
  }

  lemma RelaxedIsPriced(t: Task, s: Search, cur: QNode, d: nat, s': Search)
    requires Priced(t, s) && EntryPriced(t, cur) && d < 4 && t.Open(Neighbour(cur.pt, d))
    requires var nxt, price := Neighbour(cur.pt, d), cur.g + 1 + (if cur.dir != -1 && cur.dir != d then 2 else 0);
             && s'.bestG == s.bestG[nxt := price] && |s'.pq| == |s.pq| + 1 && s'.pq[..|s.pq|] == s.pq
             && s'.pq[|s.pq|] == QNode(price + Abs(nxt.gx - t.goal.gx) + Abs(nxt.gy - t.goal.gy), price, nxt, d)
    ensures Priced(t, s')
  {
    hide Task.Open, Neighbour, HasWalk;
    WalkGrows(t, cur.pt, cur.dir, cur.g, d);
    assert forall i :: 0 <= i < |s.pq| ==> s'.pq[i] == s.pq[i];
  }

  // ---- Why the search ends -------------------------------------------------------------------

  ghost function Total(m: map<Pt, nat>): nat
    decreases |m|
  {
    if m == map[] then 0
    else
      var k :| k in m;
      m[k] + Total(m - {k})
  }

  lemma {:induction false} TotalWithout(m: map<Pt, nat>, k: Pt)
    requires k in m
    ensures Total(m) == m[k] + Total(m - {k})
    decreases |m|
  {
    var j :| j in m && Total(m) == m[j] + Total(m - {j});
    if j != k {
      TotalWithout(m - {j}, k);
      TotalWithout(m - {k}, j);
      assert m - {j} - {k} == m - {k} - {j};
    }
  }

  lemma TotalImproves(m: map<Pt, nat>, k: Pt, v: nat)
    requires k in m && v < m[k]
    ensures Total(m[k := v]) < Total(m)
  {
    TotalWithout(m, k);
    TotalWithout(m[k := v], k);
    assert m[k := v] - {k} == m - {k};
  }

  // ---- Steps ---------------------------------------------------------------------------------

  /** Takes an entry with the least estimate out of the queue. */
  method PopMin(pq: seq<QNode>) returns (cur: QNode, rest: seq<QNode>, ghost at: nat)
    requires pq != []
    ensures at < |pq| && cur == pq[at] && rest == pq[..at] + pq[at + 1..]
    ensures forall i :: 0 <= i < |pq| ==> cur.f <= pq[i].f
  {
    var k := 0;
    for i := 1 to |pq|
      invariant 0 <= k < |pq|
      invariant forall j :: 0 <= j < i ==> pq[k].f <= pq[j].f
    {
      if pq[i].f < pq[k].f {
        k := i;
      }
    }
    cur, rest, at := pq[k], pq[..k] + pq[k + 1..], k;
  }

  /** What taking an entry out leaves: its point may no longer be waiting. */
  lemma Popped(t: Task, s: Search, at: nat)
    requires Sound(t, s, {}) && at < |s.pq|
    ensures var cur := s.pq[at]; var s' := s.(pq := s.pq[..at] + s.pq[at + 1..]);
            && cur.pt in s.bestG && s.bestG[cur.pt] <= cur.g
            && Sound(t, s', if cur.g == s.bestG[cur.pt] then {cur.pt} else {})
  {
    hide Expanded, Box.Cells;
    var cur := s.pq[at];
    var s' := s.(pq := s.pq[..at] + s.pq[at + 1..]);
    assert forall i :: 0 <= i < |s'.pq| ==> s'.pq[i] == if i < at then s.pq[i] else s.pq[i + 1];
    RootedSame(t, s, s');
    var busy := if cur.g == s.bestG[cur.pt] then {cur.pt} else {};
    forall p | p in s'.bestG && p !in busy
      ensures Waiting(s', p) || (p != t.goal && Expanded(t, s', p, 4))
    {
      if Waiting(s, p) {
        var i :| 0 <= i < |s.pq| && s.pq[i].pt == p && s.pq[i].g == s.bestG[p];
        assert i != at;
        assert s'.pq[if i < at then i else i - 1] == s.pq[i];
      } else {
        SameExpanded(t, s, s', p, 4);
      }
    }
  }

  lemma RootedSame(t: Task, s: Search, s': Search)
    requires Rooted(t, s) && s'.bestG == s.bestG && s'.parent == s.parent
    ensures Rooted(t, s')
  {
    hide Task.Open, UnitStep;
    forall p | p in s'.bestG && p != t.start
      ensures Came(t, s', p)
    {
      assert Came(t, s, p);
    }
  }

  lemma SameExpanded(t: Task, s: Search, s': Search, p: Pt, n: nat)
    requires Expanded(t, s, p, n) && s.bestG.Keys <= s'.bestG.Keys
    ensures Expanded(t, s', p, n)
  {
    hide Task.Open;
  }

  /** A better way to a point: it is recorded and queued. */
  lemma Relaxed(t: Task, s: Search, cur: QNode, d: nat, ng: nat, f: int)
    requires Sound(t, s, {cur.pt}) && Expanded(t, s, cur.pt, d) && d < 4
    requires cur.pt in s.bestG && s.bestG[cur.pt] == cur.g && cur.g < ng && cur.pt != t.goal
    requires var nxt := Neighbour(cur.pt, d); t.Open(nxt) && (nxt in s.bestG ==> ng < s.bestG[nxt])
    ensures var nxt := Neighbour(cur.pt, d);
            var s' := Search(s.bestG[nxt := ng], s.parent[nxt := cur.pt], s.pq + [QNode(f, ng, nxt, d)]);
            Sound(t, s', {cur.pt}) && Expanded(t, s', cur.pt, d + 1) && s'.bestG[cur.pt] == cur.g
  {
    var nxt := Neighbour(cur.pt, d);
    var s' := Search(s.bestG[nxt := ng], s.parent[nxt := cur.pt], s.pq + [QNode(f, ng, nxt, d)]);
    InCells(t, nxt);
    RelaxedRooted(t, s, cur, d, ng, s');
    hide Task.Open, Box.Cells, Neighbour, Rooted;
    SameExpanded(t, s, s', cur.pt, d);
    assert forall i :: 0 <= i < |s.pq| ==> s'.pq[i] == s.pq[i];
    assert s'.pq[|s.pq|] == QNode(f, ng, nxt, d);
    forall p | p in s'.bestG && p !in {cur.pt}
      ensures Waiting(s', p) || (p != t.goal && Expanded(t, s', p, 4))
    {
      if p != nxt {
        if Waiting(s, p) {
          var i :| 0 <= i < |s.pq| && s.pq[i].pt == p && s.pq[i].g == s.bestG[p];
          assert s'.pq[i] == s.pq[i];
        } else {
          SameExpanded(t, s, s', p, 4);
        }
      }
    }
  }

  lemma InCells(t: Task, p: Pt)
    requires t.Open(p)
    ensures p in t.Area().Cells()
  {
    assert p == Pt(p.gx, p.gy);
  }

  lemma RelaxedRooted(t: Task, s: Search, cur: QNode, d: nat, ng: nat, s': Search)
    requires Rooted(t, s) && d < 4 && cur.pt in s.bestG && s.bestG[cur.pt] == cur.g && cur.g < ng
    requires var nxt := Neighbour(cur.pt, d);
             && t.Open(nxt) && (nxt in s.bestG ==> ng < s.bestG[nxt])
             && s'.bestG == s.bestG[nxt := ng] && s'.parent == s.parent[nxt := cur.pt]
    ensures Rooted(t, s') && Neighbour(cur.pt, d) != cur.pt
  {
    var nxt := Neighbour(cur.pt, d);
    assert UnitStep(cur.pt, nxt);
    assert nxt != cur.pt;
    hide Task.Open, UnitStep, Neighbour;
    forall p | p in s'.bestG && p != t.start
      ensures Came(t, s', p)
    {
      assert p != nxt ==> Came(t, s, p);
    }
  }

  method FindPath(t: Task) returns (found: bool, s: Search)
    requires t.start != t.goal
    ensures found ==> Rooted(t, s) && t.goal in s.bestG
    ensures !found ==> t.Enclosed(s.bestG.Keys)
    ensures Priced(t, s)
  {
    hide Rooted, Queued, Frontier, Task.Open, Box.Cells, Expanded, Waiting, EntryPriced, HasWalk;
    s := Search(map[t.start := 0], map[],
                [QNode(Abs(t.start.gx - t.goal.gx) + Abs(t.start.gy - t.goal.gy), 0, t.start, -1)]);
    StartIsSound(t, s);
    StartIsPriced(t, s);
    ghost var cells := t.Area().Cells();
    while s.pq != []
      invariant Sound(t, s, {}) && Priced(t, s)
      decreases Left(cells, s.bestG), Total(s.bestG), |s.pq|
    {
      var cur, rest, at := PopMin(s.pq);
      Popped(t, s, at);
      ghost var before := s;
      s := s.(pq := rest);
      FewerPriced(t, before, s, at);
      if cur.pt == t.goal {
        SoundIsRooted(t, s, if cur.g == s.bestG[cur.pt] then {cur.pt} else {});
        return true, s;
      }
      if cur.g > s.bestG[cur.pt] {
        continue;
      }
      s := ExpandPoint(t, s, cur);
    }
    NothingWaits(t, s);
    found := false;
  }

  lemma FewerPriced(t: Task, s: Search, s': Search, at: nat)
    requires Priced(t, s) && at < |s.pq| && s' == s.(pq := s.pq[..at] + s.pq[at + 1..])
    ensures Priced(t, s') && EntryPriced(t, s.pq[at])
  {
    hide EntryPriced, HasWalk;
    assert forall i :: 0 <= i < |s'.pq| ==> s'.pq[i] == if i < at then s.pq[i] else s.pq[i + 1];
  }

  lemma SoundIsRooted(t: Task, s: Search, busy: set<Pt>)
    requires Sound(t, s, busy)
    ensures Rooted(t, s)
  {
  }

  lemma StartIsSound(t: Task, s: Search)
    requires s.bestG == map[t.start := 0] && |s.pq| == 1 && s.pq[0].pt == t.start && s.pq[0].g == 0
    ensures Sound(t, s, {})
  {
    assert t.Open(t.start);
    InCells(t, t.start);
    assert Waiting(s, t.start);
    hide Expanded, Box.Cells;
  }

  lemma NothingWaits(t: Task, s: Search)
    requires Sound(t, s, {}) && s.pq == []
    ensures t.Enclosed(s.bestG.Keys)
  {
    hide Task.Open, Box.Cells, Neighbour;
    forall p | p in s.bestG
      ensures p != t.goal && Expanded(t, s, p, 4)
    {
      assert !Waiting(s, p);
    }
  }

  /** How many points are still to be reached. */
  ghost function Left(cells: set<Pt>, m: map<Pt, nat>): nat {
    |cells - m.Keys|
  }

  /** Reached more points, or reached one more cheaply, or nothing new. */
  ghost predicate Progress(cells: set<Pt>, s: Search, s': Search) {
    || Left(cells, s'.bestG) < Left(cells, s.bestG)
    || (Left(cells, s'.bestG) == Left(cells, s.bestG) && Total(s'.bestG) < Total(s.bestG))
    || (s'.bestG == s.bestG && s'.pq == s.pq)
  }

  method ExpandPoint(t: Task, s: Search, cur: QNode) returns (s': Search)
    requires Sound(t, s, {cur.pt}) && cur.pt in s.bestG && s.bestG[cur.pt] == cur.g && cur.pt != t.goal
    requires Priced(t, s) && EntryPriced(t, cur)
    ensures Sound(t, s', {}) && Progress(t.Area().Cells(), s, s') && Priced(t, s')
  {
    hide Rooted, Queued, Frontier, Box.Cells, Expanded, Waiting, Progress, EntryPriced, HasWalk, Priced;
    s' := s;
    ghost var cells := t.Area().Cells();
    NoProgress(cells, s);
    NothingExpanded(t, s, cur.pt);
    for d := 0 to 4
      invariant Sound(t, s', {cur.pt}) && cur.pt in s'.bestG && s'.bestG[cur.pt] == cur.g
      invariant Expanded(t, s', cur.pt, d) && Progress(cells, s, s') && Priced(t, s')
    {
      var nxt := Neighbour(cur.pt, d);
      if !t.Area().Holds(nxt) {
        OneMoreExpanded(t, s', cur.pt, d);
        continue;
      }
      if nxt != t.goal && nxt != t.start && nxt in t.blocked {
        OneMoreExpanded(t, s', cur.pt, d);
        continue;
      }
      var bend := if cur.dir != -1 && cur.dir != d then BEND_PENALTY else 0;
      var ng := cur.g + 1 + bend;
      if nxt !in s'.bestG || ng < s'.bestG[nxt] {
        var f := ng + Abs(nxt.gx - t.goal.gx) + Abs(nxt.gy - t.goal.gy);
        Relaxed(t, s', cur, d, ng, f);
        InCells(t, nxt);
        var next := Search(s'.bestG[nxt := ng], s'.parent[nxt := cur.pt], s'.pq + [QNode(f, ng, nxt, d)]);
        RelaxProgresses(cells, s, s', next, nxt, ng);
        RelaxedIsPriced(t, s', cur, d, next);
        s' := next;
      } else {
        OneMoreExpanded(t, s', cur.pt, d);
      }
    }
    ExpandedSettles(t, s', cur.pt);
  }

  lemma NoProgress(cells: set<Pt>, s: Search)
    ensures Progress(cells, s, s)
  {
  }

  lemma NothingExpanded(t: Task, s: Search, p: Pt)
    ensures Expanded(t, s, p, 0)
  {
  }

  lemma OneMoreExpanded(t: Task, s: Search, p: Pt, d: nat)
    requires Expanded(t, s, p, d) && d < 4
    requires t.Open(Neighbour(p, d)) ==> Neighbour(p, d) in s.bestG
    ensures Expanded(t, s, p, d + 1)
  {
    hide Task.Open, Neighbour;
  }

  lemma ExpandedSettles(t: Task, s: Search, p: Pt)
    requires Sound(t, s, {p}) && Expanded(t, s, p, 4) && p != t.goal
    ensures Sound(t, s, {})
  {
    hide Expanded, Waiting, Box.Cells;
  }

  lemma RelaxProgresses(cells: set<Pt>, s0: Search, s: Search, s': Search, p: Pt, v: nat)
    requires Progress(cells, s0, s) && s'.bestG == s.bestG[p := v] && p in cells
    requires p in s.bestG ==> v < s.bestG[p]
    ensures Progress(cells, s0, s')
  {
    hide Left, Total;
    if p in s.bestG {
      TotalImproves(s.bestG, p, v);
      LeftSame(cells, s, s', p);
    } else {
      LeftFewer(cells, s, s', p);
    }
  }

  lemma LeftSame(cells: set<Pt>, s: Search, s': Search, p: Pt)
    requires s'.bestG.Keys == s.bestG.Keys + {p} && p in s.bestG
    ensures Left(cells, s'.bestG) == Left(cells, s.bestG)
  {
    assert cells - s'.bestG.Keys == cells - s.bestG.Keys;
  }

  lemma LeftFewer(cells: set<Pt>, s: Search, s': Search, p: Pt)
    requires s'.bestG.Keys == s.bestG.Keys + {p} && p !in s.bestG && p in cells
    ensures Left(cells, s'.bestG) < Left(cells, s.bestG)
  {
    assert cells - s'.bestG.Keys == (cells - s.bestG.Keys) - {p};
    OneFewer(cells - s.bestG.Keys, cells - s'.bestG.Keys, p);
  }

  lemma OneFewer(a: set<Pt>, b: set<Pt>, p: Pt)
    requires p in a && b == a - {p}
    ensures |b| < |a|
  {
  }

  // ---- The path ------------------------------------------------------------------------------

  predicate Different(path: seq<Pt>) {
    forall i, j :: 0 <= i < j < |path| ==> path[i] != path[j]
  }

  ghost predicate Climbs(s: Search, path: seq<Pt>) {
    && (forall i :: 0 <= i < |path| ==> path[i] in s.bestG)
    && forall i, j :: 0 <= i < j < |path| && path[i] in s.bestG && path[j] in s.bestG ==>
      s.bestG[path[i]] < s.bestG[path[j]]
  }

  /** The way to the goal from some reached point. */
  ghost predicate Tail(t: Task, s: Search, path: seq<Pt>) {
    && path != [] && path[|path| - 1] == t.goal && Climbs(s, path)
    && forall k :: 0 <= k < |path| - 1 ==> t.LegalStep(path, k)
  }

  /** Follows the parents back from the goal; the cost drops at every step, so the start is reached. */
  method WalkBack(t: Task, s: Search) returns (path: seq<Pt>)
    requires Rooted(t, s) && t.goal in s.bestG && t.start != t.goal
    ensures t.LegalPath(path) && path[|path| - 1] == t.goal && Different(path) && |path| > 1
  {
    hide Rooted, Task.Open, UnitStep, Task.LegalStep, Climbs;
    var cur := t.goal;
    path := [t.goal];
    OnlyGoal(t, s);
    while cur != t.start
      invariant Tail(t, s, path) && cur == path[0] && cur in s.bestG
      decreases s.bestG[cur]
    {
      TailGrows(t, s, path);
      cur := s.parent[cur];
      path := [cur] + path;
    }
    ClimbsIsDifferent(s, path);
  }

  lemma OnlyGoal(t: Task, s: Search)
    requires t.goal in s.bestG
    ensures Tail(t, s, [t.goal])
  {
  }

  lemma TailGrows(t: Task, s: Search, path: seq<Pt>)
    requires Rooted(t, s) && Tail(t, s, path) && path[0] in s.bestG && path[0] != t.start
    ensures path[0] in s.parent && s.parent[path[0]] in s.bestG && Tail(t, s, [s.parent[path[0]]] + path)
    ensures s.bestG[s.parent[path[0]]] < s.bestG[path[0]]
  {
    hide Task.Open, UnitStep;
    assert Came(t, s, path[0]);
    var p := s.parent[path[0]];
    var longer := [p] + path;
    assert forall i :: 0 < i < |longer| ==> longer[i] == path[i - 1];
    forall k | 0 <= k < |longer| - 1
      ensures t.LegalStep(longer, k)
    {
      assert k > 0 ==> t.LegalStep(path, k - 1);
    }
    assert forall j :: 0 <= j < |path| ==> s.bestG[p] < s.bestG[path[j]];
  }

  lemma ClimbsIsDifferent(s: Search, path: seq<Pt>)
    requires Climbs(s, path)
    ensures Different(path)
  {
    forall i, j | 0 <= i < j < |path|
      ensures path[i] != path[j]
    {
      assert s.bestG[path[i]] < s.bestG[path[j]];
    }
  }

  // ---- Wires ---------------------------------------------------------------------------------

  datatype Wire = Wire(a: Pt, b: Pt)

  predicate AxisAligned(w: Wire) {
    (w.a.gx == w.b.gx) != (w.a.gy == w.b.gy)
  }

  /** The points between two places of a path lie on one line, in order and one grid step apart. */
  predicate Straight(path: seq<Pt>, i: nat, j: nat)
    requires i < j < |path|
  {
    exists d: nat :: d < 4 && Along(path, i, j, d)
  }

  predicate Along(path: seq<Pt>, i: nat, j: nat, d: nat)
    requires i < j < |path|
  {
    forall k :: i <= k <= j ==> path[k] == Ahead(path[i], d, k - i)
  }

  function Ahead(p: Pt, d: nat, n: int): Pt {
    if d == 0 then Pt(p.gx + n, p.gy) else if d == 1 then Pt(p.gx - n, p.gy)
    else if d == 2 then Pt(p.gx, p.gy + n) else Pt(p.gx, p.gy - n)
  }

  /** Wire `i` runs from place `cuts[i]` to place `cuts[i + 1]` of the path. */
  ghost predicate Cut(path: seq<Pt>, wires: seq<Wire>, cuts: seq<nat>) {
    && |cuts| == |wires| + 1 && cuts[0] == 0
    && (forall i :: 0 <= i < |wires| ==> WireOf(path, wires, cuts, i))
  }

  ghost predicate WireOf(path: seq<Pt>, wires: seq<Wire>, cuts: seq<nat>, i: nat)
    requires i < |wires| && |cuts| == |wires| + 1
  {
    cuts[i] < cuts[i + 1] < |path| && wires[i] == Wire(path[cuts[i]], path[cuts[i + 1]]) &&
    OneAxis(path, cuts[i], cuts[i + 1])
  }

  /** All on one vertical, or all on one horizontal. */
  ghost predicate OneAxis(path: seq<Pt>, i: nat, j: nat)
    requires i < j < |path|
  {
    || (forall k :: i <= k <= j ==> path[k].gx == path[i].gx)
    || (forall k :: i <= k <= j ==> path[k].gy == path[i].gy)
  }

  /** Neighbouring points differ in exactly one coordinate. */
  ghost predicate Manhattan(path: seq<Pt>) {
    forall k :: 0 <= k < |path| - 1 ==> AxisAligned(Wire(path[k], path[k + 1]))
  }

  /** Merges collinear steps into wires. */
  method Coalesce(path: seq<Pt>) returns (wires: seq<Wire>, ghost cuts: seq<nat>)
    requires path != [] && Manhattan(path)
    ensures Cut(path, wires, cuts) && cuts[|wires|] == |path| - 1
  {
    wires, cuts := [], [0];
    var segStart := 0;
    while segStart + 1 < |path|
      invariant 0 <= segStart < |path| && Cut(path, wires, cuts) && cuts[|wires|] == segStart
      decreases |path| - segStart
    {
      var segEnd := segStart + 1;
      var sdx, sdy := path[segEnd].gx - path[segStart].gx, path[segEnd].gy - path[segStart].gy;
      assert AxisAligned(Wire(path[segStart], path[segStart + 1]));
      while segEnd + 1 < |path|
        invariant segStart < segEnd < |path|
        invariant sdx == 0 ==> forall k :: segStart <= k <= segEnd ==> path[k].gx == path[segStart].gx
        invariant sdy == 0 ==> forall k :: segStart <= k <= segEnd ==> path[k].gy == path[segStart].gy
      {
        var ndx, ndy := path[segEnd + 1].gx - path[segEnd].gx, path[segEnd + 1].gy - path[segEnd].gy;
        if (sdx == 0 && ndx == 0) || (sdy == 0 && ndy == 0) {
          segEnd := segEnd + 1;
        } else {
          break;
        }
      }
      OneMoreWire(path, wires, cuts, segStart, segEnd);
      wires := wires + [Wire(path[segStart], path[segEnd])];
      cuts := cuts + [segEnd];
      segStart := segEnd;
    }
  }

  lemma OneMoreWire(path: seq<Pt>, wires: seq<Wire>, cuts: seq<nat>, i: nat, j: nat)
    requires Cut(path, wires, cuts) && cuts[|wires|] == i < j < |path| && OneAxis(path, i, j)
    ensures Cut(path, wires + [Wire(path[i], path[j])], cuts + [j])
  {
    hide OneAxis;
    var wires', cuts' := wires + [Wire(path[i], path[j])], cuts + [j];
    forall k | 0 <= k < |wires'|
      ensures WireOf(path, wires', cuts', k)
    {
      assert k < |wires| ==> WireOf(path, wires, cuts, k);
    }
  }

  /** A path of different points, one step apart, never turns back: on one axis it runs straight. */
  lemma {:induction false} OneAxisIsStraight(t: Task, path: seq<Pt>, i: nat, j: nat)
    requires t.LegalPath(path) && Different(path) && i < j < |path| && OneAxis(path, i, j)
    ensures Straight(path, i, j)
  {
    hide Task.Open;
    assert t.LegalStep(path, j - 1);
    var e: nat :| e < 4 && path[j] == Neighbour(path[j - 1], e);
    if j == i + 1 {
      assert Along(path, i, j, e);
    } else {
      OneAxisIsStraight(t, path, i, j - 1);
      var d: nat :| d < 4 && Along(path, i, j - 1, d);
      assert path[j - 1] == Ahead(path[i], d, j - 1 - i) && path[j - 2] == Ahead(path[i], d, j - 2 - i);
      assert path[j] != path[j - 2] && path[i] != path[j - 1];
      assert Along(path, i, j, d);
    }
  }

  /** Wires in a chain from one pin to the other, each along one axis and of some length. */
  ghost predicate Joins(wires: seq<Wire>, start: Pt, goal: Pt) {
    && wires != [] && wires[0].a == start && wires[|wires| - 1].b == goal
    && (forall i :: 0 <= i < |wires| ==> AxisAligned(wires[i]))
    && forall i :: 0 <= i < |wires| - 1 ==> wires[i].b == wires[i + 1].a
  }

  /** The wires run over exactly the points of a legal path, cut into straight runs. */
  ghost predicate Traces(t: Task, wires: seq<Wire>, path: seq<Pt>, cuts: seq<nat>) {
    && t.LegalPath(path) && path[|path| - 1] == t.goal
    && Cut(path, wires, cuts) && cuts[|wires|] == |path| - 1
    && forall i :: 0 <= i < |wires| ==> RunsStraight(path, wires, cuts, i)
  }

  ghost predicate RunsStraight(path: seq<Pt>, wires: seq<Wire>, cuts: seq<nat>, i: nat)
    requires i < |wires| && |cuts| == |wires| + 1
  {
    cuts[i] < cuts[i + 1] < |path| && Straight(path, cuts[i], cuts[i + 1])
  }

  lemma CutJoins(path: seq<Pt>, wires: seq<Wire>, cuts: seq<nat>)
    requires Cut(path, wires, cuts) && cuts[|wires|] == |path| - 1 && |path| > 1
    requires forall i, j :: 0 <= i < j < |path| && OneAxis(path, i, j) ==> path[i] != path[j]
    ensures Joins(wires, path[0], path[|path| - 1])
  {
    forall i | 0 <= i < |wires|
      ensures AxisAligned(wires[i])
    {
      assert WireOf(path, wires, cuts, i);
    }
    forall i | 0 <= i < |wires| - 1
      ensures wires[i].b == wires[i + 1].a
    {
      assert WireOf(path, wires, cuts, i) && WireOf(path, wires, cuts, i + 1);
    }
    assert WireOf(path, wires, cuts, 0) && WireOf(path, wires, cuts, |wires| - 1);
  }

  lemma LegalIsManhattan(t: Task, path: seq<Pt>)
    requires t.LegalPath(path)
    ensures Manhattan(path)
  {
    hide Task.Open;
    forall k | 0 <= k < |path| - 1
      ensures AxisAligned(Wire(path[k], path[k + 1]))
    {
      assert t.LegalStep(path, k);
      var d: nat :| d < 4 && path[k + 1] == Neighbour(path[k], d);
    }
  }

  // ---- What a legal path is on the sheet -------------------------------------------------------

  /** From pin to pin over neighbouring points, none more than 15 beyond the pins in any direction and none blocked
      but the pins themselves. */
  ghost predicate FreePath(t: Task, path: seq<Pt>) {
    && path != [] && path[0] == t.start && path[|path| - 1] == t.goal
    && (forall k :: 0 <= k < |path| - 1 ==> Abs(path[k + 1].gx - path[k].gx) + Abs(path[k + 1].gy - path[k].gy) == 1)
    && forall k :: 0 < k < |path| ==>
         && (path[k] in t.blocked ==> path[k] == t.start || path[k] == t.goal)
         && (t.start.gx - 15 <= path[k].gx || t.goal.gx - 15 <= path[k].gx)
         && (path[k].gx <= t.start.gx + 15 || path[k].gx <= t.goal.gx + 15)
         && (t.start.gy - 15 <= path[k].gy || t.goal.gy - 15 <= path[k].gy)
         && (path[k].gy <= t.start.gy + 15 || path[k].gy <= t.goal.gy + 15)
  }

  lemma UnitStepIsNext(a: Pt, b: Pt)
    ensures UnitStep(a, b) <==> Abs(b.gx - a.gx) + Abs(b.gy - a.gy) == 1
  {
    if Abs(b.gx - a.gx) + Abs(b.gy - a.gy) == 1 {
      var d: nat := if b.gx > a.gx then 0 else if b.gx < a.gx then 1 else if b.gy > a.gy then 2 else 3;
      assert b == Neighbour(a, d);
    }
  }

  /** The paths the search is about are exactly these. */
  lemma LegalIsFree(t: Task, path: seq<Pt>)
    ensures t.LegalPath(path) && path[|path| - 1] == t.goal <==> FreePath(t, path)
  {
    hide UnitStep;
    forall k | 0 <= k < |path| - 1
      ensures UnitStep(path[k], path[k + 1]) <==>
              Abs(path[k + 1].gx - path[k].gx) + Abs(path[k + 1].gy - path[k].gy) == 1
    {
      UnitStepIsNext(path[k], path[k + 1]);
    }
    if FreePath(t, path) {
      forall k | 0 <= k < |path| - 1
        ensures t.LegalStep(path, k)
      {
        assert 0 < k + 1 < |path|;
      }
    }
    if t.LegalPath(path) {
      forall k | 0 <= k < |path| - 1
        ensures Abs(path[k + 1].gx - path[k].gx) + Abs(path[k + 1].gy - path[k].gy) == 1
      {
        assert t.LegalStep(path, k);
      }
      forall k | 0 < k < |path|
        ensures t.Open(path[k])
      {
        assert t.LegalStep(path, k - 1);
      }
    }
  }

  lemma EnclosedHasNoFreePath(t: Task, reached: set<Pt>)
    requires t.Enclosed(reached)
    ensures forall path :: !FreePath(t, path)
  {
    hide Task.Enclosed, FreePath, Task.LegalPath;
    forall path | FreePath(t, path)
      ensures false
    {
      LegalIsFree(t, path);
      t.EnclosedHasNoPath(reached, path);
    }
  }

  /** Wires between two pins. If any legal path exists they trace one; otherwise, and only then, they form the
      fallback corner, which may cross anything. */
  method RouteTwoPoints(t: Task)
    returns (wires: seq<Wire>, ghost path: seq<Pt>, ghost cuts: seq<nat>, ghost reached: set<Pt>)
    ensures t.start == t.goal ==> wires == []
    ensures t.start != t.goal ==> Joins(wires, t.start, t.goal)
    ensures t.start != t.goal ==> Traces(t, wires, path, cuts) || (t.Enclosed(reached) && |wires| <= 2)
    ensures t.start != t.goal ==>
              (Traces(t, wires, path, cuts) && FreePath(t, path)) || forall p :: !FreePath(t, p)
  {
    path, cuts, reached := [], [], {};
    if t.start == t.goal {
      return [], path, cuts, reached;
    }
    hide Rooted, Task.Open, UnitStep, Task.LegalStep, Cut, OneAxis, Manhattan, Different, Task.Enclosed, Joins,
      FreePath;
    var found, s := FindPath(t);
    reached := s.bestG.Keys;
    if found {
      var walked := WalkBack(t, s);
      path := walked;
      LegalIsManhattan(t, path);
      wires, cuts := Coalesce(walked);
      DifferentJoins(path, wires, cuts);
      TracesPath(t, path, wires, cuts);
      LegalIsFree(t, path);
    } else {
      EnclosedHasNoFreePath(t, reached);
      var mid := Pt(t.goal.gx, t.start.gy);
      var corner := [t.start];
      if mid != t.start && mid != t.goal {
        corner := corner + [mid];
      }
      corner := corner + [t.goal];
      path := corner;
      CornerIsManhattan(path);
      wires, cuts := Coalesce(corner);
      CornerJoins(path, wires, cuts);
    }
  }

  lemma DifferentJoins(path: seq<Pt>, wires: seq<Wire>, cuts: seq<nat>)
    requires Cut(path, wires, cuts) && cuts[|wires|] == |path| - 1 && |path| > 1 && Different(path)
    ensures Joins(wires, path[0], path[|path| - 1])
  {
    hide Cut, Joins;
    CutJoins(path, wires, cuts);
  }

  lemma TracesPath(t: Task, path: seq<Pt>, wires: seq<Wire>, cuts: seq<nat>)
    requires t.LegalPath(path) && path[|path| - 1] == t.goal && Different(path)
    requires Cut(path, wires, cuts) && cuts[|wires|] == |path| - 1
    ensures Traces(t, wires, path, cuts)
  {
    hide Task.LegalStep, Different, OneAxis, Straight;
    forall i | 0 <= i < |wires|
      ensures RunsStraight(path, wires, cuts, i)
    {
      assert WireOf(path, wires, cuts, i);
      OneAxisIsStraight(t, path, cuts[i], cuts[i + 1]);
    }
  }

  lemma CornerIsManhattan(path: seq<Pt>)
    requires |path| == 2 || |path| == 3
    requires var a, z := path[0], path[|path| - 1]; var mid := Pt(z.gx, a.gy);
             && a != z && (|path| == 2 <==> mid == a || mid == z) && (|path| == 3 ==> path[1] == mid)
    ensures Manhattan(path) && Different(path)
  {
  }

  lemma CornerJoins(path: seq<Pt>, wires: seq<Wire>, cuts: seq<nat>)
    requires 2 <= |path| <= 3 && Different(path) && Cut(path, wires, cuts) && cuts[|wires|] == |path| - 1
    ensures Joins(wires, path[0], path[|path| - 1]) && |wires| <= 2
  {
    DifferentJoins(path, wires, cuts);
    CutsAdvance(path, wires, cuts, |wires|);
  }

  lemma {:induction false} CutsAdvance(path: seq<Pt>, wires: seq<Wire>, cuts: seq<nat>, k: nat)
    requires Cut(path, wires, cuts) && k <= |wires|
    ensures cuts[k] >= k
  {
    hide OneAxis;
    if k > 0 {
      CutsAdvance(path, wires, cuts, k - 1);
      assert WireOf(path, wires, cuts, k - 1);
    }
  }
}

/** Why the bridge search is correct: the invariants of its label table, queue and expanded cells, and what
    they imply when a goal is popped (cheapest bridge) or the queue runs dry (no bridge exists). */
module SearchProof {
  import opened Grid
  import opened Bridging

  /** Best known cost of a cell in this search, and how it was entered. */
  datatype Label = Label(g: real, code: int)

  datatype QueueNode = QueueNode(f: real, g: real, cell: Cell)

  /** The byte marking a seed; via codes stay below it because a board has at most six layers. */
  const SEED_CODE: int := 255
  const MAX_LAYERS: int := 6

  type Labels = map<Cell, Label>
  type Queue = multiset<QueueNode>

  /** A relaxation lowers a label, or does nothing. */
  function Relaxed(labels: Labels, c: Cell, g: real, code: int): Labels {
    if c !in labels || g < labels[c].g then labels[c := Label(g, code)] else labels
  }

  function Pushed(labels: Labels, queue: Queue, b: Box, c: Cell, g: real): Queue {
    if c !in labels || g < labels[c].g then queue + multiset{QueueNode(g + Heuristic(b, c), g, c)} else queue
  }

  // ---- Invariants --------------------------------------------------------------------------

  /** Seeds never get worse than their starting cost. */
  ghost predicate SeedsLabelled(seeds: map<Cell, real>, labels: Labels) {
    forall s :: s in seeds ==> s in labels && labels[s].g <= seeds[s]
  }

  /** A label is a seed's own, or one legal step from an earlier expanded cell at exactly the step's cost. */
  ghost predicate Entered(t: Terrain, seeds: map<Cell, real>, labels: Labels, earlier: seq<Cell>, c: Cell)
    requires c in labels
  {
    if labels[c].code == SEED_CODE then c in seeds && labels[c].g == seeds[c]
    else
      var p := ParentOf(c, labels[c].code);
      var m := MoveInto(c, labels[c].code);
      && p in earlier && p in labels && t.Legal(p, m) && Target(p, m) == c
      && labels[c].g == labels[p].g + t.Cost(p, m)
  }

  ghost predicate AllEntered(t: Terrain, seeds: map<Cell, real>, labels: Labels, expanded: seq<Cell>) {
    && (forall c :: c in labels ==> Inside(t.size, c) && Entered(t, seeds, labels, expanded, c))
    && (forall i :: 0 <= i < |expanded| ==>
          expanded[i] in labels && Entered(t, seeds, labels, expanded[..i], expanded[i]))
  }

  /** Expanded cells are distinct, are no goals, and lie below the last popped key. */
  ghost predicate Settled(t: Terrain, b: Box, labels: Labels, expanded: seq<Cell>, last: real) {
    && (forall c :: c in expanded ==> c in labels && c !in t.goals && labels[c].g + Heuristic(b, c) <= last)
    && (forall i, j :: 0 <= i < j < |expanded| ==> expanded[i] != expanded[j])
  }

  ghost predicate StepDone(t: Terrain, labels: Labels, c: Cell, m: Move)
    requires c in labels
  {
    t.Legal(c, m) ==> Target(c, m) in labels && labels[Target(c, m)].g <= labels[c].g + t.Cost(c, m)
  }

  ghost predicate AllStepsDone(t: Terrain, labels: Labels, cells: seq<Cell>) {
    forall c, m :: c in cells && c in labels ==> StepDone(t, labels, c, m)
  }

  /** Every labelled cell still to be expanded is queued under its current key; no entry repeats. */
  ghost predicate Queued(b: Box, labels: Labels, queue: Queue, expanded: seq<Cell>) {
    forall c {:trigger HasEntry(b, labels, queue, c)} :: c in labels && c !in expanded ==> HasEntry(b, labels, queue, c)
  }

  ghost predicate HasEntry(b: Box, labels: Labels, queue: Queue, c: Cell)
    requires c in labels
  {
    QueueNode(labels[c].g + Heuristic(b, c), labels[c].g, c) in queue
  }

  ghost predicate QueueSound(b: Box, labels: Labels, queue: Queue, expanded: seq<Cell>, last: real) {
    forall n {:trigger SoundEntry(b, labels, queue, expanded, last, n)} :: n in queue ==>
      SoundEntry(b, labels, queue, expanded, last, n)
  }

  ghost predicate SoundEntry(b: Box, labels: Labels, queue: Queue, expanded: seq<Cell>, last: real, n: QueueNode) {
    && queue[n] == 1 && n.cell in labels && n.f == n.g + Heuristic(b, n.cell)
    && last <= n.f && labels[n.cell].g <= n.g
    && (n.cell in expanded ==> labels[n.cell].g < n.g)
  }

  ghost predicate Inv(t: Terrain, b: Box, seeds: map<Cell, real>, labels: Labels, queue: Queue,
                      expanded: seq<Cell>, last: real) {
    && SeedsLabelled(seeds, labels)
    && AllEntered(t, seeds, labels, expanded)
    && Settled(t, b, labels, expanded, last)
    && Queued(b, labels, queue, expanded)
    && QueueSound(b, labels, queue, expanded, last)
  }

  // ---- Preservation ------------------------------------------------------------------------

  /** A step out of the cell just popped never improves an expanded cell. */
  lemma ExpandedStays(t: Terrain, b: Box, labels: Labels, expanded: seq<Cell>, last: real, cur: Cell, m: Move)
    requires t.Valid() && Settled(t, b, labels, expanded, last)
    requires cur in labels && labels[cur].g + Heuristic(b, cur) == last && t.Legal(cur, m)
    requires Target(cur, m) in expanded
    ensures labels[Target(cur, m)].g <= labels[cur].g + t.Cost(cur, m)
  {
    HeuristicConsistent(t, b, cur, m);
  }

  lemma EnteredStays(t: Terrain, seeds: map<Cell, real>, labels: Labels, labels': Labels, earlier: seq<Cell>, c: Cell)
    requires c in labels && c in labels' && labels'[c] == labels[c] && Entered(t, seeds, labels, earlier, c)
    requires forall p :: p in earlier && p in labels ==> p in labels' && labels'[p] == labels[p]
    ensures Entered(t, seeds, labels', earlier, c)
  {
    hide Terrain.Legal, Terrain.Cost, ParentOf, MoveInto, Target;
  }

  lemma EnteredByStep(t: Terrain, seeds: map<Cell, real>, labels: Labels, earlier: seq<Cell>, cur: Cell, m: Move)
    requires t.Legal(cur, m) && Inside(t.size, cur) && cur in earlier && cur in labels
    requires t.size.layers <= MAX_LAYERS
    requires Target(cur, m) in labels
    requires labels[Target(cur, m)] == Label(labels[cur].g + t.Cost(cur, m), ParentCode(cur, m))
    ensures Entered(t, seeds, labels, earlier, Target(cur, m)) && Inside(t.size, Target(cur, m))
  {
    hide Terrain.Cost;
    ParentCodeInverts(cur, m);
  }

  lemma RelaxKeepsEntered(t: Terrain, seeds: map<Cell, real>, labels: Labels, expanded: seq<Cell>, cur: Cell, m: Move)
    requires t.size.layers <= MAX_LAYERS && AllEntered(t, seeds, labels, expanded)
    requires cur in expanded && cur in labels && t.Legal(cur, m)
    requires Target(cur, m) in expanded ==>
               Target(cur, m) in labels && labels[Target(cur, m)].g <= labels[cur].g + t.Cost(cur, m)
    ensures AllEntered(t, seeds, Relaxed(labels, Target(cur, m), labels[cur].g + t.Cost(cur, m), ParentCode(cur, m)),
                       expanded)
  {
    hide Terrain.Legal, Terrain.Cost, Entered, Target, ParentCode;
    var to := Target(cur, m);
    var labels' := Relaxed(labels, to, labels[cur].g + t.Cost(cur, m), ParentCode(cur, m));
    assert forall i :: 0 <= i < |expanded| ==> expanded[i] in labels;
    if labels' != labels {
      assert to !in expanded && cur != to;
      EnteredByStep(t, seeds, labels', expanded, cur, m);
      forall c | c in labels'
        ensures Inside(t.size, c) && Entered(t, seeds, labels', expanded, c)
      {
        if c != to {
          EnteredStays(t, seeds, labels, labels', expanded, c);
        }
      }
      forall i | 0 <= i < |expanded|
        ensures expanded[i] in labels' && Entered(t, seeds, labels', expanded[..i], expanded[i])
      {
        EnteredStays(t, seeds, labels, labels', expanded[..i], expanded[i]);
      }
    }
  }

  lemma RelaxKeepsQueue(t: Terrain, b: Box, labels: Labels, queue: Queue, expanded: seq<Cell>, last: real,
                        cur: Cell, m: Move)
    requires t.Valid() && Queued(b, labels, queue, expanded) && QueueSound(b, labels, queue, expanded, last)
    requires cur in labels && labels[cur].g + Heuristic(b, cur) == last && t.Legal(cur, m)
    requires Target(cur, m) in expanded ==>
               Target(cur, m) in labels && labels[Target(cur, m)].g <= labels[cur].g + t.Cost(cur, m)
    ensures var g := labels[cur].g + t.Cost(cur, m);
            var labels' := Relaxed(labels, Target(cur, m), g, ParentCode(cur, m));
            var queue' := Pushed(labels, queue, b, Target(cur, m), g);
            Queued(b, labels', queue', expanded) && QueueSound(b, labels', queue', expanded, last)
  {
    HeuristicConsistent(t, b, cur, m);
    hide Terrain.Legal, Terrain.Cost, Target, Heuristic;
    var to := Target(cur, m);
    var g := labels[cur].g + t.Cost(cur, m);
    var n := QueueNode(g + Heuristic(b, to), g, to);
    if to !in labels || g < labels[to].g {
      assert n !in queue by {
        assert n in queue ==> SoundEntry(b, labels, queue, expanded, last, n);
      }
      var labels' := Relaxed(labels, to, g, ParentCode(cur, m));
      var queue' := queue + multiset{n};
      forall k | k in queue'
        ensures SoundEntry(b, labels', queue', expanded, last, k)
      {
        if k != n {
          assert SoundEntry(b, labels, queue, expanded, last, k);
        }
      }
      forall c | c in labels' && c !in expanded
        ensures HasEntry(b, labels', queue', c)
      {
        if c != to {
          assert HasEntry(b, labels, queue, c);
        }
      }
    }
  }

  /** One relaxation out of the cell just expanded keeps the whole invariant, completes that step, and
      touches no expanded label. */
  lemma RelaxKeepsInv(t: Terrain, b: Box, seeds: map<Cell, real>, labels: Labels, queue: Queue,
                      expanded: seq<Cell>, last: real, cur: Cell, m: Move)
    requires t.Valid() && t.size.layers <= MAX_LAYERS && Inv(t, b, seeds, labels, queue, expanded, last)
    requires cur in expanded && cur in labels && labels[cur].g + Heuristic(b, cur) == last && t.Legal(cur, m)
    ensures var g := labels[cur].g + t.Cost(cur, m);
            var labels' := Relaxed(labels, Target(cur, m), g, ParentCode(cur, m));
            var queue' := Pushed(labels, queue, b, Target(cur, m), g);
            && Inv(t, b, seeds, labels', queue', expanded, last)
            && cur in labels' && labels'[cur] == labels[cur]
            && StepDone(t, labels', cur, m)
            && Improves(labels, labels', expanded)
  {
    hide Terrain.Legal, Terrain.Cost, Target, Heuristic, Entered;
    if Target(cur, m) in expanded {
      ExpandedStays(t, b, labels, expanded, last, cur, m);
    }
    RelaxKeepsEntered(t, seeds, labels, expanded, cur, m);
    RelaxKeepsQueue(t, b, labels, queue, expanded, last, cur, m);
  }

  /** Labels only drop, and those of expanded cells not at all. */
  ghost predicate Improves(labels: Labels, labels': Labels, expanded: seq<Cell>) {
    && (forall c :: c in labels ==> c in labels' && labels'[c].g <= labels[c].g)
    && (forall c :: c in expanded && c in labels ==> c in labels' && labels'[c] == labels[c])
  }

  lemma StepStaysDone(t: Terrain, labels: Labels, labels': Labels, expanded: seq<Cell>, c: Cell, m: Move)
    requires c in expanded && c in labels && Improves(labels, labels', expanded) && StepDone(t, labels, c, m)
    ensures c in labels' && StepDone(t, labels', c, m)
  {
    hide Terrain.Legal, Terrain.Cost, Target;
  }

  lemma StepsStayDone(t: Terrain, labels: Labels, labels': Labels, cells: seq<Cell>, expanded: seq<Cell>)
    requires AllStepsDone(t, labels, cells) && Improves(labels, labels', expanded)
    requires forall c :: c in cells ==> c in expanded && c in labels
    ensures AllStepsDone(t, labels', cells)
  {
    hide StepDone, Improves;
    forall c, m | c in cells && c in labels'
      ensures StepDone(t, labels', c, m)
    {
      assert StepDone(t, labels, c, m);
      StepStaysDone(t, labels, labels', expanded, c, m);
    }
  }

  lemma PopKeepsQueue(b: Box, labels: Labels, queue: Queue, expanded: seq<Cell>, last: real, n: QueueNode)
    requires Queued(b, labels, queue, expanded) && QueueSound(b, labels, queue, expanded, last)
    requires n in queue && (forall k :: k in queue ==> n.f <= k.f)
    requires n.cell in labels && n.g <= labels[n.cell].g
    ensures Queued(b, labels, queue - multiset{n}, expanded + [n.cell])
    ensures QueueSound(b, labels, queue - multiset{n}, expanded + [n.cell], n.f)
  {
    hide Heuristic;
    var expanded' := expanded + [n.cell];
    var queue' := queue - multiset{n};
    assert SoundEntry(b, labels, queue, expanded, last, n);
    forall k | k in queue'
      ensures SoundEntry(b, labels, queue', expanded', n.f, k)
    {
      assert SoundEntry(b, labels, queue, expanded, last, k);
    }
    forall c | c in labels && c !in expanded'
      ensures HasEntry(b, labels, queue', c)
    {
      assert HasEntry(b, labels, queue, c);
    }
  }

  lemma PopKeepsEntered(t: Terrain, seeds: map<Cell, real>, labels: Labels, expanded: seq<Cell>, next: Cell)
    requires AllEntered(t, seeds, labels, expanded) && next in labels
    ensures AllEntered(t, seeds, labels, expanded + [next])
  {
    hide Entered;
    var expanded' := expanded + [next];
    assert forall i :: 0 <= i < |expanded| ==> expanded'[..i] == expanded[..i];
    assert expanded'[..|expanded|] == expanded;
    forall c | c in labels
      ensures Entered(t, seeds, labels, expanded', c)
    {
      EnteredGrows(t, seeds, labels, expanded, next, c);
    }
  }

  lemma EnteredGrows(t: Terrain, seeds: map<Cell, real>, labels: Labels, earlier: seq<Cell>, more: Cell, c: Cell)
    requires c in labels && Entered(t, seeds, labels, earlier, c)
    ensures Entered(t, seeds, labels, earlier + [more], c)
  {
  }

  /** Popping a current entry moves its cell to the expanded ones. */
  lemma PopKeepsInv(t: Terrain, b: Box, seeds: map<Cell, real>, labels: Labels, queue: Queue,
                    expanded: seq<Cell>, last: real, n: QueueNode)
    requires Inv(t, b, seeds, labels, queue, expanded, last)
    requires n in queue && (forall k :: k in queue ==> n.f <= k.f)
    requires n.cell in labels && n.g <= labels[n.cell].g && n.cell !in t.goals
    ensures Inv(t, b, seeds, labels, queue - multiset{n}, expanded + [n.cell], n.f)
    ensures n.cell !in expanded && labels[n.cell].g + Heuristic(b, n.cell) == n.f
  {
    hide AllEntered, Queued, Heuristic;
    PopKeepsQueue(b, labels, queue, expanded, last, n);
    PopKeepsEntered(t, seeds, labels, expanded, n.cell);
    assert SoundEntry(b, labels, queue, expanded, last, n);
  }

  /** Dropping a stale entry changes nothing else. */
  lemma SkipKeepsInv(t: Terrain, b: Box, seeds: map<Cell, real>, labels: Labels, queue: Queue,
                     expanded: seq<Cell>, last: real, n: QueueNode)
    requires Inv(t, b, seeds, labels, queue, expanded, last)
    requires n in queue && n.cell in labels && labels[n.cell].g < n.g
    ensures Inv(t, b, seeds, labels, queue - multiset{n}, expanded, last)
  {
    var queue' := queue - multiset{n};
    forall k | k in queue'
      ensures SoundEntry(b, labels, queue', expanded, last, k)
    {
      assert SoundEntry(b, labels, queue, expanded, last, k);
    }
    forall c | c in labels && c !in expanded
      ensures HasEntry(b, labels, queue', c)
    {
      assert HasEntry(b, labels, queue, c);
    }
  }

  lemma LeastKey(queue: Queue) returns (n: QueueNode)
    requires |queue| > 0
    ensures n in queue && forall k :: k in queue ==> n.f <= k.f
    decreases |queue|
  {
    n :| n in queue;
    var rest := queue - multiset{n};
    assert queue == rest + multiset{n};
    if |rest| > 0 {
      var k := LeastKey(rest);
      if k.f < n.f {
        n := k;
      }
    }
  }

  // ---- What the invariants give ------------------------------------------------------------

  /** Along any legal walk from a seed, either every cell so far is expanded with a label no worse than the
      walk, or some cell was met that is labelled but not yet expanded, with an honest key. */
  lemma {:induction false} WalkMeetsFrontier(t: Terrain, b: Box, seeds: map<Cell, real>, labels: Labels, queue: Queue,
                          expanded: seq<Cell>, last: real, s: Cell, moves: seq<Move>)
    requires t.Valid() && Inv(t, b, seeds, labels, queue, expanded, last) && AllStepsDone(t, labels, expanded)
    requires s in seeds && Walk(t, s, moves)
    ensures var e := End(s, moves);
            || (e in expanded && e in labels && labels[e].g <= seeds[s] + WalkCost(t, s, moves))
            || (exists n :: n in queue && n.f <= seeds[s] + WalkCost(t, s, moves) + Heuristic(b, e))
  {
    hide Terrain.Legal, Terrain.Cost, Target, Heuristic, Entered;
    var e := End(s, moves);
    if moves == [] {
      if s !in expanded {
        assert HasEntry(b, labels, queue, s);
      }
    } else {
      var k := |moves| - 1;
      WalkMeetsFrontier(t, b, seeds, labels, queue, expanded, last, s, moves[..k]);
      var p := End(s, moves[..k]);
      if p in expanded && p in labels && labels[p].g <= seeds[s] + WalkCost(t, s, moves[..k]) {
        assert StepDone(t, labels, p, moves[k]);
        if e !in expanded {
          assert HasEntry(b, labels, queue, e);
        }
      } else {
        HeuristicConsistent(t, b, p, moves[k]);
      }
    }
  }

  /** When a goal carries the least key, no legal walk from any seed to any goal is cheaper than its label. */
  lemma PoppedGoalIsCheapest(t: Terrain, b: Box, seeds: map<Cell, real>, labels: Labels, queue: Queue,
                             expanded: seq<Cell>, last: real, n: QueueNode, s: Cell, moves: seq<Move>)
    requires t.Valid() && BoxHolds(b, t.goals)
    requires Inv(t, b, seeds, labels, queue, expanded, last) && AllStepsDone(t, labels, expanded)
    requires n in queue && (forall k :: k in queue ==> n.f <= k.f) && n.cell in t.goals
    requires s in seeds && Walk(t, s, moves) && End(s, moves) in t.goals
    ensures n.g <= seeds[s] + WalkCost(t, s, moves)
  {
    WalkMeetsFrontier(t, b, seeds, labels, queue, expanded, last, s, moves);
    HeuristicZeroOnGoals(t, b, n.cell);
    assert SoundEntry(b, labels, queue, expanded, last, n);
    HeuristicZeroOnGoals(t, b, End(s, moves));
  }

  /** When the queue is empty, no goal can be reached from any seed. */
  lemma EmptyQueueMeansNoBridge(t: Terrain, b: Box, seeds: map<Cell, real>, labels: Labels,
                                expanded: seq<Cell>, last: real, s: Cell, moves: seq<Move>)
    requires t.Valid() && Inv(t, b, seeds, labels, multiset{}, expanded, last) && AllStepsDone(t, labels, expanded)
    requires s in seeds && Walk(t, s, moves)
    ensures End(s, moves) !in t.goals
  {
    WalkMeetsFrontier(t, b, seeds, labels, multiset{}, expanded, last, s, moves);
  }

  // ---- Walking back ------------------------------------------------------------------------

  /** The cells of a bridge, each entered from the one before by a legal move. */
  ghost predicate Trail(t: Terrain, cells: seq<Cell>, moves: seq<Move>) {
    && |cells| == |moves| + 1
    && forall i :: 0 <= i < |moves| ==> t.Legal(cells[i], moves[i]) && cells[i + 1] == Target(cells[i], moves[i])
  }

  lemma {:induction false} TrailIsWalk(t: Terrain, cells: seq<Cell>, moves: seq<Move>)
    requires Trail(t, cells, moves)
    ensures Walk(t, cells[0], moves) && End(cells[0], moves) == cells[|moves|]
  {
    hide Terrain.Legal, Target;
    if moves != [] {
      TrailIsWalk(t, cells[..|moves|], moves[..|moves| - 1]);
    }
  }

  /** Putting one step in front of a walk. */
  lemma {:induction false} WalkCons(t: Terrain, p: Cell, m: Move, moves: seq<Move>)
    ensures End(p, [m] + moves) == End(Target(p, m), moves)
    ensures WalkCost(t, p, [m] + moves) == t.Cost(p, m) + WalkCost(t, Target(p, m), moves)
  {
    hide Terrain.Cost, Target;
    if moves == [] {
      assert [m] + moves == [m];
      assert [m][..0] == [];
    } else {
      var k := |moves| - 1;
      WalkCons(t, p, m, moves[..k]);
      assert ([m] + moves)[..|moves|] == [m] + moves[..k];
    }
  }

  /** The part of a bridge already walked back. Each cell but the last is an expanded one, met at the
      position `pos` gives; positions grow along the bridge, so the walk back only ever moves earlier. */
  ghost predicate Tail(t: Terrain, labels: Labels, expanded: seq<Cell>, pos: seq<nat>, cells: seq<Cell>,
                       moves: seq<Move>)
  {
    && Trail(t, cells, moves) && |pos| == |moves|
    && cells[0] in labels && cells[|moves|] in labels
    && labels[cells[|moves|]].g == labels[cells[0]].g + WalkCost(t, cells[0], moves)
    && (forall i :: 0 <= i < |pos| ==> pos[i] < |expanded| && cells[i] == expanded[pos[i]])
    && (forall i, j :: 0 <= i < j < |pos| ==> pos[i] < pos[j])
    && cells[|moves|] !in expanded
  }

  function Reach(expanded: seq<Cell>, pos: seq<nat>): nat {
    if pos == [] then |expanded| else pos[0]
  }

  lemma TrailCons(t: Terrain, p: Cell, m: Move, cells: seq<Cell>, moves: seq<Move>)
    requires Trail(t, cells, moves) && t.Legal(p, m) && cells[0] == Target(p, m)
    ensures Trail(t, [p] + cells, [m] + moves)
  {
    hide Terrain.Legal, Target;
  }

  /** The cell a label was entered from, at its position among the expanded cells. */
  lemma ParentIsEarlier(t: Terrain, seeds: map<Cell, real>, labels: Labels, expanded: seq<Cell>, at: nat, c: Cell)
    returns (before: nat)
    requires AllEntered(t, seeds, labels, expanded) && c in labels && labels[c].code != SEED_CODE
    requires at == |expanded| || (at < |expanded| && expanded[at] == c)
    ensures before < at
    ensures var p := ParentOf(c, labels[c].code);
            var m := MoveInto(c, labels[c].code);
            && expanded[before] == p && p in labels && t.Legal(p, m) && Target(p, m) == c
            && labels[c].g == labels[p].g + t.Cost(p, m)
  {
    hide Terrain.Legal, Terrain.Cost, Target, ParentOf, MoveInto;
    assert expanded[..|expanded|] == expanded;
    assert Entered(t, seeds, labels, expanded[..at], c);
    var p := ParentOf(c, labels[c].code);
    before :| 0 <= before < at && expanded[..at][before] == p;
  }

  /** One parent step: the walk back moves to a strictly earlier expanded cell. */
  lemma TailExtends(t: Terrain, labels: Labels, expanded: seq<Cell>, before: nat, p: Cell, m: Move,
                    pos: seq<nat>, cells: seq<Cell>, moves: seq<Move>)
    requires Tail(t, labels, expanded, pos, cells, moves)
    requires before < |expanded| && expanded[before] == p && before < Reach(expanded, pos)
    requires p in labels && t.Legal(p, m) && Target(p, m) == cells[0]
    requires labels[cells[0]].g == labels[p].g + t.Cost(p, m)
    ensures Tail(t, labels, expanded, [before] + pos, [p] + cells, [m] + moves)
  {
    hide Terrain.Legal, Terrain.Cost, Target, WalkCost;
    TrailCons(t, p, m, cells, moves);
    WalkCons(t, p, m, moves);
  }

  /** What a finished walk back says of its bridge: it repeats no cell, it is exactly as dear as the goal's
      label, and no cell strictly between its ends is a goal or another net's. */
  lemma TailIsBridge(t: Terrain, b: Box, labels: Labels, expanded: seq<Cell>, last: real,
                     pos: seq<nat>, cells: seq<Cell>, moves: seq<Move>)
    requires Settled(t, b, labels, expanded, last) && Tail(t, labels, expanded, pos, cells, moves)
    ensures forall i, j :: 0 <= i < j < |cells| ==> cells[i] != cells[j]
    ensures forall i :: 1 <= i < |moves| ==> cells[i] !in t.goals && !t.Blocked(cells[i])
  {
    forall i, j | 0 <= i < j < |cells|
      ensures cells[i] != cells[j]
    {
      if j < |moves| {
        assert pos[i] < pos[j];
      } else {
        assert cells[i] == expanded[pos[i]];
      }
    }
    forall i | 1 <= i < |moves|
      ensures cells[i] !in t.goals && !t.Blocked(cells[i])
    {
      assert t.Legal(cells[i - 1], moves[i - 1]) && cells[i - 1 + 1] == Target(cells[i - 1], moves[i - 1]);
      assert expanded[pos[i]] in expanded;
    }
  }
}

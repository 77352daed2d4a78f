/** Turning the cell paths of a net's bridges into coalesced tracks and vias, losing nothing. */
module Emission {
  import opened Basics
  import opened Grid

  /** A straight track between two cells of one layer, in grid coordinates. */
  datatype Track = Track(layer: int, x1: int, y1: int, x2: int, y2: int)

  /** One planar grid step. */
  datatype Unit = Unit(layer: int, x: int, y: int, dx: int, dy: int)

  predicate IsStep(a: Cell, b: Cell) {
    if a.l == b.l then -1 <= b.x - a.x <= 1 && -1 <= b.y - a.y <= 1 && (a.x, a.y) != (b.x, b.y)
    else a.x == b.x && a.y == b.y
  }

  predicate Path(cells: seq<Cell>) {
    cells != [] && forall k :: 0 <= k < |cells| - 1 ==> IsStep(cells[k], cells[k + 1])
  }

  // ---- What a path and what tracks mean ------------------------------------------------------

  /** The planar steps of a path, in order; layer changes contribute none. */
  function PlanarSteps(cells: seq<Cell>): seq<Unit> {
    if |cells| <= 1 then []
    else
      var n := |cells| - 1;
      PlanarSteps(cells[..n]) +
      (if cells[n].l == cells[n - 1].l
       then [Unit(cells[n].l, cells[n - 1].x, cells[n - 1].y, cells[n].x - cells[n - 1].x, cells[n].y - cells[n - 1].y)]
       else [])
  }

  function Sign(v: int): int {
    if v > 0 then 1 else if v < 0 then -1 else 0
  }

  /** The grid steps a track runs over. */
  function Expand(t: Track): seq<Unit>
    decreases Abs(t.x2 - t.x1) + Abs(t.y2 - t.y1)
  {
    if t.x1 == t.x2 && t.y1 == t.y2 then []
    else
      var dx, dy := Sign(t.x2 - t.x1), Sign(t.y2 - t.y1);
      [Unit(t.layer, t.x1, t.y1, dx, dy)] + Expand(t.(x1 := t.x1 + dx, y1 := t.y1 + dy))
  }

  function ExpandAll(ts: seq<Track>): seq<Unit> {
    if ts == [] then [] else ExpandAll(ts[..|ts| - 1]) + Expand(ts[|ts| - 1])
  }

  /** Where a path changes layer. */
  ghost predicate ChangesAt(cells: seq<Cell>, x: int, y: int) {
    exists k :: 0 < k < |cells| && ChangeAt(cells, k, x, y)
  }

  ghost predicate ChangeAt(cells: seq<Cell>, k: nat, x: int, y: int)
    requires 0 < k < |cells|
  {
    cells[k].l != cells[k - 1].l && cells[k].x == x && cells[k].y == y
  }

  // ---- The run being coalesced ---------------------------------------------------------------

  /** The run so far: `n` steps in one direction from its start. */
  datatype Run = Run(layer: int, sx: int, sy: int, dx: int, dy: int, n: nat)
  {
    function X(): int { sx + n * dx }
    function Y(): int { sy + n * dy }

    predicate Valid() {
      -1 <= dx <= 1 && -1 <= dy <= 1 && (n > 0 ==> (dx, dy) != (0, 0))
    }

    function AsTrack(): Track { Track(layer, sx, sy, X(), Y()) }
  }

  lemma {:induction false} RunExpands(r: Run)
    requires r.Valid() && r.n > 0
    ensures Expand(r.AsTrack()) ==
            Expand(r.(n := r.n - 1).AsTrack()) + [Unit(r.layer, r.X() - r.dx, r.Y() - r.dy, r.dx, r.dy)]
    ensures (r.X(), r.Y()) != (r.sx, r.sy)
    ensures Sign(r.X() - r.sx) == r.dx && Sign(r.Y() - r.sy) == r.dy
    decreases r.n
  {
    Multiples(r.n, r.dx);
    Multiples(r.n, r.dy);
    var last := [Unit(r.layer, r.X() - r.dx, r.Y() - r.dy, r.dx, r.dy)];
    Peel(r);
    if r.n > 1 {
      var tail := Run(r.layer, r.sx + r.dx, r.sy + r.dy, r.dx, r.dy, r.n - 1);
      var short := r.(n := r.n - 1);
      Shift(r);
      Shift(short);
      RunExpands(tail);
      Peel(short);
      hide Expand, Run.X, Run.Y;
      var head := [Unit(r.layer, r.sx, r.sy, r.dx, r.dy)];
      assert head + (Expand(tail.(n := r.n - 2).AsTrack()) + last) ==
             head + Expand(tail.(n := r.n - 2).AsTrack()) + last;
    } else {
      assert Expand(Run(r.layer, r.sx + r.dx, r.sy + r.dy, r.dx, r.dy, 0).AsTrack()) == [];
      assert Expand(r.(n := 0).AsTrack()) == [];
    }
  }

  /** The first step of a run, and the run that is left. */
  lemma Peel(r: Run)
    requires r.Valid() && r.n > 0
    ensures Expand(r.AsTrack()) == [Unit(r.layer, r.sx, r.sy, r.dx, r.dy)] +
                                   Expand(Run(r.layer, r.sx + r.dx, r.sy + r.dy, r.dx, r.dy, r.n - 1).AsTrack())
  {
    Multiples(r.n, r.dx);
    Multiples(r.n, r.dy);
    Shift(r);
  }

  lemma Multiples(n: nat, d: int)
    requires -1 <= d <= 1 && n > 0
    ensures Sign(n * d) == d && (n * d == 0 <==> d == 0)
  {
  }

  lemma Shift(r: Run)
    requires r.n > 0
    ensures Run(r.layer, r.sx + r.dx, r.sy + r.dy, r.dx, r.dy, r.n - 1).X() == r.X()
    ensures Run(r.layer, r.sx + r.dx, r.sy + r.dy, r.dx, r.dy, r.n - 1).Y() == r.Y()
  {
  }

  // ---- Emission ------------------------------------------------------------------------------

  /** No two consecutive tracks on one layer run in the same direction: every straight run is one track. */
  predicate Coalesced(ts: seq<Track>) {
    forall i :: 0 <= i < |ts| - 1 ==> Turns(ts[i], ts[i + 1])
  }

  predicate Turns(a: Track, b: Track) {
    a.layer != b.layer || Heading(a) != Heading(b)
  }

  function Heading(t: Track): (int, int) {
    (Sign(t.x2 - t.x1), Sign(t.y2 - t.y1))
  }

  /** What has been emitted for the first cells of a path, apart from the run in progress. */
  ghost predicate Emitted(cells: seq<Cell>, ts: seq<Track>, r: Run, vias: seq<(int, int)>, before: seq<(int, int)>) {
    && cells != [] && r.Valid()
    && cells[|cells| - 1] == Cell(r.layer, r.X(), r.Y())
    && ExpandAll(ts) + Expand(r.AsTrack()) == PlanarSteps(cells)
    && Distinct(vias) && before <= vias
    && (forall p :: p in vias <==> p in before || ChangesAt(cells, p.0, p.1))
  }

  lemma EmittedStart(c: Cell, before: seq<(int, int)>)
    requires Distinct(before)
    ensures Emitted([c], [], Run(c.l, c.x, c.y, 0, 0, 0), before, before)
  {
  }

  lemma ChangesGrow(cells: seq<Cell>, c: Cell, x: int, y: int)
    requires cells != []
    ensures ChangesAt(cells + [c], x, y) <==>
            ChangesAt(cells, x, y) || (c.l != cells[|cells| - 1].l && (x, y) == (c.x, c.y))
  {
    var cells' := cells + [c];
    if k :| 0 < k < |cells| && ChangeAt(cells, k, x, y) {
      assert ChangeAt(cells', k, x, y);
    }
    if k :| 0 < k < |cells'| && ChangeAt(cells', k, x, y) {
      if k < |cells| {
        assert ChangeAt(cells, k, x, y);
      }
    }
    if c.l != cells[|cells| - 1].l && (x, y) == (c.x, c.y) {
      assert ChangeAt(cells', |cells|, x, y);
    }
  }

  function Flushed(ts: seq<Track>, r: Run): seq<Track> {
    if r.n > 0 then ts + [r.AsTrack()] else ts
  }

  lemma FlushExpands(ts: seq<Track>, r: Run)
    ensures ExpandAll(Flushed(ts, r)) == ExpandAll(ts) + Expand(r.AsTrack())
  {
    if r.n > 0 {
      assert (ts + [r.AsTrack()])[..|ts|] == ts;
    } else {
      assert Expand(r.AsTrack()) == [];
    }
  }

  /** A layer change closes the run and starts an empty one in place. */
  lemma EmitVia(cells: seq<Cell>, ts: seq<Track>, r: Run, vias: seq<(int, int)>, before: seq<(int, int)>, c: Cell)
    requires Emitted(cells, ts, r, vias, before) && IsStep(cells[|cells| - 1], c) && c.l != r.layer
    ensures Emitted(cells + [c], Flushed(ts, r), Run(c.l, c.x, c.y, 0, 0, 0),
                    if (c.x, c.y) in vias then vias else vias + [(c.x, c.y)], before)
  {
    FlushExpands(ts, r);
    var cells' := cells + [c];
    assert cells'[..|cells|] == cells;
    forall p: (int, int)
      ensures ChangesAt(cells', p.0, p.1) <==> ChangesAt(cells, p.0, p.1) || p == (c.x, c.y)
    {
      ChangesGrow(cells, c, p.0, p.1);
    }
    assert Expand(Run(c.l, c.x, c.y, 0, 0, 0).AsTrack()) == [];
  }

  lemma PlanarStepAppends(all: seq<Cell>, r: Run)
    requires |all| > 1 && all[|all| - 2] == Cell(r.layer, r.X(), r.Y()) && all[|all| - 1].l == r.layer
    ensures var cells, c := all[..|all| - 1], all[|all| - 1];
            && PlanarSteps(all) == PlanarSteps(cells) + [Unit(r.layer, r.X(), r.Y(), c.x - r.X(), c.y - r.Y())]
            && forall p: (int, int) :: ChangesAt(all, p.0, p.1) <==> ChangesAt(cells, p.0, p.1)
  {
    hide Run.X, Run.Y, ChangesAt;
    var cells, c := all[..|all| - 1], all[|all| - 1];
    assert cells + [c] == all;
    forall p: (int, int)
      ensures ChangesAt(all, p.0, p.1) <==> ChangesAt(cells, p.0, p.1)
    {
      ChangesGrow(cells, c, p.0, p.1);
    }
  }

  /** A planar step in the run's direction lengthens it. */
  lemma EmitLonger(cells: seq<Cell>, ts: seq<Track>, r: Run, vias: seq<(int, int)>, before: seq<(int, int)>, c: Cell)
    requires Emitted(cells, ts, r, vias, before) && IsStep(cells[|cells| - 1], c) && c.l == r.layer
    requires r.n == 0 || (c.x - r.X(), c.y - r.Y()) == (r.dx, r.dy)
    ensures Emitted(cells + [c], ts, Run(r.layer, r.sx, r.sy, c.x - r.X(), c.y - r.Y(), r.n + 1), vias, before)
  {
    hide Heading, Joinable, Sign;
    var r' := Run(r.layer, r.sx, r.sy, c.x - r.X(), c.y - r.Y(), r.n + 1);
    assert (cells + [c])[..|cells|] == cells;
    PlanarStepAppends(cells + [c], r);
    LongerRun(r, r');
    RunExpands(r');
    hide Run.X, Run.Y, ChangesAt, Expand, PlanarSteps;
    assert r'.(n := r'.n - 1).AsTrack() == r.AsTrack();
    var step := [Unit(r.layer, r.X(), r.Y(), r'.dx, r'.dy)];
    assert ExpandAll(ts) + (Expand(r.AsTrack()) + step) == ExpandAll(ts) + Expand(r.AsTrack()) + step;
  }

  /** A planar step in another direction closes the run and starts one of its own. */
  lemma EmitTurn(cells: seq<Cell>, ts: seq<Track>, r: Run, vias: seq<(int, int)>, before: seq<(int, int)>, c: Cell)
    requires Emitted(cells, ts, r, vias, before) && IsStep(cells[|cells| - 1], c) && c.l == r.layer
    ensures Emitted(cells + [c], Flushed(ts, r), Run(r.layer, r.X(), r.Y(), c.x - r.X(), c.y - r.Y(), 1), vias, before)
  {
    var r' := Run(r.layer, r.X(), r.Y(), c.x - r.X(), c.y - r.Y(), 1);
    assert (cells + [c])[..|cells|] == cells;
    PlanarStepAppends(cells + [c], r);
    FlushExpands(ts, r);
    RunExpands(r');
    EmptyTrack(r'.(n := 0));
    assert r'.X() == c.x && r'.Y() == c.y;
    hide Run.X, Run.Y, ChangesAt, Expand, PlanarSteps, Flushed;
    var step := [Unit(r.layer, r.X(), r.Y(), r'.dx, r'.dy)];
    assert Expand(r'.AsTrack()) == [] + step;
  }

  lemma LongerRun(r: Run, r': Run)
    requires r' == Run(r.layer, r.sx, r.sy, r'.dx, r'.dy, r.n + 1)
    requires r.n == 0 || (r'.dx, r'.dy) == (r.dx, r.dy)
    ensures r'.X() == r.X() + r'.dx && r'.Y() == r.Y() + r'.dy
    ensures r'.(n := r.n).X() == r.X() && r'.(n := r.n).Y() == r.Y()
  {
  }

  lemma EmptyTrack(r: Run)
    requires r.n == 0
    ensures Expand(r.AsTrack()) == []
  {
  }

  // ---- Coalescing ----------------------------------------------------------------------------

  /** The last closed track turns into the run in progress; before a run has begun it is on another layer,
      and its end is a cell already passed. */
  ghost predicate Joinable(cells: seq<Cell>, ts: seq<Track>, r: Run) {
    && Coalesced(ts)
    && (ts != [] ==>
          var t := ts[|ts| - 1];
          if r.n > 0 then Turns(t, r.AsTrack())
          else t.layer != r.layer && Cell(t.layer, r.sx, r.sy) in cells)
  }

  lemma FlushJoins(cells: seq<Cell>, ts: seq<Track>, r: Run)
    requires Joinable(cells, ts, r)
    ensures Coalesced(Flushed(ts, r))
  {
    hide Run.AsTrack, Turns;
    var ts' := Flushed(ts, r);
    forall i | 0 <= i < |ts'| - 1
      ensures Turns(ts'[i], ts'[i + 1])
    {
      if i < |ts| - 1 {
        assert ts'[i] == ts[i] && ts'[i + 1] == ts[i + 1];
      }
    }
  }

  lemma RunHeading(r: Run)
    requires r.Valid() && r.n > 0
    ensures Heading(r.AsTrack()) == (r.dx, r.dy)
  {
    RunExpands(r);
    hide Run.X, Run.Y;
  }

  lemma JoinVia(cells: seq<Cell>, ts: seq<Track>, r: Run, c: Cell)
    requires Joinable(cells, ts, r) && r.Valid() && cells != [] && cells[|cells| - 1] == Cell(r.layer, r.X(), r.Y())
    requires c.l != r.layer && c.x == r.X() && c.y == r.Y() && c !in cells
    ensures Joinable(cells + [c], Flushed(ts, r), Run(c.l, c.x, c.y, 0, 0, 0))
  {
    FlushJoins(cells, ts, r);
    if r.n == 0 {
      assert r.X() == r.sx && r.Y() == r.sy;
    } else {
      assert Cell(r.layer, r.X(), r.Y()) in cells + [c];
    }
  }

  lemma JoinLonger(cells: seq<Cell>, ts: seq<Track>, r: Run, r': Run, c: Cell)
    requires Joinable(cells, ts, r) && r.Valid() && r'.Valid()
    requires r' == Run(r.layer, r.sx, r.sy, r'.dx, r'.dy, r.n + 1) && (r.n == 0 || (r'.dx, r'.dy) == (r.dx, r.dy))
    ensures Joinable(cells + [c], ts, r')
  {
    RunHeading(r');
    if r.n > 0 {
      RunHeading(r);
    }
    hide Heading, Run.X, Run.Y;
  }

  lemma JoinTurn(cells: seq<Cell>, ts: seq<Track>, r: Run, r': Run, c: Cell)
    requires Joinable(cells, ts, r) && r.Valid() && r'.Valid() && r.n > 0 && r'.n == 1
    requires (r'.dx, r'.dy) != (r.dx, r.dy)
    ensures Joinable(cells + [c], Flushed(ts, r), r')
  {
    FlushJoins(cells, ts, r);
    RunHeading(r);
    RunHeading(r');
    hide Heading, Run.X, Run.Y;
  }

  // ---- The emitter ---------------------------------------------------------------------------

  /** Emits one bridge. `before` holds the via sites this net has already emitted.
      The tracks, run over in order, are exactly the path's planar steps; each straight run is a single track;
      the vias gain exactly the sites where the path changes layer, none twice; and the two stubs to exact
      copper points leave from the path's first and last cells. */
  method EmitBridge(cells: seq<Cell>, before: seq<(int, int)>)
    returns (ts: seq<Track>, vias: seq<(int, int)>, startStub: Cell, endStub: Cell)
    requires Path(cells) && Distinct(cells) && Distinct(before)
    ensures ExpandAll(ts) == PlanarSteps(cells) && Coalesced(ts)
    ensures Distinct(vias) && before <= vias
    ensures forall p :: p in vias <==> p in before || ChangesAt(cells, p.0, p.1)
    ensures startStub == cells[0] && endStub == cells[|cells| - 1]
  {
    hide Expand, PlanarSteps, ExpandAll, ChangesAt, Turns, Run.X, Run.Y;
    var first := cells[0];
    startStub := first;
    var curL, startX, startY := first.l, first.x, first.y;
    var prevX, prevY := startX, startY;
    var dirX, dirY := 0, 0;
    var hasDir := false;
    ts, vias := [], before;
    ghost var r := Run(first.l, first.x, first.y, 0, 0, 0);
    EmittedStart(first, before);
    assert cells[..1] == [first];
    for k := 1 to |cells|
      invariant Emitted(cells[..k], ts, r, vias, before) && Joinable(cells[..k], ts, r)
      invariant r.layer == curL && r.sx == startX && r.sy == startY && r.X() == prevX && r.Y() == prevY
      invariant hasDir <==> r.n > 0
      invariant hasDir ==> (dirX, dirY) == (r.dx, r.dy)
    {
      var c := cells[k];
      assert cells[..k + 1] == cells[..k] + [c];
      assert IsStep(cells[k - 1], cells[k - 1 + 1]) && cells[..k][|cells[..k]| - 1] == cells[k - 1];
      assert c !in cells[..k];
      RunMoved(r);
      if c.l != curL {
        EmitVia(cells[..k], ts, r, vias, before, c);
        JoinVia(cells[..k], ts, r, c);
        if prevX != startX || prevY != startY {
          ts := ts + [Track(curL, startX, startY, prevX, prevY)];
        }
        if (c.x, c.y) !in vias {
          vias := vias + [(c.x, c.y)];
        }
        curL, startX, startY, prevX, prevY := c.l, c.x, c.y, c.x, c.y;
        hasDir := false;
        r := Run(c.l, c.x, c.y, 0, 0, 0);
        RunMoved(r);
      } else {
        var sdx, sdy := c.x - prevX, c.y - prevY;
        if !hasDir || (sdx == dirX && sdy == dirY) {
          EmitLonger(cells[..k], ts, r, vias, before, c);
          ghost var r' := Run(r.layer, r.sx, r.sy, sdx, sdy, r.n + 1);
          JoinLonger(cells[..k], ts, r, r', c);
          r := r';
          dirX, dirY, hasDir := sdx, sdy, true;
        } else {
          EmitTurn(cells[..k], ts, r, vias, before, c);
          ghost var r' := Run(r.layer, r.X(), r.Y(), sdx, sdy, 1);
          JoinTurn(cells[..k], ts, r, r', c);
          ts := ts + [Track(curL, startX, startY, prevX, prevY)];
          startX, startY := prevX, prevY;
          dirX, dirY := sdx, sdy;
          r := r';
        }
        prevX, prevY := c.x, c.y;
      }
    }
    assert cells[..|cells|] == cells;
    FlushExpands(ts, r);
    FlushJoins(cells, ts, r);
    RunMoved(r);
    if prevX != startX || prevY != startY {
      ts := ts + [Track(curL, startX, startY, prevX, prevY)];
    }
    endStub := Cell(curL, prevX, prevY);
  }

  /** A run has moved from its start exactly when it has steps. */
  lemma RunMoved(r: Run)
    requires r.Valid()
    ensures r.n > 0 <==> (r.X(), r.Y()) != (r.sx, r.sy)
  {
    if r.n > 0 {
      RunExpands(r);
    }
  }

  /** The bridges of one net: each bridge's tracks give back its steps, and the net's vias are exactly the
      sites where some bridge changes layer, each emitted once. */
  method EmitNet(bridges: seq<seq<Cell>>) returns (tracks: seq<seq<Track>>, vias: seq<(int, int)>)
    requires forall b :: 0 <= b < |bridges| ==> Path(bridges[b]) && Distinct(bridges[b])
    ensures |tracks| == |bridges|
    ensures forall b :: 0 <= b < |bridges| ==> ExpandAll(tracks[b]) == PlanarSteps(bridges[b]) && Coalesced(tracks[b])
    ensures Distinct(vias)
    ensures forall p :: p in vias <==> exists b :: 0 <= b < |bridges| && ChangesAt(bridges[b], p.0, p.1)
  {
    hide ChangesAt, Path, PlanarSteps, ExpandAll, Coalesced;
    tracks, vias := [], [];
    for b := 0 to |bridges|
      invariant |tracks| == b && Distinct(vias)
      invariant forall i :: 0 <= i < b ==> ExpandAll(tracks[i]) == PlanarSteps(bridges[i]) && Coalesced(tracks[i])
      invariant forall p :: p in vias <==> exists i :: 0 <= i < b && ChangesAt(bridges[i], p.0, p.1)
    {
      ghost var known := vias;
      var ts, startStub, endStub;
      ts, vias, startStub, endStub := EmitBridge(bridges[b], vias);
      tracks := tracks + [ts];
      assert forall p :: p in vias <==> p in known || ChangesAt(bridges[b], p.0, p.1);
    }
  }
}

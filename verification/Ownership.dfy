/** Rasterising net ownership: the per-primitive stamping of the processor and the per-cell loop of the graphics
    kernel fill the same grids. */
module Ownership {
  import opened Basics
  import opened BridgeSearch
  import opened Grid
  import opened SearchBuffers
  import opened NetCopper

  /** Obstacles, keep-outs, and cells the halos of two nets share. */
  const BLOCK_ALL: int := -1

  /** Whom a primitive marks cells for: block-all, or a net, numbered from one. */
  type OwnerId = id: int | id == BLOCK_ALL || id >= 1 witness 1

  /** A copper primitive: its layer (or all, -1), the owner it marks cells and via sites with, and for a pad that
      forbids vias the plane cell of its centre. */
  datatype Primitive = Primitive(layer: int, ownerId: OwnerId, viaOwnerId: OwnerId, pinned: bool, px: int, py: int)

  /** `covers(i, x, y)`: primitive `i` reaches the centre of the plane cell. */
  type Coverage = (nat, int, int) -> bool

  function MarkOwner(slot: int, id: int): int {
    if slot == 0 then id else if slot != id then BLOCK_ALL else slot
  }

  function Fold(ids: seq<OwnerId>): int {
    if ids == [] then 0 else MarkOwner(Fold(ids[..|ids| - 1]), ids[|ids| - 1])
  }

  predicate Agree(ids: seq<OwnerId>) {
    forall i :: 0 <= i < |ids| ==> ids[i] == ids[0]
  }

  /** The join of the owners that reach a slot: nobody, the one owner all agree on, or block-all. */
  function Join(ids: seq<OwnerId>): int {
    if ids == [] then 0 else if Agree(ids) then ids[0] else BLOCK_ALL
  }

  lemma {:induction false} FoldIsJoin(ids: seq<OwnerId>)
    ensures Fold(ids) == Join(ids) && (ids != [] ==> Fold(ids) != 0)
  {
    if ids != [] {
      var n := |ids| - 1;
      var rest := ids[..n];
      FoldIsJoin(rest);
      hide Agree;
      assert Fold(ids) == MarkOwner(Fold(rest), ids[n]);
      hide Fold;
      assert rest + [ids[n]] == ids;
      if rest != [] {
        AgreeSnoc(rest, ids[n]);
        assert ids[0] == rest[0];
      } else {
        assert ids == [ids[n]];
        AgreeOne(ids[n]);
      }
    }
  }

  lemma AgreeOne(x: OwnerId)
    ensures Agree([x])
  {
  }

  lemma AgreeSnoc(rest: seq<OwnerId>, x: OwnerId)
    requires rest != []
    ensures Agree(rest + [x]) <==> Agree(rest) && x == rest[0]
  {
    var ids := rest + [x];
    assert forall i :: 0 <= i < |rest| ==> ids[i] == rest[i];
    assert ids[|rest|] == x;
  }

  ghost predicate AllIn(a: seq<OwnerId>, b: seq<OwnerId>) {
    forall i :: 0 <= i < |a| ==> a[i] in b
  }

  /** Ownership depends only on which owners reach a slot, not on their order or repetition. */
  lemma OrderIrrelevant(a: seq<OwnerId>, b: seq<OwnerId>)
    requires AllIn(a, b) && AllIn(b, a)
    ensures Fold(a) == Fold(b)
  {
    FoldIsJoin(a);
    FoldIsJoin(b);
    EmptyTogether(a, b);
    if a != [] {
      SameAgreement(a, b);
    }
  }

  lemma EmptyTogether(a: seq<OwnerId>, b: seq<OwnerId>)
    requires AllIn(a, b) && AllIn(b, a)
    ensures a == [] <==> b == []
  {
    if a != [] {
      assert a[0] in b;
    }
    if b != [] {
      assert b[0] in a;
    }
  }

  lemma SameAgreement(a: seq<OwnerId>, b: seq<OwnerId>)
    requires a != [] && b != [] && AllIn(a, b) && AllIn(b, a)
    ensures Agree(a) <==> Agree(b)
    ensures Agree(a) ==> a[0] == b[0]
  {
    if Agree(a) {
      AgreeInside(a, b);
    }
    if Agree(b) {
      AgreeInside(b, a);
    }
  }

  lemma AgreeInside(a: seq<OwnerId>, b: seq<OwnerId>)
    requires a != [] && b != [] && AllIn(b, a) && Agree(a)
    ensures Agree(b) && b[0] == a[0]
  {
    forall i | 0 <= i < |b|
      ensures b[i] == a[0]
    {
      assert b[i] in a;
    }
  }

  // ---- What the grids should hold ------------------------------------------------------------

  predicate Hits(p: Primitive, c: Cell) {
    p.layer == -1 || p.layer == c.l
  }

  function CellIds(ps: seq<Primitive>, covers: Coverage, c: Cell): seq<OwnerId> {
    if ps == [] then []
    else
      var n := |ps| - 1;
      CellIds(ps[..n], covers, c) + (if covers(n, c.x, c.y) && Hits(ps[n], c) then [ps[n].ownerId] else [])
  }

  /** A pinned pad also blocks the plane cell of its centre. */
  function ViaIds(ps: seq<Primitive>, viaCovers: Coverage, x: int, y: int): seq<OwnerId> {
    if ps == [] then []
    else
      var n := |ps| - 1;
      ViaIds(ps[..n], viaCovers, x, y) +
      (if viaCovers(n, x, y) then [ps[n].viaOwnerId] else []) +
      (if ps[n].pinned && x == ps[n].px && y == ps[n].py then [BLOCK_ALL] else [])
  }

  predicate Pinned(ps: seq<Primitive>, x: int, y: int) {
    exists i :: 0 <= i < |ps| && ps[i].pinned && ps[i].px == x && ps[i].py == y
  }

  ghost predicate Rasterised(size: Size, ps: seq<Primitive>, covers: Coverage, viaCovers: Coverage,
                             cellOwner: seq<int>, viaOwner: seq<int>) {
    && |cellOwner| == TotalCells(size) && |viaOwner| == PlaneCells(size)
    && (forall c {:trigger NodeIdx(size, c)} :: Inside(size, c) && 0 <= NodeIdx(size, c) < |cellOwner| ==>
          cellOwner[NodeIdx(size, c)] == Fold(CellIds(ps, covers, c)))
    && (forall x, y {:trigger PlaneIdx(size, x, y)} :: OnPlane(size, x, y) && 0 <= PlaneIdx(size, x, y) < |viaOwner| ==>
          viaOwner[PlaneIdx(size, x, y)] == Fold(ViaIds(ps, viaCovers, x, y)))
  }

  /** Two grids rasterised from the same primitives are equal slot for slot. */
  lemma RasterIsUnique(size: Size, ps: seq<Primitive>, covers: Coverage, viaCovers: Coverage,
                       a: seq<int>, va: seq<int>, b: seq<int>, vb: seq<int>)
    requires size.w > 0 && size.h > 0
    requires Rasterised(size, ps, covers, viaCovers, a, va) && Rasterised(size, ps, covers, viaCovers, b, vb)
    ensures a == b && va == vb
  {
    hide Fold, CellIds, ViaIds, NodeIdx, PlaneIdx, TotalCells, PlaneCells, DecodeCell;
    forall id | 0 <= id < |a|
      ensures a[id] == b[id]
    {
      DecodeEncodes(size, id);
    }
    forall id | 0 <= id < |va|
      ensures va[id] == vb[id]
    {
      PlaneDecodes(size, id);
      PlaneEncodes(size, id);
    }
  }

  // ---- The order of primitives ---------------------------------------------------------------

  lemma {:induction false} CellIdsAre(ps: seq<Primitive>, covers: Coverage, c: Cell, id: OwnerId)
    ensures id in CellIds(ps, covers, c) <==>
            exists i :: 0 <= i < |ps| && covers(i, c.x, c.y) && Hits(ps[i], c) && ps[i].ownerId == id
  {
    hide Hits;
    if ps != [] {
      var n := |ps| - 1;
      CellIdsAre(ps[..n], covers, c, id);
      if i :| 0 <= i < n && covers(i, c.x, c.y) && Hits(ps[i], c) && ps[i].ownerId == id {
        assert ps[..n][i] == ps[i];
      }
    }
  }

  /** Primitive `i` marks the via site for `id`. */
  predicate MarksVia(p: Primitive, covered: bool, x: int, y: int, id: OwnerId) {
    (covered && p.viaOwnerId == id) || (p.pinned && p.px == x && p.py == y && id == BLOCK_ALL)
  }

  lemma {:induction false} ViaIdsAre(ps: seq<Primitive>, viaCovers: Coverage, x: int, y: int, id: OwnerId)
    ensures id in ViaIds(ps, viaCovers, x, y) <==>
            exists i :: 0 <= i < |ps| && MarksVia(ps[i], viaCovers(i, x, y), x, y, id)
  {
    if ps != [] {
      var n := |ps| - 1;
      ViaIdsAre(ps[..n], viaCovers, x, y, id);
      assert id in ViaIds(ps, viaCovers, x, y) <==>
             id in ViaIds(ps[..n], viaCovers, x, y) || MarksVia(ps[n], viaCovers(n, x, y), x, y, id);
      hide MarksVia, ViaIds;
      if i :| 0 <= i < n && MarksVia(ps[i], viaCovers(i, x, y), x, y, id) {
        assert ps[..n][i] == ps[i];
      }
    }
  }

  /** The same primitives in another order, each with its own coverage. */
  datatype Drawing = Drawing(ps: seq<Primitive>, covers: Coverage, viaCovers: Coverage)

  ghost predicate Reorders(perm: seq<nat>, d: Drawing, e: Drawing) {
    && |perm| == |d.ps| == |e.ps| && Distinct(perm)
    && forall i :: 0 <= i < |perm| ==> perm[i] < |d.ps| && Same(d, perm[i], e, i)
  }

  ghost predicate Same(d: Drawing, k: nat, e: Drawing, i: nat)
    requires k < |d.ps| && i < |e.ps|
  {
    && e.ps[i] == d.ps[k]
    && (forall x, y :: e.covers(i, x, y) == d.covers(k, x, y))
    && (forall x, y :: e.viaCovers(i, x, y) == d.viaCovers(k, x, y))
  }

  lemma EveryPlaceTaken(perm: seq<nat>, n: nat, k: nat)
    requires |perm| == n && Distinct(perm) && (forall i :: 0 <= i < n ==> perm[i] < n) && k < n
    ensures exists i :: 0 <= i < n && perm[i] == k
  {
    DistinctElements(perm);
    var all, taken := Upto(n), Elements(perm);
    assert taken <= all;
    assert |all - taken| == |all| - |taken|;
    assert k in taken;
  }

  lemma ReorderedIds(perm: seq<nat>, d: Drawing, e: Drawing, c: Cell)
    requires Reorders(perm, d, e)
    ensures AllIn(CellIds(d.ps, d.covers, c), CellIds(e.ps, e.covers, c))
    ensures AllIn(CellIds(e.ps, e.covers, c), CellIds(d.ps, d.covers, c))
  {
    hide CellIds, Hits;
    var a, b := CellIds(d.ps, d.covers, c), CellIds(e.ps, e.covers, c);
    forall id | id in a
      ensures id in b
    {
      CellIdsAre(d.ps, d.covers, c, id);
      CellIdsAre(e.ps, e.covers, c, id);
      var k :| 0 <= k < |d.ps| && d.covers(k, c.x, c.y) && Hits(d.ps[k], c) && d.ps[k].ownerId == id;
      EveryPlaceTaken(perm, |perm|, k);
      var i :| 0 <= i < |perm| && perm[i] == k;
      assert Same(d, k, e, i);
    }
    forall id | id in b
      ensures id in a
    {
      CellIdsAre(d.ps, d.covers, c, id);
      CellIdsAre(e.ps, e.covers, c, id);
      var i :| 0 <= i < |e.ps| && e.covers(i, c.x, c.y) && Hits(e.ps[i], c) && e.ps[i].ownerId == id;
      assert Same(d, perm[i], e, i);
    }
  }

  lemma ReorderedViaIds(perm: seq<nat>, d: Drawing, e: Drawing, x: int, y: int)
    requires Reorders(perm, d, e)
    ensures AllIn(ViaIds(d.ps, d.viaCovers, x, y), ViaIds(e.ps, e.viaCovers, x, y))
    ensures AllIn(ViaIds(e.ps, e.viaCovers, x, y), ViaIds(d.ps, d.viaCovers, x, y))
  {
    hide ViaIds, MarksVia;
    var a, b := ViaIds(d.ps, d.viaCovers, x, y), ViaIds(e.ps, e.viaCovers, x, y);
    forall id | id in a
      ensures id in b
    {
      ViaIdsAre(d.ps, d.viaCovers, x, y, id);
      ViaIdsAre(e.ps, e.viaCovers, x, y, id);
      var k :| 0 <= k < |d.ps| && MarksVia(d.ps[k], d.viaCovers(k, x, y), x, y, id);
      EveryPlaceTaken(perm, |perm|, k);
      var i :| 0 <= i < |perm| && perm[i] == k;
      assert Same(d, k, e, i);
    }
    forall id | id in b
      ensures id in a
    {
      ViaIdsAre(d.ps, d.viaCovers, x, y, id);
      ViaIdsAre(e.ps, e.viaCovers, x, y, id);
      var i :| 0 <= i < |e.ps| && MarksVia(e.ps[i], e.viaCovers(i, x, y), x, y, id);
      assert Same(d, perm[i], e, i);
    }
  }

  /** The ownership grids do not depend on the order in which primitives are drawn. */
  lemma PrimitiveOrderIrrelevant(size: Size, perm: seq<nat>, d: Drawing, e: Drawing,
                                 a: seq<int>, va: seq<int>, b: seq<int>, vb: seq<int>)
    requires size.w > 0 && size.h > 0 && Reorders(perm, d, e)
    requires Rasterised(size, d.ps, d.covers, d.viaCovers, a, va)
    requires Rasterised(size, e.ps, e.covers, e.viaCovers, b, vb)
    ensures a == b && va == vb
  {
    hide Fold, CellIds, ViaIds, NodeIdx, PlaneIdx, TotalCells, PlaneCells, Reorders, AllIn;
    forall c | Inside(size, c)
      ensures Fold(CellIds(d.ps, d.covers, c)) == Fold(CellIds(e.ps, e.covers, c))
    {
      ReorderedIds(perm, d, e, c);
      OrderIrrelevant(CellIds(d.ps, d.covers, c), CellIds(e.ps, e.covers, c));
    }
    forall x, y | OnPlane(size, x, y)
      ensures Fold(ViaIds(d.ps, d.viaCovers, x, y)) == Fold(ViaIds(e.ps, e.viaCovers, x, y))
    {
      ReorderedViaIds(perm, d, e, x, y);
      OrderIrrelevant(ViaIds(d.ps, d.viaCovers, x, y), ViaIds(e.ps, e.viaCovers, x, y));
    }
    assert Rasterised(size, d.ps, d.covers, d.viaCovers, b, vb);
    RasterIsUnique(size, d.ps, d.covers, d.viaCovers, a, va, b, vb);
  }

  // ---- Pad centres ---------------------------------------------------------------------------

  /** The centre of a routed net's pad, on its layer or on all (-1). */
  datatype PadCentre = PadCentre(netId: OwnerId, layer: int, x: int, y: int)

  predicate Claims(p: PadCentre, c: Cell) {
    (p.layer == -1 || p.layer == c.l) && p.x == c.x && p.y == c.y
  }

  /** The owner of a cell after the pads have claimed their centres: the last to claim it, or who it was. */
  function Claimed(pads: seq<PadCentre>, c: Cell, was: int): int {
    if pads == [] then was
    else
      var p := pads[|pads| - 1];
      if Claims(p, c) then p.netId else Claimed(pads[..|pads| - 1], c, was)
  }

  /** If only one net's pads lie on a cell, the cell is that net's; if none does, it stays as rasterised. */
  lemma {:induction false} ClaimedIsOwn(pads: seq<PadCentre>, c: Cell, was: int, id: OwnerId)
    requires forall i :: 0 <= i < |pads| && Claims(pads[i], c) ==> pads[i].netId == id
    ensures Claimed(pads, c, was) == if exists i :: 0 <= i < |pads| && Claims(pads[i], c) then id else was
  {
    hide Claims;
    if pads != [] {
      var n := |pads| - 1;
      ClaimedIsOwn(pads[..n], c, was, id);
      if i :| 0 <= i < n && Claims(pads[i], c) {
        assert Claims(pads[..n][i], c);
      }
    }
  }

  /** Every routed net's own pad centres become its own, so that entering and leaving pins is legal. */
  method ClaimPadCentres(size: Size, a: array<int>, pads: seq<PadCentre>)
    requires a.Length == TotalCells(size) && forall i :: 0 <= i < |pads| ==> OnPlane(size, pads[i].x, pads[i].y)
    modifies a
    ensures forall c {:trigger NodeIdx(size, c)} :: Inside(size, c) && 0 <= NodeIdx(size, c) < a.Length ==>
              a[NodeIdx(size, c)] == Claimed(pads, c, old(a[NodeIdx(size, c)]))
  {
    IndexFacts(size);
    hide NodeIdx, TotalCells;
    for i := 0 to |pads|
      invariant forall c {:trigger NodeIdx(size, c)} :: Inside(size, c) && 0 <= NodeIdx(size, c) < a.Length ==>
                  a[NodeIdx(size, c)] == Claimed(pads[..i], c, old(a[NodeIdx(size, c)]))
    {
      var p := pads[i];
      assert pads[..i + 1][..i] == pads[..i];
      for ly := 0 to size.layers
        invariant forall c {:trigger NodeIdx(size, c)} :: Inside(size, c) && 0 <= NodeIdx(size, c) < a.Length ==>
                    a[NodeIdx(size, c)] == if c.l < ly && Claims(p, c) then p.netId
                                           else Claimed(pads[..i], c, old(a[NodeIdx(size, c)]))
      {
        if p.layer == -1 || ly == p.layer {
          a[NodeIdx(size, Cell(ly, p.x, p.y))] := p.netId;
        }
      }
    }
    assert pads[..|pads|] == pads;
  }

  // ---- Scatter: primitive by primitive -------------------------------------------------------

  method StampCells(size: Size, a: array<int>, p: Primitive, n: nat, covers: Coverage)
    requires a.Length == TotalCells(size)
    modifies a
    ensures forall c {:trigger NodeIdx(size, c)} :: Inside(size, c) && 0 <= NodeIdx(size, c) < a.Length ==>
              a[NodeIdx(size, c)] == if covers(n, c.x, c.y) && Hits(p, c)
                                     then MarkOwner(old(a[NodeIdx(size, c)]), p.ownerId) else old(a[NodeIdx(size, c)])
  {
    IndexFacts(size);
    hide NodeIdx, TotalCells, MarkOwner;
    for y := 0 to size.h
      invariant forall c {:trigger NodeIdx(size, c)} :: Inside(size, c) && 0 <= NodeIdx(size, c) < a.Length ==>
                  a[NodeIdx(size, c)] == if c.y < y && covers(n, c.x, c.y) && Hits(p, c)
                                         then MarkOwner(old(a[NodeIdx(size, c)]), p.ownerId)
                                         else old(a[NodeIdx(size, c)])
    {
      for x := 0 to size.w
        invariant forall c {:trigger NodeIdx(size, c)} :: Inside(size, c) && 0 <= NodeIdx(size, c) < a.Length ==>
                    a[NodeIdx(size, c)] == if (c.y < y || (c.y == y && c.x < x)) && covers(n, c.x, c.y) && Hits(p, c)
                                           then MarkOwner(old(a[NodeIdx(size, c)]), p.ownerId)
                                           else old(a[NodeIdx(size, c)])
      {
        if covers(n, x, y) {
          for ly := 0 to size.layers
            invariant forall c {:trigger NodeIdx(size, c)} :: Inside(size, c) && 0 <= NodeIdx(size, c) < a.Length ==>
                        a[NodeIdx(size, c)] ==
                        if (c.y < y || (c.y == y && (c.x < x || (c.x == x && c.l < ly)))) && covers(n, c.x, c.y) &&
                        Hits(p, c)
                        then MarkOwner(old(a[NodeIdx(size, c)]), p.ownerId) else old(a[NodeIdx(size, c)])
          {
            if p.layer == -1 || ly == p.layer {
              var id := NodeIdx(size, Cell(ly, x, y));
              a[id] := MarkOwner(a[id], p.ownerId);
            }
          }
        }
      }
    }
  }

  method StampVias(size: Size, a: array<int>, p: Primitive, n: nat, viaCovers: Coverage)
    requires a.Length == PlaneCells(size)
    requires p.pinned ==> OnPlane(size, p.px, p.py)
    modifies a
    ensures forall x, y {:trigger PlaneIdx(size, x, y)} ::
              OnPlane(size, x, y) && 0 <= PlaneIdx(size, x, y) < a.Length ==>
              var was := old(a[PlaneIdx(size, x, y)]);
              a[PlaneIdx(size, x, y)] ==
              if p.pinned && x == p.px && y == p.py then BLOCK_ALL
              else if viaCovers(n, x, y) then MarkOwner(was, p.viaOwnerId) else was
  {
    PlaneFacts(size);
    hide PlaneIdx, PlaneCells, MarkOwner;
    for y := 0 to size.h
      invariant forall v, w {:trigger PlaneIdx(size, v, w)} ::
                  OnPlane(size, v, w) && 0 <= PlaneIdx(size, v, w) < a.Length ==>
                  a[PlaneIdx(size, v, w)] == if w < y && viaCovers(n, v, w)
                                             then MarkOwner(old(a[PlaneIdx(size, v, w)]), p.viaOwnerId)
                                             else old(a[PlaneIdx(size, v, w)])
    {
      for x := 0 to size.w
        invariant forall v, w {:trigger PlaneIdx(size, v, w)} ::
                    OnPlane(size, v, w) && 0 <= PlaneIdx(size, v, w) < a.Length ==>
                    a[PlaneIdx(size, v, w)] == if (w < y || (w == y && v < x)) && viaCovers(n, v, w)
                                               then MarkOwner(old(a[PlaneIdx(size, v, w)]), p.viaOwnerId)
                                               else old(a[PlaneIdx(size, v, w)])
      {
        if viaCovers(n, x, y) {
          var id := PlaneIdx(size, x, y);
          a[id] := MarkOwner(a[id], p.viaOwnerId);
        }
      }
    }
    if p.pinned {
      a[PlaneIdx(size, p.px, p.py)] := BLOCK_ALL;
    }
  }

  /** The processor's path: every primitive stamps its cells, then its via sites, then its centre if pinned. */
  method Scatter(size: Size, ps: seq<Primitive>, covers: Coverage, viaCovers: Coverage)
    returns (cellOwner: array<int>, viaOwner: array<int>)
    requires forall i :: 0 <= i < |ps| && ps[i].pinned ==> OnPlane(size, ps[i].px, ps[i].py)
    ensures Rasterised(size, ps, covers, viaCovers, cellOwner[..], viaOwner[..])
  {
    hide Fold, MarkOwner, NodeIdx, PlaneIdx, TotalCells, PlaneCells, CellIds, ViaIds;
    cellOwner := new int[TotalCells(size)](_ => 0);
    viaOwner := new int[PlaneCells(size)](_ => 0);
    NothingRasterised(size, covers, viaCovers, cellOwner[..], viaOwner[..]);
    for i := 0 to |ps|
      invariant fresh(cellOwner) && fresh(viaOwner)
      invariant cellOwner.Length == TotalCells(size) && viaOwner.Length == PlaneCells(size)
      invariant cellOwner != viaOwner
      invariant Rasterised(size, ps[..i], covers, viaCovers, cellOwner[..], viaOwner[..])
    {
      ghost var a, v := cellOwner[..], viaOwner[..];
      StampCells(size, cellOwner, ps[i], i, covers);
      StampVias(size, viaOwner, ps[i], i, viaCovers);
      StampedIsRasterised(size, ps, i, covers, viaCovers, a, v, cellOwner[..], viaOwner[..]);
    }
    assert ps[..|ps|] == ps;
  }

  lemma NothingRasterised(size: Size, covers: Coverage, viaCovers: Coverage, a: seq<int>, v: seq<int>)
    requires |a| == TotalCells(size) && |v| == PlaneCells(size)
    requires (forall i :: 0 <= i < |a| ==> a[i] == 0) && (forall i :: 0 <= i < |v| ==> v[i] == 0)
    ensures Rasterised(size, [], covers, viaCovers, a, v)
  {
    hide NodeIdx, PlaneIdx, TotalCells, PlaneCells;
  }

  lemma CellIdsStep(ps: seq<Primitive>, i: nat, covers: Coverage, c: Cell)
    requires i < |ps|
    ensures Fold(CellIds(ps[..i + 1], covers, c)) ==
            if covers(i, c.x, c.y) && Hits(ps[i], c) then MarkOwner(Fold(CellIds(ps[..i], covers, c)), ps[i].ownerId)
            else Fold(CellIds(ps[..i], covers, c))
  {
    hide MarkOwner, Hits;
    assert ps[..i + 1][..i] == ps[..i];
    var ids := CellIds(ps[..i], covers, c);
    FoldSnoc(ids, ps[i].ownerId);
    assert ids + [] == ids;
  }

  lemma FoldSnoc(ids: seq<OwnerId>, id: OwnerId)
    ensures Fold(ids + [id]) == MarkOwner(Fold(ids), id)
  {
    assert (ids + [id])[..|ids|] == ids;
  }

  lemma ViaIdsStep(ps: seq<Primitive>, i: nat, viaCovers: Coverage, x: int, y: int)
    requires i < |ps|
    ensures var was := Fold(ViaIds(ps[..i], viaCovers, x, y));
            var marked := if viaCovers(i, x, y) then MarkOwner(was, ps[i].viaOwnerId) else was;
            Fold(ViaIds(ps[..i + 1], viaCovers, x, y)) ==
            if ps[i].pinned && x == ps[i].px && y == ps[i].py then BLOCK_ALL else marked
  {
    assert ps[..i + 1][..i] == ps[..i];
    var ids := ViaIds(ps[..i], viaCovers, x, y);
    FoldSnoc(ids, ps[i].viaOwnerId);
    var marked := if viaCovers(i, x, y) then ids + [ps[i].viaOwnerId] else ids;
    FoldSnoc(marked, BLOCK_ALL);
    assert ids + [] == ids && marked + [] == marked;
  }

  lemma StampedIsRasterised(size: Size, ps: seq<Primitive>, i: nat, covers: Coverage, viaCovers: Coverage,
                            a: seq<int>, v: seq<int>, a': seq<int>, v': seq<int>)
    requires i < |ps| && Rasterised(size, ps[..i], covers, viaCovers, a, v) && |a'| == |a| && |v'| == |v|
    requires forall c {:trigger NodeIdx(size, c)} :: Inside(size, c) && 0 <= NodeIdx(size, c) < |a| ==>
               a'[NodeIdx(size, c)] == if covers(i, c.x, c.y) && Hits(ps[i], c)
                                       then MarkOwner(a[NodeIdx(size, c)], ps[i].ownerId) else a[NodeIdx(size, c)]
    requires forall x, y {:trigger PlaneIdx(size, x, y)} :: OnPlane(size, x, y) && 0 <= PlaneIdx(size, x, y) < |v| ==>
               var was := v[PlaneIdx(size, x, y)];
               v'[PlaneIdx(size, x, y)] ==
               if ps[i].pinned && x == ps[i].px && y == ps[i].py then BLOCK_ALL
               else if viaCovers(i, x, y) then MarkOwner(was, ps[i].viaOwnerId) else was
    ensures Rasterised(size, ps[..i + 1], covers, viaCovers, a', v')
  {
    hide NodeIdx, PlaneIdx, TotalCells, PlaneCells, Fold, MarkOwner, CellIds, ViaIds;
    forall c | Inside(size, c) && 0 <= NodeIdx(size, c) < |a'|
      ensures a'[NodeIdx(size, c)] == Fold(CellIds(ps[..i + 1], covers, c))
    {
      CellIdsStep(ps, i, covers, c);
    }
    forall x, y | OnPlane(size, x, y) && 0 <= PlaneIdx(size, x, y) < |v'|
      ensures v'[PlaneIdx(size, x, y)] == Fold(ViaIds(ps[..i + 1], viaCovers, x, y))
    {
      ViaIdsStep(ps, i, viaCovers, x, y);
    }
  }

  // ---- Gather: cell by cell ------------------------------------------------------------------

  /** The kernel keeps one slot per layer; a board has at most six, the kernel room for eight. */
  const KERNEL_LAYERS: int := 8

  function KernelViaIds(ps: seq<Primitive>, viaCovers: Coverage, x: int, y: int): seq<OwnerId> {
    if ps == [] then []
    else
      var n := |ps| - 1;
      KernelViaIds(ps[..n], viaCovers, x, y) + (if viaCovers(n, x, y) then [ps[n].viaOwnerId] else [])
  }

  /** One work item: gathers every primitive that reaches its plane cell into private slots. */
  method GatherCell(size: Size, ps: seq<Primitive>, covers: Coverage, viaCovers: Coverage, x: int, y: int)
    returns (viaSlot: int, cellSlot: seq<int>)
    requires size.layers <= KERNEL_LAYERS
    ensures |cellSlot| == KERNEL_LAYERS && viaSlot == Fold(KernelViaIds(ps, viaCovers, x, y))
    ensures forall ly :: 0 <= ly < size.layers ==> cellSlot[ly] == Fold(CellIds(ps, covers, Cell(ly, x, y)))
  {
    hide MarkOwner;
    viaSlot := 0;
    cellSlot := seq(KERNEL_LAYERS, _ => 0);
    for i := 0 to |ps|
      invariant |cellSlot| == KERNEL_LAYERS && viaSlot == Fold(KernelViaIds(ps[..i], viaCovers, x, y))
      invariant forall ly :: 0 <= ly < size.layers ==> cellSlot[ly] == Fold(CellIds(ps[..i], covers, Cell(ly, x, y)))
    {
      hide Fold, CellIds;
      var p := ps[i];
      ghost var was := cellSlot;
      if covers(i, x, y) {
        if p.layer == -1 {
          for ly := 0 to size.layers
            invariant |cellSlot| == KERNEL_LAYERS
            invariant forall k :: 0 <= k < KERNEL_LAYERS ==>
                        cellSlot[k] == if k < ly then MarkOwner(was[k], p.ownerId) else was[k]
          {
            cellSlot := cellSlot[ly := MarkOwner(cellSlot[ly], p.ownerId)];
          }
        } else if 0 <= p.layer < size.layers {
          cellSlot := cellSlot[p.layer := MarkOwner(cellSlot[p.layer], p.ownerId)];
        }
      }
      forall ly | 0 <= ly < size.layers
        ensures cellSlot[ly] == Fold(CellIds(ps[..i + 1], covers, Cell(ly, x, y)))
      {
        CellIdsStep(ps, i, covers, Cell(ly, x, y));
      }
      assert ps[..i + 1][..i] == ps[..i];
      ghost var ids := KernelViaIds(ps[..i], viaCovers, x, y);
      FoldSnoc(ids, p.viaOwnerId);
      assert ids + [] == ids;
      if viaCovers(i, x, y) {
        viaSlot := MarkOwner(viaSlot, p.viaOwnerId);
      }
    }
    assert ps[..|ps|] == ps;
  }

  /** Blocking the pinned centres afterwards gives what blocking them along the way gives: block-all absorbs. */
  lemma {:induction false} LateOverride(ps: seq<Primitive>, viaCovers: Coverage, x: int, y: int)
    ensures Fold(ViaIds(ps, viaCovers, x, y)) ==
            if Pinned(ps, x, y) then BLOCK_ALL else Fold(KernelViaIds(ps, viaCovers, x, y))
  {
    if ps != [] {
      var n := |ps| - 1;
      LateOverride(ps[..n], viaCovers, x, y);
      ViaIdsStep(ps, n, viaCovers, x, y);
      assert ps[..n + 1] == ps;
      PinnedSnoc(ps, x, y);
      var ids := KernelViaIds(ps[..n], viaCovers, x, y);
      FoldSnoc(ids, ps[n].viaOwnerId);
      assert ids + [] == ids;
    }
  }

  lemma PinnedSnoc(ps: seq<Primitive>, x: int, y: int)
    requires ps != []
    ensures var n := |ps| - 1; Pinned(ps, x, y) <==>
              Pinned(ps[..n], x, y) || (ps[n].pinned && x == ps[n].px && y == ps[n].py)
  {
    var n := |ps| - 1;
    if i :| 0 <= i < n && ps[..n][i].pinned && ps[..n][i].px == x && ps[..n][i].py == y {
      assert ps[i].pinned && ps[i].px == x && ps[i].py == y;
    }
  }

  /** The graphics path: every plane cell is one work item, then pinned centres are blocked on the host. */
  method Gather(size: Size, ps: seq<Primitive>, covers: Coverage, viaCovers: Coverage)
    returns (cellOwner: array<int>, viaOwner: array<int>)
    requires size.layers <= KERNEL_LAYERS
    requires forall i :: 0 <= i < |ps| && ps[i].pinned ==> OnPlane(size, ps[i].px, ps[i].py)
    ensures Rasterised(size, ps, covers, viaCovers, cellOwner[..], viaOwner[..])
  {
    IndexFacts(size);
    PlaneFacts(size);
    hide Fold, MarkOwner, NodeIdx, PlaneIdx, TotalCells, PlaneCells, CellIds, ViaIds, KernelViaIds;
    cellOwner := new int[TotalCells(size)](_ => 0);
    viaOwner := new int[PlaneCells(size)](_ => 0);
    for y := 0 to size.h
      invariant forall c {:trigger NodeIdx(size, c)} :: Inside(size, c) && c.y < y ==>
                  cellOwner[NodeIdx(size, c)] == Fold(CellIds(ps, covers, c))
      invariant forall v, w {:trigger PlaneIdx(size, v, w)} :: OnPlane(size, v, w) && w < y ==>
                  viaOwner[PlaneIdx(size, v, w)] == Fold(KernelViaIds(ps, viaCovers, v, w))
    {
      for x := 0 to size.w
        invariant forall c {:trigger NodeIdx(size, c)} :: Inside(size, c) && (c.y < y || (c.y == y && c.x < x)) ==>
                    cellOwner[NodeIdx(size, c)] == Fold(CellIds(ps, covers, c))
        invariant forall v, w {:trigger PlaneIdx(size, v, w)} :: OnPlane(size, v, w) && (w < y || (w == y && v < x)) ==>
                    viaOwner[PlaneIdx(size, v, w)] == Fold(KernelViaIds(ps, viaCovers, v, w))
      {
        var viaSlot, cellSlot := GatherCell(size, ps, covers, viaCovers, x, y);
        viaOwner[PlaneIdx(size, x, y)] := viaSlot;
        for ly := 0 to size.layers
          invariant viaOwner[PlaneIdx(size, x, y)] == viaSlot
          invariant forall v, w {:trigger PlaneIdx(size, v, w)} ::
                      OnPlane(size, v, w) && (w < y || (w == y && v < x)) ==>
                      viaOwner[PlaneIdx(size, v, w)] == Fold(KernelViaIds(ps, viaCovers, v, w))
          invariant forall c {:trigger NodeIdx(size, c)} ::
                      Inside(size, c) && (c.y < y || (c.y == y && (c.x < x || (c.x == x && c.l < ly)))) ==>
                        cellOwner[NodeIdx(size, c)] == Fold(CellIds(ps, covers, c))
        {
          KernelIndex(size, ly, x, y);
          cellOwner[ly * PlaneCells(size) + PlaneIdx(size, x, y)] := cellSlot[ly];
        }
      }
    }
    for i := 0 to |ps|
      invariant forall v, w {:trigger PlaneIdx(size, v, w)} :: OnPlane(size, v, w) ==>
                  viaOwner[PlaneIdx(size, v, w)] ==
                  if Pinned(ps[..i], v, w) then BLOCK_ALL else Fold(KernelViaIds(ps, viaCovers, v, w))
      invariant forall c {:trigger NodeIdx(size, c)} :: Inside(size, c) ==>
                  cellOwner[NodeIdx(size, c)] == Fold(CellIds(ps, covers, c))
    {
      forall v, w
        ensures Pinned(ps[..i + 1], v, w) <==> Pinned(ps[..i], v, w) || (ps[i].pinned && v == ps[i].px && w == ps[i].py)
      {
        assert ps[..i + 1][..i] == ps[..i];
        PinnedSnoc(ps[..i + 1], v, w);
      }
      hide Pinned;
      if ps[i].pinned {
        viaOwner[PlaneIdx(size, ps[i].px, ps[i].py)] := BLOCK_ALL;
      }
    }
    assert ps[..|ps|] == ps;
    forall x, y | OnPlane(size, x, y)
      ensures viaOwner[PlaneIdx(size, x, y)] == Fold(ViaIds(ps, viaCovers, x, y))
    {
      LateOverride(ps, viaCovers, x, y);
    }
  }

  /** The kernel's own index, layer plane by layer plane, is the router's node index. */
  lemma KernelIndex(size: Size, ly: int, x: int, y: int)
    ensures ly * PlaneCells(size) + PlaneIdx(size, x, y) == NodeIdx(size, Cell(ly, x, y))
  {
    assert (ly * size.h + y) * size.w == ly * size.h * size.w + y * size.w;
    assert ly * (size.w * size.h) == ly * size.h * size.w;
  }
}

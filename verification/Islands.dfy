/** The copper islands of a net before routing: which of its pads, tracks and vias are already one piece, and the
    seed and goal cells that stand for each piece on the grid. */
module Islands {
  import opened Closure
  import opened DisjointSets
  import opened Grid
  import opened BridgeSearch

  datatype Kind = PadElem | TrackElem | ViaElem

  /** A cell an element occupies, with the exact copper point nearest to its centre. */
  datatype Raster = Raster(cell: Cell, ex: real, ey: real, interior: bool)

  datatype Elem = Elem(kind: Kind, raster: seq<Raster>)

  /** A raster cell with the first element found on it. */
  datatype RawCell = RawCell(cell: Cell, elem: nat, ex: real, ey: real, interior: bool)

  predicate Occupies(e: Elem, c: Cell) {
    exists k :: 0 <= k < |e.raster| && e.raster[k].cell == c
  }

  predicate Anchored(e: Elem) {
    e.kind.PadElem? || e.kind.ViaElem?
  }

  /** Some element marks the cell with this copper point, as an interior point of it or as an end. */
  ghost predicate HasPoint(elems: seq<Elem>, c: Cell, ex: real, ey: real, interior: bool) {
    exists e, k :: 0 <= e < |elems| && 0 <= k < |elems[e].raster| && elems[e].raster[k] == Raster(c, ex, ey, interior)
  }

  // ---- Contact -------------------------------------------------------------------------------

  ghost predicate SharePour(pours: seq<seq<nat>>, i: nat, j: nat) {
    exists p :: 0 <= p < |pours| && i in pours[p] && j in pours[p]
  }

  ghost predicate ShareCell(elems: seq<Elem>, i: nat, j: nat) {
    i < |elems| && j < |elems| && exists c :: Occupies(elems[i], c) && Occupies(elems[j], c)
  }

  /** Two elements are in contact when they touch, lie in the same copper pour, or fall on the same grid cell. */
  ghost function Contact(elems: seq<Elem>, touches: (nat, nat) -> bool, pours: seq<seq<nat>>): (nat, nat) -> bool {
    (i: nat, j: nat) => (i < j < |elems| && touches(i, j)) || SharePour(pours, i, j) || ShareCell(elems, i, j)
  }

  ghost predicate SoundEdges(edges: seq<(nat, nat)>, related: (nat, nat) -> bool) {
    forall e :: e in edges ==> related(e.0, e.1) || related(e.1, e.0)
  }

  ghost predicate Fits(ds: DisjointSet, n: nat)
    reads ds, ds.parent
  {
    ds.Valid() && ds.parent.Length == n
  }

  lemma LinkedStays(edges: seq<(nat, nat)>, e: (nat, nat))
    ensures forall a, b :: Linked(edges, a, b) ==> Linked(edges + [e], a, b)
  {
    forall a, b | Linked(edges, a, b)
      ensures Linked(edges + [e], a, b)
    {
      LinkedMono(edges, edges + [e], a, b);
    }
  }

  /** One union between related elements. */
  method Join(ds: DisjointSet, ghost n: nat, ghost related: (nat, nat) -> bool, a: nat, b: nat)
    requires Fits(ds, n) && a < n && b < n && SoundEdges(ds.edges, related) && (related(a, b) || related(b, a))
    modifies ds`rep, ds`edges, ds`rank, ds.parent
    ensures Fits(ds, n) && SoundEdges(ds.edges, related) && Linked(ds.edges, a, b)
    ensures forall x, y :: Linked(old(ds.edges), x, y) ==> Linked(ds.edges, x, y)
  {
    LinkedStays(ds.edges, (a, b));
    hide Forest, Represents;
    ds.Unite(a, b);
    LinkedEdge(ds.edges, a, b);
  }

  ghost predicate TouchesLinked(edges: seq<(nat, nat)>, n: nat, touches: (nat, nat) -> bool, i: nat, j: nat) {
    forall x: nat, y: nat :: x < y < n && (x < i || (x == i && y < j)) && touches(x, y) ==> Linked(edges, x, y)
  }

  method UniteTouching(ds: DisjointSet, elems: seq<Elem>, touches: (nat, nat) -> bool, ghost pours: seq<seq<nat>>)
    requires Fits(ds, |elems|) && SoundEdges(ds.edges, Contact(elems, touches, pours))
    modifies ds`rep, ds`edges, ds`rank, ds.parent
    ensures Fits(ds, |elems|) && SoundEdges(ds.edges, Contact(elems, touches, pours))
    ensures TouchesLinked(ds.edges, |elems|, touches, |elems|, 0)
  {
    hide Fits, Linked, SharePour, ShareCell, SoundEdges;
    var n := |elems|;
    for i := 0 to n
      invariant Fits(ds, n) && SoundEdges(ds.edges, Contact(elems, touches, pours))
      invariant TouchesLinked(ds.edges, n, touches, i, 0)
    {
      for j := i + 1 to n
        invariant Fits(ds, n) && SoundEdges(ds.edges, Contact(elems, touches, pours))
        invariant TouchesLinked(ds.edges, n, touches, i, j)
      {
        if touches(i, j) {
          ghost var before := ds.edges;
          Join(ds, n, Contact(elems, touches, pours), i, j);
          assert forall x: nat, y: nat :: Linked(before, x, y) ==> Linked(ds.edges, x, y);
        }
      }
    }
  }

  ghost predicate PoursLinked(edges: seq<(nat, nat)>, pours: seq<seq<nat>>, p: nat) {
    forall q, k :: 0 <= q < p && q < |pours| && 0 <= k < |pours[q]| ==> Linked(edges, pours[q][0], pours[q][k])
  }

  ghost predicate PourMembers(pours: seq<seq<nat>>, n: nat) {
    forall q, k :: 0 <= q < |pours| && 0 <= k < |pours[q]| ==> pours[q][k] < n
  }

  /** Every later member of a pour is united with the first. */
  method UnitePours(ds: DisjointSet, ghost elems: seq<Elem>, ghost touches: (nat, nat) -> bool, pours: seq<seq<nat>>)
    requires Fits(ds, |elems|) && SoundEdges(ds.edges, Contact(elems, touches, pours)) && PourMembers(pours, |elems|)
    modifies ds`rep, ds`edges, ds`rank, ds.parent
    ensures Fits(ds, |elems|) && SoundEdges(ds.edges, Contact(elems, touches, pours))
    ensures PoursLinked(ds.edges, pours, |pours|)
    ensures forall x, y :: Linked(old(ds.edges), x, y) ==> Linked(ds.edges, x, y)
  {
    hide Fits, Linked, ShareCell, SoundEdges;
    ghost var n := |elems|;
    for p := 0 to |pours|
      invariant Fits(ds, n) && SoundEdges(ds.edges, Contact(elems, touches, pours))
      invariant PoursLinked(ds.edges, pours, p)
      invariant forall x, y :: Linked(old(ds.edges), x, y) ==> Linked(ds.edges, x, y)
    {
      if pours[p] != [] {
        LinkedRefl(ds.edges, pours[p][0]);
        for k := 1 to |pours[p]|
          invariant Fits(ds, n) && SoundEdges(ds.edges, Contact(elems, touches, pours))
          invariant PoursLinked(ds.edges, pours, p)
          invariant forall m :: 0 <= m < k && m < |pours[p]| ==> Linked(ds.edges, pours[p][0], pours[p][m])
          invariant forall x, y :: Linked(old(ds.edges), x, y) ==> Linked(ds.edges, x, y)
        {
          assert pours[p][0] in pours[p] && pours[p][k] in pours[p];
          assert SharePour(pours, pours[p][0], pours[p][k]);
          Join(ds, n, Contact(elems, touches, pours), pours[p][0], pours[p][k]);
        }
      }
    }
  }

  // ---- Cells ---------------------------------------------------------------------------------

  /** Each recorded cell is listed once, under an element that occupies it. */
  ghost predicate RawOk(elems: seq<Elem>, raw: seq<RawCell>, index: map<Cell, nat>) {
    && (forall c :: c in index ==> index[c] < |raw| && raw[index[c]].cell == c)
    && (forall i :: 0 <= i < |raw| ==> raw[i].cell in index && index[raw[i].cell] == i)
    && (forall i :: 0 <= i < |raw| ==> raw[i].elem < |elems| && Occupies(elems[raw[i].elem], raw[i].cell))
    && (forall i :: 0 <= i < |raw| ==> HasPoint(elems, raw[i].cell, raw[i].ex, raw[i].ey, raw[i].interior))
  }

  /** A recorded cell's element is linked to every element processed so far that occupies the cell, and the cell
      is recorded as interior only if it is interior to all of them. */
  ghost predicate CellsLinked(edges: seq<(nat, nat)>, elems: seq<Elem>, raw: seq<RawCell>, index: map<Cell, nat>,
                              e: nat, k: nat)
  {
    forall x: nat, m: nat {:trigger elems[x].raster[m]} ::
      x < |elems| && m < |elems[x].raster| && (x < e || (x == e && m < k)) ==>
        var c := elems[x].raster[m].cell;
        && c in index && index[c] < |raw| && Linked(edges, raw[index[c]].elem, x)
        && (raw[index[c]].interior ==> elems[x].raster[m].interior)
  }

  lemma OccupiesAt(e: Elem, k: nat)
    requires k < |e.raster|
    ensures Occupies(e, e.raster[k].cell)
  {
  }

  /** Records one raster cell of element `e`: a new cell gets an entry, a known one merges the two elements,
      and an exact end point replaces a mere interior one. */
  method AddCell(ds: DisjointSet, ghost elems: seq<Elem>, ghost touches: (nat, nat) -> bool, ghost pours: seq<seq<nat>>,
                 raw: seq<RawCell>, index: map<Cell, nat>, e: nat, r: Raster, ghost k: nat)
    returns (raw': seq<RawCell>, index': map<Cell, nat>)
    requires Fits(ds, |elems|) && SoundEdges(ds.edges, Contact(elems, touches, pours))
    requires RawOk(elems, raw, index) && CellsLinked(ds.edges, elems, raw, index, e, k)
    requires e < |elems| && k < |elems[e].raster| && r == elems[e].raster[k]
    modifies ds`rep, ds`edges, ds`rank, ds.parent
    ensures Fits(ds, |elems|) && SoundEdges(ds.edges, Contact(elems, touches, pours))
    ensures RawOk(elems, raw', index') && CellsLinked(ds.edges, elems, raw', index', e, k + 1)
    ensures forall x, y :: Linked(old(ds.edges), x, y) ==> Linked(ds.edges, x, y)
  {
    hide Fits, Linked, SoundEdges, SharePour, Occupies, RawOk, CellsLinked;
    var c := r.cell;
    if c !in index {
      index' := index[c := |raw|];
      raw' := raw + [RawCell(c, e, r.ex, r.ey, r.interior)];
      NewCellOk(ds.edges, elems, raw, index, e, r, k);
    } else {
      KnownCellShared(elems, raw, index, e, r, k);
      var i := index[c];
      ghost var before := ds.edges;
      Join(ds, |elems|, Contact(elems, touches, pours), raw[i].elem, e);
      assert forall x: nat, y: nat :: Linked(before, x, y) ==> Linked(ds.edges, x, y);
      index' := index;
      raw' := if r.interior then raw else raw[i := raw[i].(interior := false, ex := r.ex, ey := r.ey)];
      KnownCellOk(before, ds.edges, elems, raw, index, e, r, k, raw');
    }
  }

  lemma NewCellOk(edges: seq<(nat, nat)>, elems: seq<Elem>, raw: seq<RawCell>, index: map<Cell, nat>, e: nat, r: Raster,
                  k: nat)
    requires RawOk(elems, raw, index) && CellsLinked(edges, elems, raw, index, e, k)
    requires e < |elems| && k < |elems[e].raster| && r == elems[e].raster[k] && r.cell !in index
    ensures var raw', index' := raw + [RawCell(r.cell, e, r.ex, r.ey, r.interior)], index[r.cell := |raw|];
            RawOk(elems, raw', index') && CellsLinked(edges, elems, raw', index', e, k + 1)
  {
    hide Linked, Occupies;
    OccupiesAt(elems[e], k);
    LinkedRefl(edges, e);
  }

  lemma KnownCellShared(elems: seq<Elem>, raw: seq<RawCell>, index: map<Cell, nat>, e: nat, r: Raster, k: nat)
    requires RawOk(elems, raw, index) && r.cell in index
    requires e < |elems| && k < |elems[e].raster| && r == elems[e].raster[k]
    ensures index[r.cell] < |raw| && raw[index[r.cell]].elem < |elems| && ShareCell(elems, raw[index[r.cell]].elem, e)
  {
    hide Occupies;
    OccupiesAt(elems[e], k);
  }

  lemma KnownCellOk(before: seq<(nat, nat)>, edges: seq<(nat, nat)>, elems: seq<Elem>, raw: seq<RawCell>,
                    index: map<Cell, nat>, e: nat, r: Raster, k: nat, raw': seq<RawCell>)
    requires RawOk(elems, raw, index) && CellsLinked(before, elems, raw, index, e, k)
    requires e < |elems| && k < |elems[e].raster| && r == elems[e].raster[k] && r.cell in index
    requires index[r.cell] < |raw| && Linked(edges, raw[index[r.cell]].elem, e)
    requires forall x: nat, y: nat :: Linked(before, x, y) ==> Linked(edges, x, y)
    requires raw' == if r.interior then raw
                     else raw[index[r.cell] := raw[index[r.cell]].(interior := false, ex := r.ex, ey := r.ey)]
    ensures RawOk(elems, raw', index) && CellsLinked(edges, elems, raw', index, e, k + 1)
  {
    hide Linked, Occupies;
    EndReplaces(elems, raw, index, e, r, k, raw');
    hide RawOk, HasPoint;
    forall x: nat, m: nat {:trigger elems[x].raster[m]} |
      x < |elems| && m < |elems[x].raster| && (x < e || (x == e && m < k + 1))
      ensures var c := elems[x].raster[m].cell;
              && c in index && index[c] < |raw'| && Linked(edges, raw'[index[c]].elem, x)
              && (raw'[index[c]].interior ==> elems[x].raster[m].interior)
    {
    }
  }

  lemma EndReplaces(elems: seq<Elem>, raw: seq<RawCell>, index: map<Cell, nat>, e: nat, r: Raster, k: nat,
                    raw': seq<RawCell>)
    requires RawOk(elems, raw, index) && r.cell in index && index[r.cell] < |raw|
    requires e < |elems| && k < |elems[e].raster| && r == elems[e].raster[k]
    requires raw' == if r.interior then raw
                     else raw[index[r.cell] := raw[index[r.cell]].(interior := false, ex := r.ex, ey := r.ey)]
    ensures RawOk(elems, raw', index)
  {
    hide Occupies;
  }

  method AddCells(ds: DisjointSet, elems: seq<Elem>, ghost touches: (nat, nat) -> bool, ghost pours: seq<seq<nat>>)
    returns (raw: seq<RawCell>, ghost index: map<Cell, nat>)
    requires Fits(ds, |elems|) && SoundEdges(ds.edges, Contact(elems, touches, pours))
    modifies ds`rep, ds`edges, ds`rank, ds.parent
    ensures Fits(ds, |elems|) && SoundEdges(ds.edges, Contact(elems, touches, pours))
    ensures RawOk(elems, raw, index) && CellsLinked(ds.edges, elems, raw, index, |elems|, 0)
    ensures forall x, y :: Linked(old(ds.edges), x, y) ==> Linked(ds.edges, x, y)
  {
    raw := [];
    var found: map<Cell, nat> := map[];
    NoCells(ds.edges, elems);
    hide Fits, Linked, SoundEdges, RawOk, CellsLinked, Contact;
    for e := 0 to |elems|
      invariant Fits(ds, |elems|) && SoundEdges(ds.edges, Contact(elems, touches, pours))
      invariant RawOk(elems, raw, found) && CellsLinked(ds.edges, elems, raw, found, e, 0)
      invariant forall x, y :: Linked(old(ds.edges), x, y) ==> Linked(ds.edges, x, y)
    {
      for k := 0 to |elems[e].raster|
        invariant Fits(ds, |elems|) && SoundEdges(ds.edges, Contact(elems, touches, pours))
        invariant RawOk(elems, raw, found) && CellsLinked(ds.edges, elems, raw, found, e, k)
        invariant forall x, y :: Linked(old(ds.edges), x, y) ==> Linked(ds.edges, x, y)
      {
        raw, found := AddCell(ds, elems, touches, pours, raw, found, e, elems[e].raster[k], k);
      }
      NextElement(ds.edges, elems, raw, found, e);
    }
    index := found;
  }

  lemma NoCells(edges: seq<(nat, nat)>, elems: seq<Elem>)
    ensures RawOk(elems, [], map[]) && CellsLinked(edges, elems, [], map[], 0, 0)
  {
  }

  lemma NextElement(edges: seq<(nat, nat)>, elems: seq<Elem>, raw: seq<RawCell>, index: map<Cell, nat>, e: nat)
    requires e < |elems| && CellsLinked(edges, elems, raw, index, e, |elems[e].raster|)
    ensures CellsLinked(edges, elems, raw, index, e + 1, 0)
  {
    hide Linked;
  }

  // ---- All contacts are linked ---------------------------------------------------------------

  lemma ContactsCovered(edges: seq<(nat, nat)>, elems: seq<Elem>, touches: (nat, nat) -> bool, pours: seq<seq<nat>>,
                        raw: seq<RawCell>, index: map<Cell, nat>)
    requires SoundEdges(edges, Contact(elems, touches, pours))
    requires TouchesLinked(edges, |elems|, touches, |elems|, 0)
    requires PoursLinked(edges, pours, |pours|)
    requires CellsLinked(edges, elems, raw, index, |elems|, 0)
    ensures Covers(edges, Contact(elems, touches, pours))
  {
    hide Linked, SharePour, ShareCell, CellsLinked, PoursLinked;
    forall i: nat, j: nat | Contact(elems, touches, pours)(i, j)
      ensures Linked(edges, i, j)
    {
      assert (i < j < |elems| && touches(i, j)) || SharePour(pours, i, j) || ShareCell(elems, i, j);
      if SharePour(pours, i, j) {
        PourPairLinked(edges, pours, i, j);
      } else if ShareCell(elems, i, j) {
        CellPairLinked(edges, elems, raw, index, i, j);
      }
    }
  }

  lemma PourPairLinked(edges: seq<(nat, nat)>, pours: seq<seq<nat>>, i: nat, j: nat)
    requires PoursLinked(edges, pours, |pours|) && SharePour(pours, i, j)
    ensures Linked(edges, i, j)
  {
    hide Linked;
    var p :| 0 <= p < |pours| && i in pours[p] && j in pours[p];
    var a :| 0 <= a < |pours[p]| && pours[p][a] == i;
    var b :| 0 <= b < |pours[p]| && pours[p][b] == j;
    LinkedSym(edges, pours[p][0], i);
    LinkedTrans(edges, i, pours[p][0], j);
  }

  lemma CellPairLinked(edges: seq<(nat, nat)>, elems: seq<Elem>, raw: seq<RawCell>, index: map<Cell, nat>, i: nat,
                       j: nat)
    requires CellsLinked(edges, elems, raw, index, |elems|, 0) && ShareCell(elems, i, j)
    ensures Linked(edges, i, j)
  {
    hide Linked;
    var c :| Occupies(elems[i], c) && Occupies(elems[j], c);
    var a :| 0 <= a < |elems[i].raster| && elems[i].raster[a].cell == c;
    var b :| 0 <= b < |elems[j].raster| && elems[j].raster[b].cell == c;
    LinkedSym(edges, raw[index[c]].elem, i);
    LinkedTrans(edges, i, raw[index[c]].elem, j);
  }

  // ---- Numbering -----------------------------------------------------------------------------

  ghost predicate Used(number: map<nat, nat>, v: nat) {
    exists r :: r in number && number[r] == v
  }

  /** Islands are numbered in order of their first element, leaving no number out. */
  ghost predicate Numbered(root: seq<nat>, number: map<nat, nat>, islandOf: seq<nat>) {
    && |islandOf| == |root|
    && (forall i :: 0 <= i < |root| ==> root[i] in number && islandOf[i] == number[root[i]])
    && (forall r, s :: r in number && s in number && number[r] == number[s] ==> r == s)
    && (forall r :: r in number ==> number[r] < |number| && r in root)
    && (forall v :: 0 <= v < |number| ==> Used(number, v))
  }

  lemma NumberNext(root: seq<nat>, number: map<nat, nat>, islandOf: seq<nat>, r: nat)
    requires Numbered(root, number, islandOf)
    ensures var number' := if r in number then number else number[r := |number|];
            Numbered(root + [r], number', islandOf + [number'[r]])
  {
    var root' := root + [r];
    assert r in root';
    assert forall s :: s in number ==> s in root';
    var number' := if r in number then number else number[r := |number|];
    forall v: nat | v < |number'|
      ensures Used(number', v)
    {
      if v < |number| {
        assert Used(number, v);
        var s :| s in number && number[s] == v;
        assert s in number' && number'[s] == v;
      } else {
        assert r in number' && number'[r] == v;
      }
    }
  }

  method NumberIslands(ds: DisjointSet, n: nat) returns (islandOf: seq<nat>, count: nat)
    requires Fits(ds, n)
    modifies ds.parent
    ensures Fits(ds, n) && |islandOf| == n
    ensures forall i: nat, j: nat :: i < n && j < n ==> (islandOf[i] == islandOf[j] <==> Linked(ds.edges, i, j))
    ensures forall i :: 0 <= i < n ==> islandOf[i] < count
    ensures forall v :: 0 <= v < count ==> v in islandOf
  {
    hide Forest, Represents, Linked, Numbered;
    var number: map<nat, nat> := map[];
    ghost var root: seq<nat> := [];
    islandOf := [];
    assert Numbered(root, number, islandOf) by { NoneNumbered(); }
    for i := 0 to n
      invariant Fits(ds, n) && |root| == i
      invariant Numbered(root, number, islandOf)
      invariant forall k :: 0 <= k < i ==> k in ds.rep && root[k] == ds.rep[k]
    {
      var r := ds.Find(i);
      NumberNext(root, number, islandOf, r);
      if r !in number {
        number := number[r := |number|];
      }
      islandOf := islandOf + [number[r]];
      root := root + [r];
    }
    count := |number|;
    NumbersSeparate(ds.rep, ds.edges, root, number, islandOf);
  }

  lemma NoneNumbered()
    ensures Numbered([], map[], [])
  {
  }

  lemma NumbersSeparate(rep: map<nat, nat>, edges: seq<(nat, nat)>, root: seq<nat>, number: map<nat, nat>,
                        islandOf: seq<nat>)
    requires Represents(rep, edges) && Numbered(root, number, islandOf)
    requires forall k :: 0 <= k < |root| ==> k in rep && root[k] == rep[k]
    ensures |islandOf| == |root|
    ensures forall i: nat, j: nat :: i < |root| && j < |root| ==> (islandOf[i] == islandOf[j] <==> Linked(edges, i, j))
    ensures forall i :: 0 <= i < |root| ==> islandOf[i] < |number|
    ensures forall v :: 0 <= v < |number| ==> v in islandOf
  {
    hide Linked;
    forall v: nat | v < |number|
      ensures v in islandOf
    {
      assert Used(number, v);
      var r :| r in number && number[r] == v;
      var i :| 0 <= i < |root| && root[i] == r;
      assert islandOf[i] == v;
    }
  }

  // ---- The result ----------------------------------------------------------------------------

  /** `islandOf[e]` is the island of element `e`; two elements share one exactly when a chain of contacts joins them. */
  ghost predicate IslandsAre(elems: seq<Elem>, touches: (nat, nat) -> bool, pours: seq<seq<nat>>, islandOf: seq<nat>) {
    && |islandOf| == |elems|
    && forall i: nat, j: nat :: i < |elems| && j < |elems| ==>
         (islandOf[i] == islandOf[j] <==> Connected(Contact(elems, touches, pours), i, j))
  }

  ghost predicate HasAnchor(elems: seq<Elem>, islandOf: seq<nat>, isl: int)
    requires |islandOf| == |elems|
  {
    exists e :: 0 <= e < |elems| && islandOf[e] == isl && Anchored(elems[e])
  }

  /** A copper cell stands for a copper point of an element on it, an end point whenever any element ends there. */
  ghost predicate ExactPoint(elems: seq<Elem>, cc: CopperCell) {
    && HasPoint(elems, cc.cell, cc.ex, cc.ey, cc.interior)
    && (cc.interior ==> InteriorOnly(elems, cc.cell))
  }

  ghost predicate InteriorOnly(elems: seq<Elem>, c: Cell) {
    forall e, k :: 0 <= e < |elems| && 0 <= k < |elems[e].raster| && elems[e].raster[k].cell == c ==>
                     elems[e].raster[k].interior
  }

  /** The copper cells are distinct, lie in anchored islands, stand for exact points, and miss no cell an element
      of one occupies. */
  ghost predicate CopperIs(elems: seq<Elem>, islandOf: seq<nat>, copper: seq<CopperCell>)
    requires |islandOf| == |elems|
  {
    && (forall i, j :: 0 <= i < j < |copper| ==> copper[i].cell != copper[j].cell)
    && (forall i :: 0 <= i < |copper| ==>
          HasAnchor(elems, islandOf, copper[i].island) && OnIsland(elems, islandOf, copper[i]))
    && (forall i :: 0 <= i < |copper| ==> ExactPoint(elems, copper[i]))
    && forall e, k :: 0 <= e < |elems| && 0 <= k < |elems[e].raster| && HasAnchor(elems, islandOf, islandOf[e]) ==>
         Listed(copper, elems[e].raster[k].cell, islandOf[e])
  }

  ghost predicate OnIsland(elems: seq<Elem>, islandOf: seq<nat>, cc: CopperCell)
    requires |islandOf| == |elems|
  {
    exists e :: 0 <= e < |elems| && islandOf[e] == cc.island && Occupies(elems[e], cc.cell)
  }

  ghost predicate Listed(copper: seq<CopperCell>, c: Cell, isl: int) {
    exists i :: 0 <= i < |copper| && copper[i].cell == c && copper[i].island == isl
  }

  /** The islands routing must join: those with a pad or a via. */
  ghost function AnchoredIslands(elems: seq<Elem>, islandOf: seq<nat>, count: nat): set<int>
    requires |islandOf| == |elems|
  {
    set isl | 0 <= isl < count && HasAnchor(elems, islandOf, isl)
  }

  function CountTrue(flags: seq<bool>): nat {
    if flags == [] then 0 else CountTrue(flags[..|flags| - 1]) + (if flags[|flags| - 1] then 1 else 0)
  }

  ghost function TrueAt(flags: seq<bool>): set<int> {
    set i | 0 <= i < |flags| && flags[i]
  }

  lemma {:induction false} CountIsSize(flags: seq<bool>)
    ensures CountTrue(flags) == |TrueAt(flags)|
  {
    if flags != [] {
      var n := |flags| - 1;
      CountIsSize(flags[..n]);
      var rest := TrueAt(flags[..n]);
      assert TrueAt(flags) == if flags[n] then rest + {n} else rest;
    } else {
      assert TrueAt(flags) == {};
    }
  }

  function CellsOn(copper: seq<CopperCell>, isl: int): nat {
    if copper == [] then 0
    else CellsOn(copper[..|copper| - 1], isl) + (if copper[|copper| - 1].island == isl then 1 else 0)
  }

  method CountCells(copper: seq<CopperCell>, isl: int) returns (n: nat)
    ensures n == CellsOn(copper, isl)
  {
    n := 0;
    for i := 0 to |copper|
      invariant n == CellsOn(copper[..i], isl)
    {
      assert copper[..i + 1][..i] == copper[..i];
      if copper[i].island == isl {
        n := n + 1;
      }
    }
    assert copper[..|copper|] == copper;
  }

  method MarkAnchors(elems: seq<Elem>, islandOf: seq<nat>, count: nat) returns (hasPad: seq<bool>)
    requires |islandOf| == |elems| && forall e :: 0 <= e < |elems| ==> islandOf[e] < count
    ensures |hasPad| == count && forall isl :: 0 <= isl < count ==> (hasPad[isl] <==> HasAnchor(elems, islandOf, isl))
  {
    hasPad := seq(count, _ => false);
    for e := 0 to |elems|
      invariant |hasPad| == count
      invariant forall isl :: 0 <= isl < count ==>
                  (hasPad[isl] <==> exists d :: 0 <= d < e && islandOf[d] == isl && Anchored(elems[d]))
    {
      if elems[e].kind.PadElem? || elems[e].kind.ViaElem? {
        hasPad := hasPad[islandOf[e] := true];
      }
    }
  }

  method CountIslands(hasPad: seq<bool>) returns (required: nat, padless: nat)
    ensures required == CountTrue(hasPad) && required + padless == |hasPad|
  {
    required, padless := 0, 0;
    for i := 0 to |hasPad|
      invariant required == CountTrue(hasPad[..i]) && required + padless == i
    {
      assert hasPad[..i + 1][..i] == hasPad[..i];
      if hasPad[i] {
        required := required + 1;
      } else {
        padless := padless + 1;
      }
    }
    assert hasPad[..|hasPad|] == hasPad;
  }

  predicate SamePoint(rc: RawCell, cc: CopperCell) {
    rc.cell == cc.cell && rc.ex == cc.ex && rc.ey == cc.ey && rc.interior == cc.interior
  }

  ghost predicate FromRaw(raw: seq<RawCell>, cc: CopperCell) {
    exists i :: 0 <= i < |raw| && SamePoint(raw[i], cc)
  }

  /** The cells of anchored islands, in the order they were recorded. */
  method CollectCopper(elems: seq<Elem>, islandOf: seq<nat>, raw: seq<RawCell>, ghost index: map<Cell, nat>,
                       hasPad: seq<bool>)
    returns (copper: seq<CopperCell>)
    requires |islandOf| == |elems| && RawOk(elems, raw, index)
    requires forall e :: 0 <= e < |elems| ==> islandOf[e] < |hasPad|
    requires forall isl :: 0 <= isl < |hasPad| ==> (hasPad[isl] <==> HasAnchor(elems, islandOf, isl))
    ensures forall i, j :: 0 <= i < j < |copper| ==> copper[i].cell != copper[j].cell
    ensures forall i :: 0 <= i < |copper| ==>
              HasAnchor(elems, islandOf, copper[i].island) && OnIsland(elems, islandOf, copper[i])
    ensures forall i :: 0 <= i < |raw| && hasPad[islandOf[raw[i].elem]] ==>
              Listed(copper, raw[i].cell, islandOf[raw[i].elem])
    ensures forall j :: 0 <= j < |copper| ==> FromRaw(raw, copper[j])
  {
    hide HasAnchor, Occupies, Listed, HasPoint;
    copper := [];
    ghost var from: seq<nat> := [];
    for i := 0 to |raw|
      invariant |from| == |copper|
      invariant forall j :: 0 <= j < |from| ==> from[j] < i && SamePoint(raw[from[j]], copper[j])
      invariant forall j, k :: 0 <= j < k < |from| ==> from[j] < from[k]
      invariant forall j :: 0 <= j < |copper| ==>
                  HasAnchor(elems, islandOf, copper[j].island) && OnIsland(elems, islandOf, copper[j])
      invariant forall j :: 0 <= j < i && hasPad[islandOf[raw[j].elem]] ==>
                  Listed(copper, raw[j].cell, islandOf[raw[j].elem])
    {
      var rc := raw[i];
      var isl := islandOf[rc.elem];
      if hasPad[isl] {
        ghost var before := copper;
        copper := copper + [CopperCell(rc.cell, isl, rc.ex, rc.ey, rc.interior)];
        from := from + [i];
        ListedGrows(before, copper[|before|]);
        assert OnIsland(elems, islandOf, copper[|before|]);
      }
    }
    forall i, j | 0 <= i < j < |copper|
      ensures copper[i].cell != copper[j].cell
    {
      assert index[raw[from[i]].cell] == from[i] && index[raw[from[j]].cell] == from[j];
    }
  }

  lemma ListedGrows(copper: seq<CopperCell>, cc: CopperCell)
    ensures Listed(copper + [cc], cc.cell, cc.island)
    ensures forall c, isl :: Listed(copper, c, isl) ==> Listed(copper + [cc], c, isl)
  {
    var all := copper + [cc];
    assert all[|copper|] == cc;
    forall c, isl | Listed(copper, c, isl)
      ensures Listed(all, c, isl)
    {
      var i :| 0 <= i < |copper| && copper[i].cell == c && copper[i].island == isl;
      assert all[i].cell == c && all[i].island == isl;
    }
  }

  /** Search starts from the anchored island with the most cells, the first of them on a tie. */
  method ChooseStart(copper: seq<CopperCell>, hasPad: seq<bool>) returns (start: nat)
    ensures (exists isl :: 0 <= isl < |hasPad| && hasPad[isl]) ==>
              && start < |hasPad| && hasPad[start]
              && forall isl :: 0 <= isl < |hasPad| && hasPad[isl] ==>
                   CellsOn(copper, isl) <= CellsOn(copper, start) &&
                   (isl < start ==> CellsOn(copper, isl) < CellsOn(copper, start))
  {
    hide CellsOn;
    start := 0;
    var bestCount: int := -1;
    for isl := 0 to |hasPad|
      invariant bestCount == -1 ==> forall k :: 0 <= k < isl ==> !hasPad[k]
      invariant bestCount >= 0 ==>
                  && start < isl && hasPad[start] && bestCount == CellsOn(copper, start)
                  && forall k :: 0 <= k < isl && hasPad[k] ==>
                       CellsOn(copper, k) <= bestCount && (k < start ==> CellsOn(copper, k) < bestCount)
      invariant bestCount >= -1
    {
      var cells := CountCells(copper, isl);
      if hasPad[isl] && cells > bestCount {
        bestCount := cells;
        start := isl;
      }
    }
  }

  datatype NetIslands = NetIslands(copper: seq<CopperCell>, count: nat, required: nat, padless: nat, start: nat)

  /** Builds the islands of a net. Elements share an island exactly when a chain of contacts joins them; the
      copper cells are those of the anchored islands, each cell once; `required` counts the anchored islands. */
  method BuildIslands(elems: seq<Elem>, touches: (nat, nat) -> bool, pours: seq<seq<nat>>)
    returns (net: NetIslands, ghost islandOf: seq<nat>)
    requires PourMembers(pours, |elems|)
    ensures IslandsAre(elems, touches, pours, islandOf)
    ensures forall e :: 0 <= e < |elems| ==> islandOf[e] < net.count
    ensures forall isl :: 0 <= isl < net.count ==> isl in islandOf
    ensures CopperIs(elems, islandOf, net.copper)
    ensures net.required == |AnchoredIslands(elems, islandOf, net.count)| && net.required + net.padless == net.count
    ensures net.required > 0 ==> HasAnchor(elems, islandOf, net.start)
    ensures net.required > 0 ==> forall isl :: isl in AnchoredIslands(elems, islandOf, net.count) ==>
              CellsOn(net.copper, isl) <= CellsOn(net.copper, net.start)
  {
    hide Linked, Connected, Covers, CellsLinked, PoursLinked, TouchesLinked, RawOk, Forest, Represents, CellsOn,
      Contact, HasAnchor, OnIsland, Listed;
    var ds := new DisjointSet(|elems|);
    ghost var related := Contact(elems, touches, pours);
    UniteTouching(ds, elems, touches, pours);
    ghost var touched := ds.edges;
    UnitePours(ds, elems, touches, pours);
    ghost var poured := ds.edges;
    var raw, index := AddCells(ds, elems, touches, pours);
    EdgesOnlyGrow(elems, touches, pours, touched, poured, ds.edges);
    ContactsCovered(ds.edges, elems, touches, pours, raw, index);
    ghost var edges := ds.edges;
    var numbers, count := NumberIslands(ds, |elems|);
    islandOf := numbers;
    IslandsByContact(edges, elems, touches, pours, numbers);
    var hasPad := MarkAnchors(elems, numbers, count);
    var required, padless := CountIslands(hasPad);
    CountIsSize(hasPad);
    assert AnchoredIslands(elems, islandOf, count) == TrueAt(hasPad);
    var copper := CollectCopper(elems, numbers, raw, index, hasPad);
    CopperComplete(edges, elems, islandOf, raw, index, hasPad, copper);
    var start := ChooseStart(copper, hasPad);
    net := NetIslands(copper, count, required, padless, start);
  }

  lemma EdgesOnlyGrow(elems: seq<Elem>, touches: (nat, nat) -> bool, pours: seq<seq<nat>>,
                      touched: seq<(nat, nat)>, poured: seq<(nat, nat)>, edges: seq<(nat, nat)>)
    requires TouchesLinked(touched, |elems|, touches, |elems|, 0) && PoursLinked(poured, pours, |pours|)
    requires forall x: nat, y: nat :: Linked(touched, x, y) ==> Linked(poured, x, y)
    requires forall x: nat, y: nat :: Linked(poured, x, y) ==> Linked(edges, x, y)
    ensures TouchesLinked(edges, |elems|, touches, |elems|, 0) && PoursLinked(edges, pours, |pours|)
  {
    hide Linked;
  }

  lemma IslandsByContact(edges: seq<(nat, nat)>, elems: seq<Elem>, touches: (nat, nat) -> bool, pours: seq<seq<nat>>,
                         islandOf: seq<nat>)
    requires Covers(edges, Contact(elems, touches, pours)) && |islandOf| == |elems|
    requires forall i: nat, j: nat :: i < |elems| && j < |elems| ==>
               (islandOf[i] == islandOf[j] <==> Linked(edges, i, j))
    ensures IslandsAre(elems, touches, pours, islandOf)
  {
    hide Linked, Connected, Covers, Contact;
    forall i: nat, j: nat | i < |elems| && j < |elems|
      ensures islandOf[i] == islandOf[j] <==> Connected(Contact(elems, touches, pours), i, j)
    {
      LinkedIffConnected(edges, Contact(elems, touches, pours), i, j);
    }
  }

  lemma PointIsExact(edges: seq<(nat, nat)>, elems: seq<Elem>, raw: seq<RawCell>, index: map<Cell, nat>, i: nat)
    requires RawOk(elems, raw, index) && CellsLinked(edges, elems, raw, index, |elems|, 0) && i < |raw|
    ensures HasPoint(elems, raw[i].cell, raw[i].ex, raw[i].ey, raw[i].interior)
    ensures raw[i].interior ==> InteriorOnly(elems, raw[i].cell)
  {
    hide Linked, Occupies, HasPoint;
  }

  lemma CopperComplete(edges: seq<(nat, nat)>, elems: seq<Elem>, islandOf: seq<nat>, raw: seq<RawCell>,
                       index: map<Cell, nat>, hasPad: seq<bool>, copper: seq<CopperCell>)
    requires |islandOf| == |elems| && RawOk(elems, raw, index) && CellsLinked(edges, elems, raw, index, |elems|, 0)
    requires forall i: nat, j: nat :: i < |elems| && j < |elems| ==>
               (islandOf[i] == islandOf[j] <==> Linked(edges, i, j))
    requires forall e :: 0 <= e < |elems| ==> islandOf[e] < |hasPad|
    requires forall isl :: 0 <= isl < |hasPad| ==> (hasPad[isl] <==> HasAnchor(elems, islandOf, isl))
    requires forall i, j :: 0 <= i < j < |copper| ==> copper[i].cell != copper[j].cell
    requires forall i :: 0 <= i < |copper| ==>
               HasAnchor(elems, islandOf, copper[i].island) && OnIsland(elems, islandOf, copper[i])
    requires forall i :: 0 <= i < |raw| && hasPad[islandOf[raw[i].elem]] ==>
               Listed(copper, raw[i].cell, islandOf[raw[i].elem])
    requires forall j :: 0 <= j < |copper| ==> FromRaw(raw, copper[j])
    ensures CopperIs(elems, islandOf, copper)
  {
    hide Linked, HasAnchor, OnIsland, Listed, Occupies, HasPoint;
    forall j | 0 <= j < |copper|
      ensures ExactPoint(elems, copper[j])
    {
      assert FromRaw(raw, copper[j]);
      var i :| 0 <= i < |raw| && SamePoint(raw[i], copper[j]);
      PointIsExact(edges, elems, raw, index, i);
    }
    hide ExactPoint, FromRaw;
    forall e: nat, k: nat | e < |elems| && k < |elems[e].raster| && HasAnchor(elems, islandOf, islandOf[e])
      ensures Listed(copper, elems[e].raster[k].cell, islandOf[e])
    {
      var c := elems[e].raster[k].cell;
      assert Linked(edges, raw[index[c]].elem, e);
      assert raw[index[c]].cell == c && islandOf[raw[index[c]].elem] == islandOf[e];
    }
  }

  /** While fewer islands are joined than required, some anchored island still offers goal cells, provided every
      element occupies a cell: the router never runs out of goals early. */
  lemma GoalsRemain(elems: seq<Elem>, islandOf: seq<nat>, count: nat, copper: seq<CopperCell>, joined: set<int>)
    requires |islandOf| == |elems| && CopperIs(elems, islandOf, copper)
    requires forall e :: 0 <= e < |elems| ==> elems[e].raster != []
    requires |joined| < |AnchoredIslands(elems, islandOf, count)|
    ensures GoalCells(copper, joined) != {}
  {
    var all := AnchoredIslands(elems, islandOf, count);
    assert exists isl :: isl in all && isl !in joined by {
      if all <= joined {
        SubsetSize(all, joined);
      }
    }
    var isl :| isl in all && isl !in joined;
    var e :| 0 <= e < |elems| && islandOf[e] == isl && Anchored(elems[e]);
    assert Listed(copper, elems[e].raster[0].cell, islandOf[e]);
    var i :| 0 <= i < |copper| && copper[i].cell == elems[e].raster[0].cell && copper[i].island == isl;
    assert copper[i].cell in GoalCells(copper, joined);
  }
}

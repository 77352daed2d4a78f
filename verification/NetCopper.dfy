/** The copper a net's bridges place on the grid, and the halos it casts. */
module NetCopper {
  import opened Grid
  import opened BridgeSearch
  import opened Discs

  /** One cell of a bridge; `via` when the bridge changed layer to reach it. */
  datatype Site = Site(cell: Cell, via: bool)

  /** The radii of the discs a net stamps around its sites, in millimetres. */
  datatype Radii = Radii(track: real, trackVia: real, viaLayer: real, viaVia: real)

  function SiteAt(cells: seq<Cell>, k: nat): Site
    requires k < |cells|
  {
    Site(cells[k], k > 0 && cells[k].l != cells[k - 1].l && cells[k].x == cells[k - 1].x &&
         cells[k].y == cells[k - 1].y)
  }

  function SitesOf(cells: seq<Cell>): (sites: seq<Site>)
    ensures |sites| == |cells|
  {
    seq(|cells|, k requires 0 <= k < |cells| => SiteAt(cells, k))
  }

  function AllSites(bridges: seq<Bridge>): seq<Site> {
    if bridges == [] then [] else AllSites(bridges[..|bridges| - 1]) + SitesOf(bridges[|bridges| - 1].cells)
  }

  lemma {:induction false} SiteOfBridge(bridges: seq<Bridge>, b: nat, k: nat)
    requires b < |bridges| && k < |bridges[b].cells|
    ensures SiteAt(bridges[b].cells, k) in AllSites(bridges)
  {
    var n := |bridges| - 1;
    if b == n {
      assert SitesOf(bridges[n].cells)[k] == SiteAt(bridges[b].cells, k);
    } else {
      SiteOfBridge(bridges[..n], b, k);
    }
  }

  // ---- Which slots a site covers -----------------------------------------------------------

  predicate Near(g: real, r: real, c: Cell, x: int, y: int) {
    InDisc(g, r, x - c.x, y - c.y)
  }

  /** A track halo stays on its layer; a via's layer halo reaches every layer. */
  predicate HaloCovers(g: real, radii: Radii, s: Site, d: Cell) {
    || (d.l == s.cell.l && Near(g, radii.track, s.cell, d.x, d.y))
    || (s.via && Near(g, radii.viaLayer, s.cell, d.x, d.y))
  }

  predicate ViaHaloCovers(g: real, radii: Radii, s: Site, x: int, y: int) {
    Near(g, radii.trackVia, s.cell, x, y) || (s.via && Near(g, radii.viaVia, s.cell, x, y))
  }

  predicate NewViaCovers(g: real, radii: Radii, s: Site, x: int, y: int) {
    s.via && Near(g, radii.viaVia, s.cell, x, y)
  }

  ghost predicate HaloRecord(size: Size, g: real, radii: Radii, sites: seq<Site>, record: seq<int>) {
    forall d {:trigger NodeIdx(size, d)} :: Inside(size, d) ==>
      (NodeIdx(size, d) in record <==> exists i :: 0 <= i < |sites| && HaloCovers(g, radii, sites[i], d))
  }

  predicate OnPlane(size: Size, x: int, y: int) {
    0 <= x < size.w && 0 <= y < size.h
  }

  ghost predicate ViaHaloRecord(size: Size, g: real, radii: Radii, sites: seq<Site>, record: seq<int>) {
    forall x, y {:trigger PlaneIdx(size, x, y)} :: OnPlane(size, x, y) ==>
      (PlaneIdx(size, x, y) in record <==> exists i :: 0 <= i < |sites| && ViaHaloCovers(g, radii, sites[i], x, y))
  }

  ghost predicate NewViaRecord(size: Size, g: real, radii: Radii, sites: seq<Site>, record: seq<int>) {
    forall x, y {:trigger PlaneIdx(size, x, y)} :: OnPlane(size, x, y) ==>
      (PlaneIdx(size, x, y) in record <==> exists i :: 0 <= i < |sites| && NewViaCovers(g, radii, sites[i], x, y))
  }

  /** The centre cells and via sites, as flat indices. */
  ghost predicate CenterRecord(size: Size, sites: seq<Site>, record: seq<int>) {
    forall id :: id in record <==> exists i :: 0 <= i < |sites| && id == NodeIdx(size, sites[i].cell)
  }

  ghost predicate ViaSiteRecord(size: Size, sites: seq<Site>, record: seq<int>) {
    forall id :: id in record <==>
      exists i :: 0 <= i < |sites| && sites[i].via && id == PlaneIdx(size, sites[i].cell.x, sites[i].cell.y)
  }

  ghost predicate SitesInside(size: Size, sites: seq<Site>) {
    forall i :: 0 <= i < |sites| ==> Inside(size, sites[i].cell)
  }

  /** The five lists a commit writes. */
  datatype Lists = Lists(halo: seq<int>, viaHalo: seq<int>, newVia: seq<int>, centers: seq<int>, viaSites: seq<int>)

  ghost predicate Recorded(size: Size, g: real, radii: Radii, sites: seq<Site>, lists: Lists) {
    && HaloRecord(size, g, radii, sites, lists.halo)
    && ViaHaloRecord(size, g, radii, sites, lists.viaHalo)
    && NewViaRecord(size, g, radii, sites, lists.newVia)
    && CenterRecord(size, sites, lists.centers)
    && ViaSiteRecord(size, sites, lists.viaSites)
  }

  /** The offsets of the four discs. */
  datatype DiscSet = DiscSet(track: seq<(int, int)>, trackVia: seq<(int, int)>, viaLayer: seq<(int, int)>,
                             viaVia: seq<(int, int)>)
  {
    ghost predicate Matches(g: real, radii: Radii) {
      && (forall ox, oy :: (ox, oy) in track <==> InDisc(g, radii.track, ox, oy))
      && (forall ox, oy :: (ox, oy) in trackVia <==> InDisc(g, radii.trackVia, ox, oy))
      && (forall ox, oy :: (ox, oy) in viaLayer <==> InDisc(g, radii.viaLayer, ox, oy))
      && (forall ox, oy :: (ox, oy) in viaVia <==> InDisc(g, radii.viaVia, ox, oy))
    }
  }

  lemma PlaneFacts(size: Size)
    ensures forall x, y {:trigger PlaneIdx(size, x, y)} :: OnPlane(size, x, y) ==>
              0 <= PlaneIdx(size, x, y) < PlaneCells(size)
    ensures forall x, y, x', y' {:trigger PlaneIdx(size, x, y), PlaneIdx(size, x', y')} ::
              OnPlane(size, x, y) && OnPlane(size, x', y') && PlaneIdx(size, x, y) == PlaneIdx(size, x', y') ==>
                x == x' && y == y'
  {
    hide PlaneIdx, PlaneCells;
    forall x, y | OnPlane(size, x, y)
      ensures 0 <= PlaneIdx(size, x, y) < PlaneCells(size)
      ensures PlaneIdx(size, x, y) % size.w == x && PlaneIdx(size, x, y) / size.w == y
    {
      PlaneIdxDecodes(size, x, y);
    }
  }

  // ---- Writing one more site ---------------------------------------------------------------

  lemma HaloRecordStep(size: Size, g: real, radii: Radii, sites: seq<Site>, s: Site, before: seq<int>, after: seq<int>)
    requires HaloRecord(size, g, radii, sites, before)
    requires forall d {:trigger NodeIdx(size, d)} :: Inside(size, d) ==>
               (NodeIdx(size, d) in after <==> NodeIdx(size, d) in before || HaloCovers(g, radii, s, d))
    ensures HaloRecord(size, g, radii, sites + [s], after)
  {
    hide HaloCovers, NodeIdx, Inside;
    var sites' := sites + [s];
    forall d | Inside(size, d)
      ensures NodeIdx(size, d) in after <==> exists i :: 0 <= i < |sites'| && HaloCovers(g, radii, sites'[i], d)
    {
      if i :| 0 <= i < |sites| && HaloCovers(g, radii, sites[i], d) {
        assert HaloCovers(g, radii, sites'[i], d);
      }
      if HaloCovers(g, radii, s, d) {
        assert HaloCovers(g, radii, sites'[|sites|], d);
      }
    }
  }

  lemma ViaHaloRecordStep(size: Size, g: real, radii: Radii, sites: seq<Site>, s: Site, before: seq<int>,
                          after: seq<int>)
    requires ViaHaloRecord(size, g, radii, sites, before)
    requires forall x, y {:trigger PlaneIdx(size, x, y)} :: OnPlane(size, x, y) ==>
               (PlaneIdx(size, x, y) in after <==> PlaneIdx(size, x, y) in before || ViaHaloCovers(g, radii, s, x, y))
    ensures ViaHaloRecord(size, g, radii, sites + [s], after)
  {
    hide ViaHaloCovers, PlaneIdx, OnPlane;
    var sites' := sites + [s];
    forall x, y | OnPlane(size, x, y)
      ensures PlaneIdx(size, x, y) in after <==>
                exists i :: 0 <= i < |sites'| && ViaHaloCovers(g, radii, sites'[i], x, y)
    {
      if i :| 0 <= i < |sites| && ViaHaloCovers(g, radii, sites[i], x, y) {
        assert ViaHaloCovers(g, radii, sites'[i], x, y);
      }
      if ViaHaloCovers(g, radii, s, x, y) {
        assert ViaHaloCovers(g, radii, sites'[|sites|], x, y);
      }
    }
  }

  lemma NewViaRecordStep(size: Size, g: real, radii: Radii, sites: seq<Site>, s: Site, before: seq<int>,
                         after: seq<int>)
    requires NewViaRecord(size, g, radii, sites, before)
    requires forall x, y {:trigger PlaneIdx(size, x, y)} :: OnPlane(size, x, y) ==>
               (PlaneIdx(size, x, y) in after <==> PlaneIdx(size, x, y) in before || NewViaCovers(g, radii, s, x, y))
    ensures NewViaRecord(size, g, radii, sites + [s], after)
  {
    hide NewViaCovers, PlaneIdx, OnPlane;
    var sites' := sites + [s];
    forall x, y | OnPlane(size, x, y)
      ensures PlaneIdx(size, x, y) in after <==>
                exists i :: 0 <= i < |sites'| && NewViaCovers(g, radii, sites'[i], x, y)
    {
      if i :| 0 <= i < |sites| && NewViaCovers(g, radii, sites[i], x, y) {
        assert NewViaCovers(g, radii, sites'[i], x, y);
      }
      if NewViaCovers(g, radii, s, x, y) {
        assert NewViaCovers(g, radii, sites'[|sites|], x, y);
      }
    }
  }

  lemma CenterRecordStep(size: Size, sites: seq<Site>, s: Site, record: seq<int>)
    requires CenterRecord(size, sites, record)
    ensures CenterRecord(size, sites + [s], record + [NodeIdx(size, s.cell)])
  {
    hide NodeIdx;
    var sites' := sites + [s];
    forall id
      ensures id in record + [NodeIdx(size, s.cell)] <==>
              exists i :: 0 <= i < |sites'| && id == NodeIdx(size, sites'[i].cell)
    {
      if i :| 0 <= i < |sites| && id == NodeIdx(size, sites[i].cell) {
        assert id == NodeIdx(size, sites'[i].cell);
      }
      if id == NodeIdx(size, s.cell) {
        assert id == NodeIdx(size, sites'[|sites|].cell);
      }
    }
  }

  lemma ViaSiteRecordStep(size: Size, sites: seq<Site>, s: Site, record: seq<int>)
    requires ViaSiteRecord(size, sites, record)
    ensures ViaSiteRecord(size, sites + [s], if s.via then record + [PlaneIdx(size, s.cell.x, s.cell.y)] else record)
  {
    hide PlaneIdx;
    var sites' := sites + [s];
    var record' := if s.via then record + [PlaneIdx(size, s.cell.x, s.cell.y)] else record;
    forall id
      ensures id in record' <==>
              exists i :: 0 <= i < |sites'| && sites'[i].via && id == PlaneIdx(size, sites'[i].cell.x, sites'[i].cell.y)
    {
      if i :| 0 <= i < |sites| && sites[i].via && id == PlaneIdx(size, sites[i].cell.x, sites[i].cell.y) {
        assert sites'[i].via && id == PlaneIdx(size, sites'[i].cell.x, sites'[i].cell.y);
      }
      if s.via && id == PlaneIdx(size, s.cell.x, s.cell.y) {
        assert sites'[|sites|].via && id == PlaneIdx(size, sites'[|sites|].cell.x, sites'[|sites|].cell.y);
      }
    }
  }

  // ---- Sorted lists without repeats --------------------------------------------------------

  predicate Ascending(s: seq<int>) {
    forall i, j :: 0 <= i < j < |s| ==> s[i] < s[j]
  }

  /** Inserts in order unless already present. */
  function Inserted(s: seq<int>, id: int): (r: seq<int>)
    requires Ascending(s)
    ensures Ascending(r) && forall x :: x in r <==> x in s || x == id
  {
    if s == [] then [id]
    else if id < s[0] then [id] + s
    else if id == s[0] then s
    else
      var rest := Inserted(s[1..], id);
      assert s == [s[0]] + s[1..];
      assert forall x :: x in s[1..] ==> s[0] < x;
      assert forall k :: 0 <= k < |rest| ==> rest[k] in rest;
      [s[0]] + rest
  }

  /** `std::sort` followed by `std::unique`: the ascending list of the distinct elements. */
  method SortUnique(s: seq<int>) returns (r: seq<int>)
    ensures Ascending(r) && forall x :: x in r <==> x in s
  {
    r := [];
    for i := 0 to |s|
      invariant Ascending(r) && forall x :: x in r <==> x in s[..i]
    {
      r := Inserted(r, s[i]);
      assert s[..i + 1] == s[..i] + [s[i]];
    }
    assert s[..|s|] == s;
  }
}

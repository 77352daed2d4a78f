/** The per-net verdict of the PCB connectivity audit: islands of pads, and the airwire between the closest two. */
module ConnectivityAudit {
  import opened Closure
  import opened DisjointSets

  datatype Pad = Pad(x: real, y: real)

  datatype Verdict =
    | FullyRouted
    | Unrouted(islands: nat, fromPad: nat, toPad: nat)

  datatype Airwire = Unset | Wire(dist2: real, a: nat, b: nat)

  /** Nodes are numbered pads first, then tracks, vias and pours. `touch` is the geometric test of a pair. */
  function Contact(nodes: nat, touch: (nat, nat) -> bool): (nat, nat) -> bool {
    (i: nat, j: nat) => i < j < nodes && touch(i, j)
  }

  ghost predicate Joined(nodes: nat, touch: (nat, nat) -> bool, i: nat, j: nat) {
    Connected(Contact(nodes, touch), i, j)
  }

  /** One pad for each island: no two of them joined, every pad joined to one of them. */
  ghost predicate Transversal(nodes: nat, touch: (nat, nat) -> bool, pads: nat, s: set<nat>) {
    && (forall i :: i in s ==> i < pads)
    && (forall i, j :: i in s && j in s && i != j ==> !Joined(nodes, touch, i, j))
    && (forall i: nat :: i < pads ==> JoinedToOne(nodes, touch, i, s))
  }

  ghost predicate JoinedToOne(nodes: nat, touch: (nat, nat) -> bool, i: nat, s: set<nat>) {
    exists j :: j in s && Joined(nodes, touch, i, j)
  }

  function Dist2(pads: seq<Pad>, i: nat, j: nat): real
    requires i < |pads| && j < |pads|
  {
    (pads[i].x - pads[j].x) * (pads[i].x - pads[j].x) + (pads[i].y - pads[j].y) * (pads[i].y - pads[j].y)
  }

  /** Unites every touching pair. The partition is the closure of the contacts, whatever the order of the unions. */
  method UniteContacts(nodes: nat, touch: (nat, nat) -> bool) returns (ds: DisjointSet)
    ensures fresh(ds) && fresh(ds.parent) && ds.Valid() && ds.parent.Length == nodes
    ensures Covers(ds.edges, Contact(nodes, touch))
  {
    ds := new DisjointSet(nodes);
    for i := 0 to nodes
      invariant fresh(ds) && fresh(ds.parent) && ds.Valid() && ds.parent.Length == nodes
      invariant forall e :: e in ds.edges <==> e.0 < i && Contact(nodes, touch)(e.0, e.1)
    {
      for j := i + 1 to nodes
        invariant fresh(ds) && fresh(ds.parent) && ds.Valid() && ds.parent.Length == nodes
        invariant forall e :: e in ds.edges <==>
                                (e.0 < i || (e.0 == i && e.1 < j)) && Contact(nodes, touch)(e.0, e.1)
      {
        if touch(i, j) {
          ds.Unite(i, j);
        }
      }
    }
    forall x: nat, y: nat | Contact(nodes, touch)(x, y)
      ensures Linked(ds.edges, x, y)
    {
      assert (x, y) in ds.edges;
      LinkedEdge(ds.edges, x, y);
    }
  }

  /** The pads of the island with root `r`, in pad order. */
  function Members(root: seq<nat>, r: nat): seq<nat> {
    if root == [] then []
    else
      var n := |root| - 1;
      Members(root[..n], r) + (if root[n] == r then [n] else [])
  }

  lemma {:induction false} MembersOfIsland(root: seq<nat>, r: nat)
    ensures forall k :: 0 <= k < |Members(root, r)| ==> Members(root, r)[k] < |root| && root[Members(root, r)[k]] == r
    ensures forall p :: 0 <= p < |root| && root[p] == r ==> p in Members(root, r)
  {
    if root != [] {
      MembersOfIsland(root[..|root| - 1], r);
    }
  }

  lemma NewIslandIsEmpty(root: seq<nat>, r: nat)
    ensures Members(root, r) != [] ==> r in root
  {
    MembersOfIsland(root, r);
    if Members(root, r) != [] {
      assert root[Members(root, r)[0]] == r;
    }
  }

  ghost function Roots(root: seq<nat>): (s: set<nat>)
    ensures forall r :: r in s <==> r in root
  {
    if root == [] then {} else
      assert root == root[..|root| - 1] + [root[|root| - 1]];
      Roots(root[..|root| - 1]) + {root[|root| - 1]}
  }

  /** The first pad of every island: as many as there are distinct roots, and no two with the same root. */
  ghost function Firsts(root: seq<nat>): (s: set<nat>)
    ensures forall p :: p in s ==> p < |root|
  {
    if root == [] then {}
    else
      var n := |root| - 1;
      Firsts(root[..n]) + (if root[n] in Roots(root[..n]) then {} else {n})
  }

  lemma {:induction false} AsManyFirstsAsRoots(root: seq<nat>)
    ensures |Firsts(root)| == |Roots(root)|
  {
    if root != [] {
      AsManyFirstsAsRoots(root[..|root| - 1]);
    }
  }

  ghost predicate HasFirst(firsts: set<nat>, root: seq<nat>, r: nat) {
    exists p :: p in firsts && p < |root| && root[p] == r
  }

  lemma {:induction false} FirstsDiffer(root: seq<nat>, p: nat, q: nat)
    requires p in Firsts(root) && q in Firsts(root) && p < q
    ensures root[p] != root[q]
  {
    var n := |root| - 1;
    var rest := root[..n];
    FirstsStep(root);
    hide Firsts, Roots;
    if q < n {
      FirstsDiffer(rest, p, q);
    } else {
      assert rest[p] in rest;
    }
  }

  lemma {:induction false} FirstsReachAll(root: seq<nat>, r: nat)
    requires r in root
    ensures HasFirst(Firsts(root), root, r)
  {
    var n := |root| - 1;
    var rest := root[..n];
    FirstsStep(root);
    hide Firsts, Roots;
    if r in rest {
      FirstsReachAll(rest, r);
      var p :| p in Firsts(rest) && p < |rest| && rest[p] == r;
      assert p in Firsts(root) && root[p] == r;
    } else {
      assert root == rest + [root[n]];
      assert n in Firsts(root) && root[n] == r;
    }
  }

  lemma FirstsPickOnePerIsland(root: seq<nat>)
    ensures forall p, q :: p in Firsts(root) && q in Firsts(root) && p != q ==> root[p] != root[q]
    ensures forall i :: 0 <= i < |root| ==> HasFirst(Firsts(root), root, root[i])
  {
    hide Firsts;
    forall p, q | p in Firsts(root) && q in Firsts(root) && p != q
      ensures root[p] != root[q]
    {
      FirstsDiffer(root, if p < q then p else q, if p < q then q else p);
    }
    forall i | 0 <= i < |root|
      ensures HasFirst(Firsts(root), root, root[i])
    {
      FirstsReachAll(root, root[i]);
    }
  }

  lemma FirstsStep(root: seq<nat>)
    requires root != []
    ensures var rest := root[..|root| - 1];
            Firsts(root) == Firsts(rest) + (if root[|root| - 1] in Roots(rest) then {} else {|root| - 1})
  {
  }

  ghost predicate IslandMap(islands: map<nat, seq<nat>>, root: seq<nat>) {
    islands.Keys == Roots(root) && forall r :: r in islands ==> islands[r] == Members(root, r)
  }

  lemma NoIslands()
    ensures IslandMap(map[], [])
  {
  }

  lemma MembersSnoc(root: seq<nat>, r: nat)
    ensures forall q :: Members(root + [r], q) == Members(root, q) + (if q == r then [|root|] else [])
  {
    assert (root + [r])[..|root|] == root;
  }

  lemma AddPadToIslands(islands: map<nat, seq<nat>>, root: seq<nat>, r: nat)
    requires IslandMap(islands, root)
    ensures IslandMap(islands[r := if r in islands then islands[r] + [|root|] else [|root|]], root + [r])
  {
    hide Roots, Members;
    if r !in islands {
      NewIslandIsEmpty(root, r);
    }
    MembersSnoc(root, r);
  }

  method GroupPads(ds: DisjointSet, pads: nat) returns (islands: map<nat, seq<nat>>, ghost root: seq<nat>)
    requires ds.Valid() && pads <= ds.parent.Length
    modifies ds.parent
    ensures ds.Valid() && |root| == pads
    ensures forall p :: 0 <= p < pads ==> p in ds.rep && root[p] == ds.rep[p] && root[p] < ds.parent.Length
    ensures IslandMap(islands, root)
  {
    hide Forest, Represents, Roots, IslandMap;
    islands, root := map[], [];
    NoIslands();
    for i := 0 to pads
      invariant ds.Valid() && |root| == i
      invariant forall p :: 0 <= p < i ==> p in ds.rep && root[p] == ds.rep[p] && root[p] < ds.parent.Length
      invariant IslandMap(islands, root)
    {
      var r := ds.FindCompress(i);
      AddPadToIslands(islands, root, r);
      root := root + [r];
      islands := islands[r := if r in islands then islands[r] + [i] else [i]];
    }
  }

  method Distance2(pads: seq<Pad>, i: nat, j: nat) returns (d: real)
    requires i < |pads| && j < |pads|
    ensures d == Dist2(pads, i, j)
  {
    var dx, dy := pads[i].x - pads[j].x, pads[i].y - pads[j].y;
    d := dx * dx + dy * dy;
  }

  /** The closest pair between two islands replaces the airwire only when it is strictly shorter. */
  method CloserPair(pads: seq<Pad>, xs: seq<nat>, ys: seq<nat>, best: Airwire) returns (r: Airwire)
    requires forall k :: 0 <= k < |xs| ==> xs[k] < |pads|
    requires forall k :: 0 <= k < |ys| ==> ys[k] < |pads|
    requires xs != [] && ys != []
    ensures r.Wire?
    ensures r == best || (r.a in xs && r.b in ys && r.dist2 == Dist2(pads, r.a, r.b))
    ensures best.Wire? ==> r.dist2 <= best.dist2
    ensures forall k, m :: 0 <= k < |xs| && 0 <= m < |ys| ==> r.dist2 <= Dist2(pads, xs[k], ys[m])
  {
    hide Dist2;
    r := best;
    for i := 0 to |xs|
      invariant i > 0 ==> r.Wire?
      invariant r == best || (r.Wire? && r.a in xs && r.b in ys && r.dist2 == Dist2(pads, r.a, r.b))
      invariant best.Wire? ==> r.Wire? && r.dist2 <= best.dist2
      invariant forall k, m :: 0 <= k < i && 0 <= m < |ys| ==> r.Wire? && r.dist2 <= Dist2(pads, xs[k], ys[m])
    {
      for j := 0 to |ys|
        invariant i > 0 || j > 0 ==> r.Wire?
        invariant r == best || (r.Wire? && r.a in xs && r.b in ys && r.dist2 == Dist2(pads, r.a, r.b))
        invariant best.Wire? ==> r.Wire? && r.dist2 <= best.dist2
        invariant forall k, m :: 0 <= k < i && 0 <= m < |ys| ==> r.Wire? && r.dist2 <= Dist2(pads, xs[k], ys[m])
        invariant forall k :: 0 <= k < j ==> r.Wire? && r.dist2 <= Dist2(pads, xs[i], ys[k])
      {
        var d := Distance2(pads, xs[i], ys[j]);
        if r.Unset? || d < r.dist2 {
          r := Wire(d, xs[i], ys[j]);
        }
      }
    }
  }

  /** The airwire so far is a pair of pads of different islands. */
  ghost predicate Crosses(pads: seq<Pad>, root: seq<nat>, w: Airwire)
    requires |root| == |pads|
  {
    w.Wire? ==> w.a < |pads| && w.b < |pads| && root[w.a] != root[w.b] && w.dist2 == Dist2(pads, w.a, w.b)
  }

  ghost predicate NoLonger(pads: seq<Pad>, w: Airwire, p: nat, q: nat)
    requires p < |pads| && q < |pads|
  {
    w.Wire? && w.dist2 <= Dist2(pads, p, q)
  }

  /** Scans the islands in increasing root order, each pair once. */
  method ClosestAcross(pads: seq<Pad>, nodes: nat, islands: map<nat, seq<nat>>, ghost root: seq<nat>)
    returns (w: Airwire)
    requires |root| == |pads| && forall p :: 0 <= p < |pads| ==> root[p] < nodes
    requires IslandMap(islands, root)
    ensures Crosses(pads, root, w)
    ensures forall p, q :: 0 <= p < |pads| && 0 <= q < |pads| && root[p] < root[q] ==> NoLonger(pads, w, p, q)
  {
    assert Crosses(pads, root, Unset);
    hide Dist2, Members, Crosses, NoLonger;
    w := Unset;
    for x := 0 to nodes
      invariant Crosses(pads, root, w)
      invariant forall p, q :: 0 <= p < |pads| && 0 <= q < |pads| && root[p] < root[q] && root[p] < x ==>
                                 NoLonger(pads, w, p, q)
    {
      if x in islands {
        w := ClosestFrom(pads, nodes, islands, root, x, w);
      }
    }
  }

  /** From one island to all later ones. */
  method ClosestFrom(pads: seq<Pad>, nodes: nat, islands: map<nat, seq<nat>>, ghost root: seq<nat>, x: nat,
                     best: Airwire) returns (w: Airwire)
    requires |root| == |pads| && forall p :: 0 <= p < |pads| ==> root[p] < nodes
    requires IslandMap(islands, root) && x in islands && x < nodes && Crosses(pads, root, best)
    ensures Crosses(pads, root, w)
    ensures forall p, q :: 0 <= p < |pads| && 0 <= q < |pads| && root[p] == x && x < root[q] ==> NoLonger(pads, w, p, q)
    ensures forall p, q :: 0 <= p < |pads| && 0 <= q < |pads| && NoLonger(pads, best, p, q) ==> NoLonger(pads, w, p, q)
  {
    hide Dist2, Members, Crosses, NoLonger;
    w := best;
    for y := x + 1 to nodes
      invariant Crosses(pads, root, w)
      invariant forall p, q :: 0 <= p < |pads| && 0 <= q < |pads| && NoLonger(pads, best, p, q) ==>
                                 NoLonger(pads, w, p, q)
      invariant forall p, q :: 0 <= p < |pads| && 0 <= q < |pads| && root[p] == x && x < root[q] < y ==>
                                 NoLonger(pads, w, p, q)
    {
      if y in islands {
        w := CloserAcross(pads, root, x, y, islands[x], islands[y], w);
      }
    }
  }

  /** One pair of islands: afterwards no pair of pads across it is closer than the airwire. */
  method CloserAcross(pads: seq<Pad>, ghost root: seq<nat>, ghost x: nat, ghost y: nat,
                      xs: seq<nat>, ys: seq<nat>, best: Airwire)
    returns (w: Airwire)
    requires |root| == |pads| && x in root && y in root && x != y
    requires xs == Members(root, x) && ys == Members(root, y) && Crosses(pads, root, best)
    ensures Crosses(pads, root, w)
    ensures forall p, q :: 0 <= p < |pads| && 0 <= q < |pads| && root[p] == x && root[q] == y ==>
              NoLonger(pads, w, p, q)
    ensures forall p, q :: 0 <= p < |pads| && 0 <= q < |pads| && NoLonger(pads, best, p, q) ==> NoLonger(pads, w, p, q)
  {
    hide Dist2;
    MembersOfIsland(root, x);
    MembersOfIsland(root, y);
    hide Members;
    w := CloserPair(pads, xs, ys, best);
    forall p, q | 0 <= p < |pads| && 0 <= q < |pads| && root[p] == x && root[q] == y
      ensures NoLonger(pads, w, p, q)
    {
      var k :| 0 <= k < |xs| && xs[k] == p;
      var m :| 0 <= m < |ys| && ys[m] == q;
      assert w.dist2 <= Dist2(pads, xs[k], ys[m]);
    }
  }

  lemma TwoMembers<T>(s: set<T>) returns (a: T, b: T)
    requires |s| > 1
    ensures a in s && b in s && a != b
  {
    a :| a in s;
    assert |s - {a}| > 0;
    b :| b in s - {a};
  }

  lemma OnlyMember<T>(s: set<T>, a: T, b: T)
    requires |s| == 1 && a in s && b in s
    ensures a == b
  {
    assert |s - {a}| == 0;
    assert b !in s - {a};
  }

  /** The first pads of the islands form a transversal, so their number is the number of islands. */
  lemma FirstsAreTransversal(nodes: nat, touch: (nat, nat) -> bool, root: seq<nat>)
    requires forall i: nat, j: nat :: i < |root| && j < |root| ==> (root[i] == root[j] <==> Joined(nodes, touch, i, j))
    ensures Transversal(nodes, touch, |root|, Firsts(root)) && |Firsts(root)| == |Roots(root)|
  {
    FirstsPickOnePerIsland(root);
    AsManyFirstsAsRoots(root);
    forall i: nat | i < |root|
      ensures JoinedToOne(nodes, touch, i, Firsts(root))
    {
      var p :| p in Firsts(root) && root[p] == root[i];
      assert Joined(nodes, touch, i, p);
    }
  }

  lemma ClosestIsAirwire(pads: seq<Pad>, root: seq<nat>, w: Airwire, i: nat, j: nat)
    requires |root| == |pads| && i < |pads| && j < |pads| && root[i] != root[j]
    requires forall p, q :: 0 <= p < |pads| && 0 <= q < |pads| && root[p] < root[q] ==> NoLonger(pads, w, p, q)
    ensures NoLonger(pads, w, i, j)
  {
    assert Dist2(pads, i, j) == Dist2(pads, j, i);
    assert NoLonger(pads, w, if root[i] < root[j] then i else j, if root[i] < root[j] then j else i);
  }

  /** The islands of a net: two pads share a root exactly when contacts join them. */
  method PadIslands(pads: nat, nodes: nat, touch: (nat, nat) -> bool)
    returns (islands: map<nat, seq<nat>>, ghost root: seq<nat>)
    requires pads <= nodes
    ensures |root| == pads && IslandMap(islands, root) && forall p :: 0 <= p < pads ==> root[p] < nodes
    ensures forall i: nat, j: nat :: i < pads && j < pads ==> (root[i] == root[j] <==> Joined(nodes, touch, i, j))
  {
    hide Forest;
    var ds := UniteContacts(nodes, touch);
    islands, root := GroupPads(ds, pads);
    forall i: nat, j: nat | i < pads && j < pads
      ensures root[i] == root[j] <==> Joined(nodes, touch, i, j)
    {
      LinkedIffConnected(ds.edges, Contact(nodes, touch), i, j);
    }
  }

  /** A net is fully routed exactly when all its pads are mutually joined; otherwise the airwire is a
      closest pair of pads from different islands, and the island count is the number of pad classes. */
  method AuditNet(pads: seq<Pad>, nodes: nat, touch: (nat, nat) -> bool) returns (v: Verdict)
    requires 2 <= |pads| <= nodes
    ensures v.FullyRouted? <==> forall i: nat, j: nat :: i < |pads| && j < |pads| ==> Joined(nodes, touch, i, j)
    ensures v.Unrouted? ==>
              && v.fromPad < |pads| && v.toPad < |pads| && !Joined(nodes, touch, v.fromPad, v.toPad)
              && (forall i: nat, j: nat :: i < |pads| && j < |pads| && !Joined(nodes, touch, i, j) ==>
                                             Dist2(pads, v.fromPad, v.toPad) <= Dist2(pads, i, j))
              && exists s :: Transversal(nodes, touch, |pads|, s) && |s| == v.islands
  {
    hide Dist2, Firsts, Roots, Joined;
    var islands, root := PadIslands(|pads|, nodes, touch);
    FirstsAreTransversal(nodes, touch, root);
    if |islands| == 1 {
      v := FullyRouted;
      forall i: nat, j: nat | i < |pads| && j < |pads|
        ensures Joined(nodes, touch, i, j)
      {
        OnlyMember(islands.Keys, root[i], root[j]);
      }
    } else {
      var w := ClosestAcross(pads, nodes, islands, root);
      assert root[0] in islands;
      ghost var f, g := TwoMembers(Firsts(root));
      ClosestIsAirwire(pads, root, w, f, g);
      forall i: nat, j: nat | i < |pads| && j < |pads| && !Joined(nodes, touch, i, j)
        ensures w.dist2 <= Dist2(pads, i, j)
      {
        ClosestIsAirwire(pads, root, w, i, j);
      }
      v := Unrouted(|islands|, w.a, w.b);
    }
  }
}

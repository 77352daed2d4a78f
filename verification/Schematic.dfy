/** Schematics and the netlist they stand for. */
module Schematic {
  import opened Closure
  import opened Decimals

  /** Lengths are in units of 0.0001 mm. */
  datatype Pin = Pin(number: string, name: string, kind: string, x: int, y: int, net: string)

  datatype Comp = Comp(reference: string, value: string, libId: string, footprint: string, lcsc: string,
                       x: int, y: int, rotation: int, extra: seq<(string, string)>, pins: seq<Pin>)

  datatype Wire = Wire(x1: int, y1: int, x2: int, y2: int, net: string)

  datatype Label = Label(name: string, x: int, y: int, angle: int, isPower: bool)

  datatype Model = Model(comps: seq<Comp>, wires: seq<Wire>, labels: seq<Label>)

  // ---- Points of the net graph ---------------------------------------------------------------

  type Key = (int, int)

  /** Rounds to a hundredth of a millimetre, halves away from zero. */
  function Hundredths(v: int): int {
    if v >= 0 then (v + 50) / 100 else -((-v + 50) / 100)
  }

  function CoordKey(x: int, y: int): Key {
    (Hundredths(x), Hundredths(y))
  }

  function PinKey(p: Pin): Key {
    CoordKey(p.x, p.y)
  }

  function WireEdges(wires: seq<Wire>): seq<(Key, Key)> {
    if wires == [] then []
    else
      var w := wires[|wires| - 1];
      WireEdges(wires[..|wires| - 1]) + [(CoordKey(w.x1, w.y1), CoordKey(w.x2, w.y2))]
  }

  function EdgeKeys(edges: seq<(Key, Key)>): set<Key> {
    if edges == [] then {}
    else
      var e := edges[|edges| - 1];
      EdgeKeys(edges[..|edges| - 1]) + {e.0, e.1}
  }

  function LabelKeys(labels: seq<Label>): set<Key> {
    if labels == [] then {}
    else
      var l := labels[|labels| - 1];
      LabelKeys(labels[..|labels| - 1]) + {CoordKey(l.x, l.y)}
  }

  function PinKeys(pins: seq<Pin>): set<Key> {
    if pins == [] then {} else PinKeys(pins[..|pins| - 1]) + {PinKey(pins[|pins| - 1])}
  }

  function CompKeys(comps: seq<Comp>): set<Key> {
    if comps == [] then {} else CompKeys(comps[..|comps| - 1]) + PinKeys(comps[|comps| - 1].pins)
  }

  function Keys(m: Model): set<Key> {
    EdgeKeys(WireEdges(m.wires)) + LabelKeys(m.labels) + CompKeys(m.comps)
  }

  // ---- Names ---------------------------------------------------------------------------------

  /** Something writes `name` at `key`: a named wire at either end, a label, or a pin. */
  ghost predicate WireNames(wires: seq<Wire>, key: Key, name: string) {
    exists i :: 0 <= i < |wires| && WireName(wires[i], key, name)
  }

  predicate WireName(w: Wire, key: Key, name: string) {
    w.net != "" && w.net == name && (key == CoordKey(w.x1, w.y1) || key == CoordKey(w.x2, w.y2))
  }

  ghost predicate LabelNames(labels: seq<Label>, key: Key, name: string) {
    exists i :: 0 <= i < |labels| && LabelName(labels[i], key, name)
  }

  predicate LabelName(l: Label, key: Key, name: string) {
    l.name != "" && l.name == name && key == CoordKey(l.x, l.y)
  }

  ghost predicate PinNames(pins: seq<Pin>, key: Key, name: string) {
    exists i :: 0 <= i < |pins| && PinName(pins[i], key, name)
  }

  predicate PinName(p: Pin, key: Key, name: string) {
    p.net != "" && p.net == name && key == PinKey(p)
  }

  ghost predicate CompNames(comps: seq<Comp>, key: Key, name: string) {
    exists i :: 0 <= i < |comps| && PinNames(comps[i].pins, key, name)
  }

  ghost predicate Names(m: Model, key: Key, name: string) {
    WireNames(m.wires, key, name) || LabelNames(m.labels, key, name) || CompNames(m.comps, key, name)
  }

  /** Every connected cluster carries at most one name. */
  ghost predicate OneNamePerCluster(m: Model) {
    forall j, k, a, b :: Names(m, j, a) && Names(m, k, b) && Linked(WireEdges(m.wires), j, k) ==> a == b
  }

  // ---- Clusters ------------------------------------------------------------------------------

  /** A representative for every key, and the names of the clusters that have one. */
  datatype Clusters = Clusters(rep: map<Key, Key>, name: map<Key, string>)

  function ClusterName(c: Clusters, r: Key): string {
    if r in c.name then c.name[r] else ""
  }

  ghost predicate Shared(c: Clusters, r: Key) {
    exists a, b :: a in c.rep && b in c.rep && a != b && c.rep[a] == r && c.rep[b] == r
  }

  /** The clusters are the classes of the closure of the wires; a cluster is named exactly when something names one
      of its keys, and by one of those names. */
  ghost predicate Clustering(m: Model, c: Clusters) {
    && c.rep.Keys == Keys(m)
    && Represents(c.rep, WireEdges(m.wires))
    && (forall r :: r in c.name ==> c.name[r] != "" && NamedBy(m, c, r))
    && (forall k, n :: Names(m, k, n) ==> k in c.rep && c.rep[k] in c.name)
  }

  ghost predicate NamedBy(m: Model, c: Clusters, r: Key)
    requires r in c.name
  {
    exists k :: k in c.rep && c.rep[k] == r && Names(m, k, c.name[r])
  }

  // ---- The netlist ---------------------------------------------------------------------------

  /** A pin as the netlist lists it; parts whose reference starts with `#` are not listed. */
  datatype View = View(reference: string, number: string, x: int, y: int, net: string)

  predicate Listed(c: Comp) {
    c.reference == "" || c.reference[0] != '#'
  }

  function PinViews(reference: string, pins: seq<Pin>): seq<View> {
    if pins == [] then []
    else
      var p := pins[|pins| - 1];
      PinViews(reference, pins[..|pins| - 1]) + [View(reference, p.number, p.x, p.y, p.net)]
  }

  function Views(comps: seq<Comp>): seq<View> {
    if comps == [] then []
    else
      var c := comps[|comps| - 1];
      Views(comps[..|comps| - 1]) + (if Listed(c) then PinViews(c.reference, c.pins) else [])
  }

  function ViewKey(v: View): Key {
    CoordKey(v.x, v.y)
  }

  function AutoName(v: View, counter: nat): string {
    "Net-(" + v.reference + "-Pad" + v.number + "_" + Decimal(counter) + ")"
  }

  /** The names made up so far for nameless clusters of several points, each by the first pin met in it. */
  ghost function Autos(c: Clusters, views: seq<View>): map<Key, string>
    requires forall i :: 0 <= i < |views| ==> ViewKey(views[i]) in c.rep
  {
    if views == [] then map[]
    else
      var before, v := Autos(c, views[..|views| - 1]), views[|views| - 1];
      var r := c.rep[ViewKey(v)];
      if NeedsAuto(c, before, v) then before[r := AutoName(v, |before| + 1)] else before
  }

  ghost predicate NeedsAuto(c: Clusters, autos: map<Key, string>, v: View)
    requires ViewKey(v) in c.rep
  {
    var r := c.rep[ViewKey(v)];
    v.net == "" && ClusterName(c, r) == "" && r !in autos && Shared(c, r)
  }

  /** A pin's net: its own, its cluster's, the one made up for its cluster, or none. */
  function NetName(c: Clusters, autos: map<Key, string>, v: View): string
    requires ViewKey(v) in c.rep
  {
    var r := c.rep[ViewKey(v)];
    if v.net != "" then v.net
    else if ClusterName(c, r) != "" then ClusterName(c, r)
    else if r in autos then autos[r]
    else ""
  }

  datatype Entry = Entry(reference: string, number: string, x: int, y: int)

  function Listing(nets: map<string, seq<Entry>>, name: string, v: View): map<string, seq<Entry>> {
    if name == "" then nets
    else nets[name := (if name in nets then nets[name] else []) + [Entry(v.reference, v.number, v.x, v.y)]]
  }

  ghost function Nets(c: Clusters, views: seq<View>): map<string, seq<Entry>>
    requires forall i :: 0 <= i < |views| ==> ViewKey(views[i]) in c.rep
  {
    if views == [] then map[]
    else
      var n := |views| - 1;
      Listing(Nets(c, views[..n]), NetName(c, Autos(c, views), views[n]), views[n])
  }

  // ---- The netlist does not depend on the representatives ------------------------------------

  /** Two clusterings treat two pins alike. */
  ghost predicate AlikeFor(c: Clusters, d: Clusters, v: View) {
    && ViewKey(v) in c.rep && ViewKey(v) in d.rep
    && ClusterName(c, c.rep[ViewKey(v)]) == ClusterName(d, d.rep[ViewKey(v)])
    && (Shared(c, c.rep[ViewKey(v)]) <==> Shared(d, d.rep[ViewKey(v)]))
  }

  ghost predicate SamePairs(c: Clusters, d: Clusters, v: View, w: View)
    requires ViewKey(v) in c.rep && ViewKey(v) in d.rep && ViewKey(w) in c.rep && ViewKey(w) in d.rep
  {
    c.rep[ViewKey(v)] == c.rep[ViewKey(w)] <==> d.rep[ViewKey(v)] == d.rep[ViewKey(w)]
  }

  ghost predicate Alike(c: Clusters, d: Clusters, views: seq<View>) {
    && (forall i :: 0 <= i < |views| ==> AlikeFor(c, d, views[i]))
    && forall i, j :: 0 <= i < |views| && 0 <= j < |views| ==> SamePairs(c, d, views[i], views[j])
  }

  ghost predicate SameAuto(c: Clusters, d: Clusters, a: map<Key, string>, b: map<Key, string>, v: View)
    requires ViewKey(v) in c.rep && ViewKey(v) in d.rep
  {
    var r, s := c.rep[ViewKey(v)], d.rep[ViewKey(v)];
    (r in a <==> s in b) && (r in a && s in b ==> a[r] == b[s])
  }

  lemma {:induction false} AutosAgree(c: Clusters, d: Clusters, views: seq<View>, n: nat)
    requires n <= |views| && Alike(c, d, views)
    requires forall i :: 0 <= i < |views| ==> ViewKey(views[i]) in c.rep && ViewKey(views[i]) in d.rep
    ensures |Autos(c, views[..n])| == |Autos(d, views[..n])|
    ensures forall i :: 0 <= i < |views| ==> SameAuto(c, d, Autos(c, views[..n]), Autos(d, views[..n]), views[i])
  {
    hide Shared, AutoName, ClusterName, ViewKey;
    if n > 0 {
      var v := views[n - 1];
      AutosAgree(c, d, views, n - 1);
      assert views[..n][..n - 1] == views[..n - 1] && views[..n][n - 1] == v;
      var a, b := Autos(c, views[..n - 1]), Autos(d, views[..n - 1]);
      var a', b' := Autos(c, views[..n]), Autos(d, views[..n]);
      assert AlikeFor(c, d, v) && SameAuto(c, d, a, b, v);
      forall i | 0 <= i < |views|
        ensures SameAuto(c, d, a', b', views[i])
      {
        assert SameAuto(c, d, a, b, views[i]) && SamePairs(c, d, views[i], v);
      }
    }
  }

  lemma {:induction false} NetsAgree(c: Clusters, d: Clusters, views: seq<View>, n: nat)
    requires n <= |views| && Alike(c, d, views)
    requires forall i :: 0 <= i < |views| ==> ViewKey(views[i]) in c.rep && ViewKey(views[i]) in d.rep
    ensures Nets(c, views[..n]) == Nets(d, views[..n])
  {
    hide Shared, ClusterName, Autos, Listing, ViewKey;
    if n > 0 {
      NetsAgree(c, d, views, n - 1);
      assert views[..n][..n - 1] == views[..n - 1] && views[..n][n - 1] == views[n - 1];
      AutosAgree(c, d, views, n);
      assert AlikeFor(c, d, views[n - 1]);
      assert SameAuto(c, d, Autos(c, views[..n]), Autos(d, views[..n]), views[n - 1]);
    }
  }

  // ---- Which changes leave the netlist alone -------------------------------------------------

  /** The name is found somewhere else in the cluster. */
  ghost predicate NamedNearby(m: Model, key: Key, name: string) {
    exists k :: Names(m, k, name) && Linked(WireEdges(m.wires), key, k)
  }

  /** The same points and connections, the same pins, no new names, and every name still in its cluster. */
  ghost predicate SameCircuit(m: Model, m': Model) {
    && WireEdges(m'.wires) == WireEdges(m.wires) && Keys(m') == Keys(m) && Views(m'.comps) == Views(m.comps)
    && (forall k, n :: Names(m', k, n) ==> Names(m, k, n))
    && (forall k, n :: Names(m, k, n) ==> NamedNearby(m', k, n))
  }

  ghost predicate Covered(c: Clusters, views: seq<View>) {
    forall i :: 0 <= i < |views| ==> ViewKey(views[i]) in c.rep
  }

  /** For a circuit with at most one name per cluster, the netlist is a property of the circuit alone. */
  lemma SameNetlist(m: Model, m': Model, c: Clusters, d: Clusters)
    requires SameCircuit(m, m') && OneNamePerCluster(m) && Clustering(m, c) && Clustering(m', d)
    requires Covered(c, Views(m.comps)) && Covered(d, Views(m'.comps))
    ensures Nets(c, Views(m.comps)) == Nets(d, Views(m'.comps))
  {
    hide Names, Linked, Shared, ViewKey, Nets, Keys, ClusterName, Clustering, SameCircuit, OneNamePerCluster;
    SameParts(m, m');
    var views := Views(m.comps);
    forall i | 0 <= i < |views|
      ensures AlikeFor(c, d, views[i])
    {
      SameClusterName(m, m', c, d, ViewKey(views[i]));
      SharedAlike(m, m', c, d, ViewKey(views[i]));
      SharedAlike'(m, m', c, d, ViewKey(views[i]));
    }
    forall i, j | 0 <= i < |views| && 0 <= j < |views|
      ensures SamePairs(c, d, views[i], views[j])
    {
      SameClasses(m, m', c, d, ViewKey(views[i]), ViewKey(views[j]));
    }
    NetsAgree(c, d, views, |views|);
    assert views[..|views|] == views;
  }

  lemma SameParts(m: Model, m': Model)
    requires SameCircuit(m, m')
    ensures WireEdges(m'.wires) == WireEdges(m.wires) && Keys(m') == Keys(m) && Views(m'.comps) == Views(m.comps)
  {
    hide Names, NamedNearby;
  }

  lemma SameClasses(m: Model, m': Model, c: Clusters, d: Clusters, j: Key, k: Key)
    requires SameCircuit(m, m') && Clustering(m, c) && Clustering(m', d)
    requires j in c.rep && k in c.rep
    ensures j in d.rep && k in d.rep && (c.rep[j] == c.rep[k] <==> d.rep[j] == d.rep[k])
  {
    hide Names, NamedNearby, Linked, NamedBy, Keys, WireEdges, RespectsEdges;
  }

  lemma SharedAlike(m: Model, m': Model, c: Clusters, d: Clusters, k: Key)
    requires SameCircuit(m, m') && Clustering(m, c) && Clustering(m', d) && k in c.rep && k in d.rep
    ensures Shared(c, c.rep[k]) ==> Shared(d, d.rep[k])
  {
    hide SameCircuit, Clustering;
    if Shared(c, c.rep[k]) {
      var a, b :| a in c.rep && b in c.rep && a != b && c.rep[a] == c.rep[k] && c.rep[b] == c.rep[k];
      SameClasses(m, m', c, d, a, k);
      SameClasses(m, m', c, d, b, k);
    }
  }

  lemma SharedAlike'(m: Model, m': Model, c: Clusters, d: Clusters, k: Key)
    requires SameCircuit(m, m') && Clustering(m, c) && Clustering(m', d) && k in c.rep && k in d.rep
    ensures Shared(d, d.rep[k]) ==> Shared(c, c.rep[k])
  {
    SameParts(m, m');
    SameDomain(m, m', c, d);
    hide SameCircuit, Clustering, Keys;
    if Shared(d, d.rep[k]) {
      var a, b :| a in d.rep && b in d.rep && a != b && d.rep[a] == d.rep[k] && d.rep[b] == d.rep[k];
      SameClasses(m, m', c, d, a, k);
      SameClasses(m, m', c, d, b, k);
    }
  }

  lemma SameDomain(m: Model, m': Model, c: Clusters, d: Clusters)
    requires SameCircuit(m, m') && Clustering(m, c) && Clustering(m', d)
    ensures c.rep.Keys == d.rep.Keys
  {
    hide Names, NamedNearby, Linked, NamedBy, Keys, WireEdges, RespectsEdges, Represents;
  }

  lemma LinkedOfClass(m: Model, c: Clusters, j: Key, k: Key)
    requires Clustering(m, c) && j in c.rep && k in c.rep
    ensures c.rep[j] == c.rep[k] <==> Linked(WireEdges(m.wires), j, k)
  {
    hide Names, NamedBy, Linked, Keys, WireEdges, RespectsEdges;
  }

  lemma NamerOf(m: Model, c: Clusters, r: Key) returns (j: Key)
    requires Clustering(m, c) && r in c.name
    ensures j in c.rep && c.rep[j] == r && Names(m, j, c.name[r]) && c.name[r] != ""
  {
    hide Names, Represents, Keys;
    assert NamedBy(m, c, r);
    j :| j in c.rep && c.rep[j] == r && Names(m, j, c.name[r]);
  }

  lemma NameIsTaken(m: Model, c: Clusters, j: Key, n: string)
    requires Clustering(m, c) && Names(m, j, n)
    ensures j in c.rep && c.rep[j] in c.name
  {
    hide Names, Represents, Keys, NamedBy;
  }

  lemma NameMoves(m: Model, m': Model, j: Key, n: string) returns (k: Key)
    requires SameCircuit(m, m') && Names(m, j, n)
    ensures Names(m', k, n) && Linked(WireEdges(m.wires), j, k)
  {
    hide Names, Linked;
    assert NamedNearby(m', j, n);
    k :| Names(m', k, n) && Linked(WireEdges(m'.wires), j, k);
  }

  lemma NameWasThere(m: Model, m': Model, k: Key, n: string)
    requires SameCircuit(m, m') && Names(m', k, n)
    ensures Names(m, k, n)
  {
    hide Names, NamedNearby;
  }

  lemma OnlyOneName(m: Model, j: Key, k: Key, a: string, b: string)
    requires OneNamePerCluster(m) && Names(m, j, a) && Names(m, k, b) && Linked(WireEdges(m.wires), j, k)
    ensures a == b
  {
    hide Names, Linked;
  }

  lemma SameClusterName(m: Model, m': Model, c: Clusters, d: Clusters, k: Key)
    requires SameCircuit(m, m') && OneNamePerCluster(m) && Clustering(m, c) && Clustering(m', d)
    requires k in c.rep && k in d.rep
    ensures ClusterName(c, c.rep[k]) == ClusterName(d, d.rep[k])
  {
    hide SameCircuit, OneNamePerCluster, Clustering, Names, Linked;
    SameParts(m, m');
    hide WireEdges;
    if d.rep[k] in d.name {
      var l := NamerOf(m', d, d.rep[k]);
      LinkedOfClass(m', d, l, k);
      NameWasThere(m, m', l, d.name[d.rep[k]]);
      NameIsTaken(m, c, l, d.name[d.rep[k]]);
      LinkedOfClass(m, c, l, k);
      var j := NamerOf(m, c, c.rep[k]);
      LinkedOfClass(m, c, j, l);
      OnlyOneName(m, j, l, c.name[c.rep[k]], d.name[d.rep[k]]);
    } else if c.rep[k] in c.name {
      var j := NamerOf(m, c, c.rep[k]);
      var j' := NameMoves(m, m', j, c.name[c.rep[k]]);
      NameIsTaken(m', d, j', c.name[c.rep[k]]);
      SameDomain(m, m', c, d);
      LinkedOfClass(m, c, j, j');
      LinkedOfClass(m, c, j', k);
      LinkedOfClass(m', d, j', k);
    }
  }
}

/** Building the netlist of a schematic with a union-find over its points. */
module NetlistBuilder {
  import opened Closure
  import opened Decimals
  import opened KeyedSets
  import opened LonePins
  import opened Schematic

  // ---- One element more ----------------------------------------------------------------------

  /** The label noted at a point is one of its names, and every named point has one. */
  ghost predicate Noted(m: Model, labelAt: map<Key, string>) {
    && (forall k :: k in labelAt ==> labelAt[k] != "" && Names(m, k, labelAt[k]))
    && (forall k, n :: Names(m, k, n) ==> k in labelAt)
  }

  lemma AddWire(m: Model, w: Wire)
    ensures var m' := m.(wires := m.wires + [w]); var k1, k2 := CoordKey(w.x1, w.y1), CoordKey(w.x2, w.y2);
            && WireEdges(m'.wires) == WireEdges(m.wires) + [(k1, k2)]
            && Keys(m') == Keys(m) + {k1, k2}
            && forall k, n :: Names(m', k, n) <==> Names(m, k, n) || WireName(w, k, n)
  {
    hide CoordKey, WireName, LabelKeys, CompKeys, LabelNames, CompNames;
    var m' := m.(wires := m.wires + [w]);
    assert m'.wires[..|m.wires|] == m.wires;
    EdgeKeysSnoc(WireEdges(m.wires), CoordKey(w.x1, w.y1), CoordKey(w.x2, w.y2));
    hide EdgeKeys, WireEdges;
    forall k, n
      ensures WireNames(m'.wires, k, n) <==> WireNames(m.wires, k, n) || WireName(w, k, n)
    {
      WireNamesSnoc(m.wires, w, k, n);
    }
  }

  lemma EdgeKeysSnoc(edges: seq<(Key, Key)>, a: Key, b: Key)
    ensures EdgeKeys(edges + [(a, b)]) == EdgeKeys(edges) + {a, b}
  {
    assert (edges + [(a, b)])[..|edges|] == edges;
  }

  lemma WireNamesSnoc(wires: seq<Wire>, w: Wire, k: Key, n: string)
    ensures WireNames(wires + [w], k, n) <==> WireNames(wires, k, n) || WireName(w, k, n)
  {
    hide WireName;
    var all := wires + [w];
    assert forall i :: 0 <= i < |wires| ==> all[i] == wires[i];
    assert all[|wires|] == w;
  }

  lemma AddLabel(m: Model, l: Label)
    ensures var m' := m.(labels := m.labels + [l]);
            && Keys(m') == Keys(m) + {CoordKey(l.x, l.y)}
            && forall k, n :: Names(m', k, n) <==> Names(m, k, n) || LabelName(l, k, n)
  {
    hide CoordKey, LabelName, EdgeKeys, CompKeys, WireNames, CompNames;
    var m' := m.(labels := m.labels + [l]);
    assert m'.labels[..|m.labels|] == m.labels;
    forall k, n
      ensures LabelNames(m'.labels, k, n) <==> LabelNames(m.labels, k, n) || LabelName(l, k, n)
    {
      LabelNamesSnoc(m.labels, l, k, n);
    }
  }

  lemma LabelNamesSnoc(labels: seq<Label>, l: Label, k: Key, n: string)
    ensures LabelNames(labels + [l], k, n) <==> LabelNames(labels, k, n) || LabelName(l, k, n)
  {
    hide LabelName;
    var all := labels + [l];
    assert forall i :: 0 <= i < |labels| ==> all[i] == labels[i];
    assert all[|labels|] == l;
  }

  /** The part with its first pins only. */
  function Upto(comps: seq<Comp>, i: nat, j: nat): seq<Comp>
    requires i < |comps| && j <= |comps[i].pins|
  {
    comps[..i] + [comps[i].(pins := comps[i].pins[..j])]
  }

  lemma UptoNone(m: Model, comps: seq<Comp>, i: nat)
    requires i < |comps|
    ensures Keys(m.(comps := Upto(comps, i, 0))) == Keys(m.(comps := comps[..i]))
    ensures forall k, n :: Names(m.(comps := Upto(comps, i, 0)), k, n) <==> Names(m.(comps := comps[..i]), k, n)
  {
    hide EdgeKeys, LabelKeys, WireNames, LabelNames;
    var c := comps[i].(pins := comps[i].pins[..0]);
    CompKeysSnoc(comps[..i], c);
    forall k, n
      ensures CompNames(Upto(comps, i, 0), k, n) <==> CompNames(comps[..i], k, n)
    {
      CompNamesSnoc(comps[..i], c, k, n);
    }
  }

  lemma CompKeysSnoc(comps: seq<Comp>, c: Comp)
    ensures CompKeys(comps + [c]) == CompKeys(comps) + PinKeys(c.pins)
  {
    assert (comps + [c])[..|comps|] == comps;
  }

  lemma CompNamesSnoc(comps: seq<Comp>, c: Comp, k: Key, n: string)
    ensures CompNames(comps + [c], k, n) <==> CompNames(comps, k, n) || PinNames(c.pins, k, n)
  {
    hide PinNames;
    var all := comps + [c];
    assert forall i :: 0 <= i < |comps| ==> all[i] == comps[i];
    assert all[|comps|] == c;
  }

  lemma PinNamesSnoc(pins: seq<Pin>, p: Pin, k: Key, n: string)
    ensures PinNames(pins + [p], k, n) <==> PinNames(pins, k, n) || PinName(p, k, n)
  {
    hide PinName;
    var all := pins + [p];
    assert forall i :: 0 <= i < |pins| ==> all[i] == pins[i];
    assert all[|pins|] == p;
  }

  lemma PinKeysSnoc(pins: seq<Pin>, p: Pin)
    ensures PinKeys(pins + [p]) == PinKeys(pins) + {PinKey(p)}
  {
    assert (pins + [p])[..|pins|] == pins;
  }

  lemma AddPin(m: Model, comps: seq<Comp>, i: nat, j: nat)
    requires i < |comps| && j < |comps[i].pins|
    ensures var p := comps[i].pins[j];
            && Keys(m.(comps := Upto(comps, i, j + 1))) == Keys(m.(comps := Upto(comps, i, j))) + {PinKey(p)}
            && forall k, n :: Names(m.(comps := Upto(comps, i, j + 1)), k, n) <==>
                              Names(m.(comps := Upto(comps, i, j)), k, n) || PinName(p, k, n)
  {
    hide EdgeKeys, LabelKeys, WireNames, LabelNames, CompKeys, CompNames, PinNames, PinKeys, PinKey, PinName;
    var p := comps[i].pins[j];
    var short, long := comps[i].(pins := comps[i].pins[..j]), comps[i].(pins := comps[i].pins[..j + 1]);
    assert long.pins == short.pins + [p];
    CompKeysSnoc(comps[..i], short);
    CompKeysSnoc(comps[..i], long);
    PinKeysSnoc(short.pins, p);
    forall k, n
      ensures CompNames(Upto(comps, i, j + 1), k, n) <==> CompNames(Upto(comps, i, j), k, n) || PinName(p, k, n)
    {
      CompNamesSnoc(comps[..i], short, k, n);
      CompNamesSnoc(comps[..i], long, k, n);
      PinNamesSnoc(short.pins, p, k, n);
    }
  }

  /** Writing the new name of a point over the old one keeps the notes right. */
  lemma NotedGrows(m: Model, m': Model, labelAt: map<Key, string>, labelAt': map<Key, string>, keys: set<Key>,
                   name: string)
    requires Noted(m, labelAt)
    requires forall k, n :: Names(m', k, n) <==> Names(m, k, n) || (name != "" && n == name && k in keys)
    requires forall k :: k in labelAt' <==> k in labelAt || (name != "" && k in keys)
    requires forall k :: k in labelAt' ==> labelAt'[k] == if name != "" && k in keys then name else labelAt[k]
    ensures Noted(m', labelAt')
  {
    hide Names;
  }

  // ---- The three passes that unite points and note labels ------------------------------------

  /** The points seen so far are those of `m`, joined by its wires, with their labels noted. */
  ghost predicate Charted(m: Model, sets: KeyedSet<Key>, labelAt: map<Key, string>)
    reads sets
  {
    && sets.Valid() && sets.parent.Keys == Keys(m) && sets.edges == WireEdges(m.wires)
    && Noted(m, labelAt)
  }

  method ChartWires(m: Model, sets: KeyedSet<Key>) returns (labelAt: map<Key, string>)
    requires sets.Valid() && sets.parent.Keys == {} && sets.edges == []
    modifies sets
    ensures Charted(Model([], m.wires, []), sets, labelAt)
  {
    hide Keys, Names, WireEdges, Noted, KeyForest, Represents, CoordKey;
    labelAt := map[];
    NothingCharted();
    for i := 0 to |m.wires|
      invariant Charted(Model([], m.wires[..i], []), sets, labelAt)
    {
      var w := m.wires[i];
      var before := Model([], m.wires[..i], []);
      AddWire(before, w);
      assert m.wires[..i + 1] == m.wires[..i] + [w];
      var k1, k2 := CoordKey(w.x1, w.y1), CoordKey(w.x2, w.y2);
      sets.Unite(k1, k2);
      WireNotes(before, w, labelAt);
      if w.net != "" {
        labelAt := labelAt[k1 := w.net][k2 := w.net];
      }
    }
    assert m.wires[..|m.wires|] == m.wires;
  }

  lemma NothingCharted()
    ensures Noted(Model([], [], []), map[]) && Keys(Model([], [], [])) == {} && WireEdges([]) == []
  {
  }

  lemma WireNotes(m: Model, w: Wire, labelAt: map<Key, string>)
    requires Noted(m, labelAt)
    ensures var m' := m.(wires := m.wires + [w]); var k1, k2 := CoordKey(w.x1, w.y1), CoordKey(w.x2, w.y2);
            Noted(m', if w.net == "" then labelAt else labelAt[k1 := w.net][k2 := w.net])
  {
    hide Names, Noted, CoordKey;
    AddWire(m, w);
    var k1, k2 := CoordKey(w.x1, w.y1), CoordKey(w.x2, w.y2);
    var m' := m.(wires := m.wires + [w]);
    forall k, n
      ensures Names(m', k, n) <==> Names(m, k, n) || (w.net != "" && n == w.net && k in {k1, k2})
    {
      assert Names(m', k, n) <==> Names(m, k, n) || WireName(w, k, n);
    }
    NotedGrows(m, m', labelAt, if w.net == "" then labelAt else labelAt[k1 := w.net][k2 := w.net], {k1, k2}, w.net);
  }

  method ChartLabels(m: Model, sets: KeyedSet<Key>, noted: map<Key, string>) returns (labelAt: map<Key, string>)
    requires Charted(Model([], m.wires, []), sets, noted)
    modifies sets
    ensures Charted(Model([], m.wires, m.labels), sets, labelAt)
  {
    hide Keys, Names, WireEdges, Noted, KeyForest, Represents, CoordKey;
    labelAt := noted;
    for i := 0 to |m.labels|
      invariant Charted(Model([], m.wires, m.labels[..i]), sets, labelAt)
    {
      var l := m.labels[i];
      var before := Model([], m.wires, m.labels[..i]);
      AddLabel(before, l);
      assert m.labels[..i + 1] == m.labels[..i] + [l];
      var k := CoordKey(l.x, l.y);
      var _ := sets.FindRoot(k);
      LabelNotes(before, l, labelAt);
      if l.name != "" {
        labelAt := labelAt[k := l.name];
      }
    }
    assert m.labels[..|m.labels|] == m.labels;
  }

  lemma LabelNotes(m: Model, l: Label, labelAt: map<Key, string>)
    requires Noted(m, labelAt)
    ensures var m' := m.(labels := m.labels + [l]);
            Noted(m', if l.name == "" then labelAt else labelAt[CoordKey(l.x, l.y) := l.name])
  {
    hide Names, Noted, CoordKey;
    AddLabel(m, l);
    var k := CoordKey(l.x, l.y);
    var m' := m.(labels := m.labels + [l]);
    forall j, n
      ensures Names(m', j, n) <==> Names(m, j, n) || (l.name != "" && n == l.name && j in {k})
    {
      assert Names(m', j, n) <==> Names(m, j, n) || LabelName(l, j, n);
    }
    NotedGrows(m, m', labelAt, if l.name == "" then labelAt else labelAt[k := l.name], {k}, l.name);
  }

  method ChartPins(m: Model, sets: KeyedSet<Key>, noted: map<Key, string>) returns (labelAt: map<Key, string>)
    requires Charted(Model([], m.wires, m.labels), sets, noted)
    modifies sets
    ensures Charted(m, sets, labelAt)
  {
    hide Keys, Names, WireEdges, Noted, KeyForest, Represents, PinKey;
    labelAt := noted;
    for i := 0 to |m.comps|
      invariant Charted(m.(comps := m.comps[..i]), sets, labelAt)
    {
      UptoNone(m, m.comps, i);
      NotedSame(m.(comps := m.comps[..i]), m.(comps := Upto(m.comps, i, 0)), labelAt);
      var pins := m.comps[i].pins;
      for j := 0 to |pins|
        invariant Charted(m.(comps := Upto(m.comps, i, j)), sets, labelAt)
      {
        AddPin(m, m.comps, i, j);
        PinNotes(m, i, j, labelAt);
        var k := PinKey(pins[j]);
        var _ := sets.FindRoot(k);
        if pins[j].net != "" {
          labelAt := labelAt[k := pins[j].net];
        }
      }
      assert pins[..|pins|] == pins;
      assert Upto(m.comps, i, |pins|) == m.comps[..i + 1];
    }
    assert m.comps[..|m.comps|] == m.comps;
  }

  lemma NotedSame(m: Model, m': Model, labelAt: map<Key, string>)
    requires forall k, n :: Names(m', k, n) <==> Names(m, k, n)
    ensures Noted(m, labelAt) ==> Noted(m', labelAt)
  {
    hide Names;
  }

  lemma PinNotes(m: Model, i: nat, j: nat, labelAt: map<Key, string>)
    requires i < |m.comps| && j < |m.comps[i].pins| && Noted(m.(comps := Upto(m.comps, i, j)), labelAt)
    ensures var p := m.comps[i].pins[j];
            Noted(m.(comps := Upto(m.comps, i, j + 1)), if p.net == "" then labelAt else labelAt[PinKey(p) := p.net])
  {
    hide Names, Noted, PinKey, Upto;
    AddPin(m, m.comps, i, j);
    var p := m.comps[i].pins[j];
    var m0, m' := m.(comps := Upto(m.comps, i, j)), m.(comps := Upto(m.comps, i, j + 1));
    forall k, n
      ensures Names(m', k, n) <==> Names(m0, k, n) || (p.net != "" && n == p.net && k in {PinKey(p)})
    {
      assert Names(m', k, n) <==> Names(m0, k, n) || PinName(p, k, n);
    }
    NotedGrows(m0, m', labelAt, if p.net == "" then labelAt else labelAt[PinKey(p) := p.net], {PinKey(p)}, p.net);
  }

  // ---- Naming the clusters -------------------------------------------------------------------

  /** The names of the clusters of the points outside `todo`. */
  ghost predicate NamesFor(rep: map<Key, Key>, labelAt: map<Key, string>, todo: set<Key>, names: map<Key, string>) {
    && (forall r :: r in names ==> NameFrom(rep, labelAt, names[r], r))
    && (forall k :: k in labelAt && k !in todo ==> k in rep && rep[k] in names)
  }

  ghost predicate NameFrom(rep: map<Key, Key>, labelAt: map<Key, string>, name: string, r: Key) {
    exists k :: k in labelAt && k in rep && rep[k] == r && labelAt[k] == name
  }

  lemma NoNames(rep: map<Key, Key>, labelAt: map<Key, string>)
    ensures NamesFor(rep, labelAt, labelAt.Keys, map[])
  {
  }

  /** Takes the noted points in some order; the first one met in a cluster names it. */
  method NameClusters(m: Model, sets: KeyedSet<Key>, labelAt: map<Key, string>)
    returns (names: map<Key, string>, ghost c: Clusters)
    requires Charted(m, sets, labelAt)
    modifies sets
    ensures sets.Valid() && sets.rep.Keys == sets.parent.Keys && c == Clusters(sets.rep, names) && Clustering(m, c)
  {
    NotedInside(m, sets, labelAt);
    hide Keys, Names, WireEdges, Noted, KeyForest, Represents, NamesFor, Clustering;
    ghost var rep, edges := sets.rep, sets.edges;
    SameKeys(sets.parent, sets.rep, sets.rank);
    names := NamePoints(sets, labelAt);
    c := Clusters(rep, names);
    NamesAreClustering(m, c, labelAt, edges);
  }

  method NamePoints(sets: KeyedSet<Key>, labelAt: map<Key, string>) returns (names: map<Key, string>)
    requires sets.Valid() && labelAt.Keys <= sets.parent.Keys == sets.rep.Keys
    modifies sets`parent, sets`rep, sets`rank
    ensures sets.Valid() && sets.rep == old(sets.rep) && sets.parent.Keys == old(sets.parent.Keys)
    ensures NamesFor(sets.rep, labelAt, {}, names)
  {
    hide KeyForest, Represents, NamesFor;
    names := map[];
    var todo := labelAt.Keys;
    ghost var rep := sets.rep;
    NoNames(rep, labelAt);
    while todo != {}
      invariant sets.Valid() && sets.rep == rep && sets.parent.Keys == rep.Keys
      invariant todo <= labelAt.Keys && NamesFor(rep, labelAt, todo, names)
      decreases |todo|
    {
      var k :| k in todo;
      var r := sets.FindRoot(k);
      NameTaken(rep, labelAt, todo, names, k);
      if r !in names {
        names := names[r := labelAt[k]];
      }
      todo := todo - {k};
    }
  }

  lemma NotedInside(m: Model, sets: KeyedSet<Key>, labelAt: map<Key, string>)
    requires Charted(m, sets, labelAt)
    ensures labelAt.Keys <= sets.parent.Keys
  {
    hide KeyForest, Represents, WireEdges;
    forall k | k in labelAt
      ensures k in Keys(m)
    {
      NamedIsKey(m, k, labelAt[k]);
    }
  }

  lemma NamedIsKey(m: Model, k: Key, n: string)
    requires Names(m, k, n)
    ensures k in Keys(m)
  {
    hide CoordKey;
    if WireNames(m.wires, k, n) {
      var i :| 0 <= i < |m.wires| && WireName(m.wires[i], k, n);
      WireIsKey(m.wires, i);
    } else if LabelNames(m.labels, k, n) {
      var i :| 0 <= i < |m.labels| && LabelName(m.labels[i], k, n);
      LabelIsKey(m.labels, i);
    } else {
      var i :| 0 <= i < |m.comps| && PinNames(m.comps[i].pins, k, n);
      var j :| 0 <= j < |m.comps[i].pins| && PinName(m.comps[i].pins[j], k, n);
      PinIsKey(m.comps, i, j);
    }
  }

  lemma {:induction false} WireIsKey(wires: seq<Wire>, i: nat)
    requires i < |wires|
    ensures CoordKey(wires[i].x1, wires[i].y1) in EdgeKeys(WireEdges(wires))
    ensures CoordKey(wires[i].x2, wires[i].y2) in EdgeKeys(WireEdges(wires))
  {
    hide CoordKey;
    var n := |wires| - 1;
    EdgeKeysSnoc(WireEdges(wires[..n]), CoordKey(wires[n].x1, wires[n].y1), CoordKey(wires[n].x2, wires[n].y2));
    if i < n {
      WireIsKey(wires[..n], i);
    }
  }

  lemma {:induction false} LabelIsKey(labels: seq<Label>, i: nat)
    requires i < |labels|
    ensures CoordKey(labels[i].x, labels[i].y) in LabelKeys(labels)
  {
    if i < |labels| - 1 {
      LabelIsKey(labels[..|labels| - 1], i);
    }
  }

  lemma {:induction false} PinIsKey(comps: seq<Comp>, i: nat, j: nat)
    requires i < |comps| && j < |comps[i].pins|
    ensures PinKey(comps[i].pins[j]) in CompKeys(comps)
  {
    hide PinKey;
    if i < |comps| - 1 {
      PinIsKey(comps[..|comps| - 1], i, j);
    } else {
      PinIsPinKey(comps[i].pins, j);
    }
  }

  lemma {:induction false} PinIsPinKey(pins: seq<Pin>, j: nat)
    requires j < |pins|
    ensures PinKey(pins[j]) in PinKeys(pins)
  {
    if j < |pins| - 1 {
      PinIsPinKey(pins[..|pins| - 1], j);
    }
  }

  lemma NameTaken(rep: map<Key, Key>, labelAt: map<Key, string>, todo: set<Key>, names: map<Key, string>, k: Key)
    requires NamesFor(rep, labelAt, todo, names) && k in todo && k in labelAt && k in rep
    ensures NamesFor(rep, labelAt, todo - {k}, if rep[k] in names then names else names[rep[k] := labelAt[k]])
  {
    assert NameFrom(rep, labelAt, labelAt[k], rep[k]);
    hide NameFrom;
  }

  lemma NamesAreClustering(m: Model, c: Clusters, labelAt: map<Key, string>, edges: seq<(Key, Key)>)
    requires Noted(m, labelAt) && NamesFor(c.rep, labelAt, {}, c.name)
    requires c.rep.Keys == Keys(m) && edges == WireEdges(m.wires) && Represents(c.rep, edges)
    ensures Clustering(m, c)
  {
    hide Names, Keys, WireEdges, Represents;
    forall r | r in c.name
      ensures c.name[r] != "" && NamedBy(m, c, r)
    {
      assert NameFrom(c.rep, labelAt, c.name[r], r);
      var k :| k in labelAt && k in c.rep && c.rep[k] == r && labelAt[k] == c.name[r];
      assert Names(m, k, c.name[r]);
    }
  }

  // ---- Listing the pins ----------------------------------------------------------------------

  /** `names` holds the cluster names and those made up so far; `counter` is the next number for one. */
  ghost predicate Tracked(c: Clusters, autos: map<Key, string>, names: map<Key, string>, counter: nat) {
    && (forall r :: r in names <==> r in c.name || r in autos)
    && (forall r :: r in c.name ==> r in names && names[r] == c.name[r] && names[r] != "" && r !in autos)
    && (forall r :: r in autos ==> r in names && names[r] == autos[r])
    && counter == |autos| + 1
  }

  /** Counts the points of a cluster. */
  method CountPoints(sets: KeyedSet<Key>, r: Key, ghost c: Clusters) returns (deg: nat)
    requires sets.Valid() && sets.rep == c.rep && sets.parent.Keys == c.rep.Keys
    modifies sets
    ensures sets.Valid() && sets.rep == c.rep && sets.parent.Keys == c.rep.Keys
    ensures deg > 1 <==> Shared(c, r)
  {
    hide KeyForest, Represents, Shared;
    deg := 0;
    var todo := sets.parent.Keys;
    ghost var found: set<Key> := {};
    while todo != {}
      invariant sets.Valid() && sets.rep == c.rep && sets.parent.Keys == c.rep.Keys && todo <= c.rep.Keys
      invariant |found| == deg && forall k :: k in found <==> k in c.rep && k !in todo && c.rep[k] == r
      decreases |todo|
    {
      var k :| k in todo;
      var q := sets.FindRoot(k);
      if q == r {
        deg := deg + 1;
        found := found + {k};
      }
      todo := todo - {k};
    }
    SharedBySize(c, r, found);
  }

  lemma SharedBySize(c: Clusters, r: Key, found: set<Key>)
    requires forall k :: k in found <==> k in c.rep && c.rep[k] == r
    ensures |found| > 1 <==> Shared(c, r)
  {
    if |found| > 1 {
      var a :| a in found;
      assert |found - {a}| > 0;
      var b :| b in found - {a};
      assert Shared(c, r);
    }
    if Shared(c, r) {
      var a, b :| a in c.rep && b in c.rep && a != b && c.rep[a] == r && c.rep[b] == r;
      assert {a, b} <= found && |{a, b}| == 2;
      assert found == {a, b} + (found - {a, b});
    }
  }

  datatype Progress = Progress(names: map<Key, string>, counter: nat, nets: map<string, seq<Entry>>)

  ghost predicate ListedUpto(c: Clusters, views: seq<View>, s: Progress) {
    && Covered(c, views)
    && Tracked(c, Autos(c, views), s.names, s.counter)
    && s.nets == Nets(c, views)
  }

  method ListPin(sets: KeyedSet<Key>, v: View, s: Progress, ghost c: Clusters, ghost views: seq<View>)
    returns (s': Progress)
    requires sets.Valid() && sets.rep == c.rep && sets.parent.Keys == c.rep.Keys
    requires ListedUpto(c, views, s) && ViewKey(v) in c.rep
    modifies sets
    ensures sets.Valid() && sets.rep == c.rep && sets.parent.Keys == c.rep.Keys
    ensures ListedUpto(c, views + [v], s')
  {
    hide KeyForest, Represents, Shared, Autos, Nets, ViewKey, Covered, Decimal;
    s' := s;
    var name := v.net;
    ViewAdds(c, views, v);
    if name == "" {
      var r := sets.FindRoot(ViewKey(v));
      if r in s.names {
        name := s.names[r];
      } else {
        var deg := CountPoints(sets, r, c);
        if deg > 1 {
          name := "Net-(" + v.reference + "-Pad" + v.number + "_" + Decimal(s.counter) + ")";
          assert name == AutoName(v, s.counter);
          s' := s.(names := s.names[r := name], counter := s.counter + 1);
        }
      }
    }
    if name != "" {
      var nodes := if name in s.nets then s.nets[name] else [];
      s' := s'.(nets := s.nets[name := nodes + [Entry(v.reference, v.number, v.x, v.y)]]);
    }
  }

  /** One more pin: what becomes of the made-up names and of the nets. */
  lemma ViewAdds(c: Clusters, views: seq<View>, v: View)
    requires Covered(c, views) && ViewKey(v) in c.rep
    ensures Covered(c, views + [v])
    ensures var before, r := Autos(c, views), c.rep[ViewKey(v)];
            var after := if NeedsAuto(c, before, v) then before[r := AutoName(v, |before| + 1)] else before;
            && Autos(c, views + [v]) == after
            && Nets(c, views + [v]) == Listing(Nets(c, views), NetName(c, after, v), v)
  {
    assert (views + [v])[..|views|] == views;
  }

  /** The netlist is that of the clusters the wires make; a pin without a net that nothing comes near is in none. */
  method BuildNetlist(m: Model) returns (nets: map<string, seq<Entry>>, ghost c: Clusters)
    ensures Clustering(m, c) && Covered(c, Views(m.comps)) && nets == Nets(c, Views(m.comps))
    ensures forall i, j :: Alone(m, i, j) ==> InNoNet(nets, PinEntry(m, i, j))
  {
    hide KeyForest, Represents, Clustering, Keys, ListedUpto, Charted, Noted, Alone, InNoNet, Nets;
    var sets := new KeyedSet<Key>();
    var labelAt := ChartWires(m, sets);
    labelAt := ChartLabels(m, sets, labelAt);
    labelAt := ChartPins(m, sets, labelAt);
    var names;
    names, c := NameClusters(m, sets, labelAt);
    ClusteringCovers(m, c);
    nets := ListAll(m, sets, names, c);
    PinsOfAlone(m);
    forall i, j | Alone(m, i, j)
      ensures InNoNet(nets, PinEntry(m, i, j))
    {
      AloneIsUnlisted(m, c, nets, i, j);
    }
  }

  /** The sets as they stay while pins are listed: only path halving happens. */
  ghost predicate Settled(sets: KeyedSet<Key>, c: Clusters)
    reads sets
  {
    sets.Valid() && sets.rep == c.rep && sets.parent.Keys == c.rep.Keys
  }

  method ListAll(m: Model, sets: KeyedSet<Key>, names: map<Key, string>, ghost c: Clusters)
    returns (nets: map<string, seq<Entry>>)
    requires Settled(sets, c) && names == c.name && CompKeys(m.comps) <= c.rep.Keys
    requires forall r :: r in c.name ==> c.name[r] != ""
    modifies sets
    ensures Covered(c, Views(m.comps)) && nets == Nets(c, Views(m.comps))
  {
    hide Settled, ListedUpto, Views, PinViews;
    var s := Progress(names, 1, map[]);
    NothingListed(c);
    for i := 0 to |m.comps|
      invariant Settled(sets, c) && ListedUpto(c, Views(m.comps[..i]), s)
    {
      ViewsSnoc(m.comps[..i], m.comps[i]);
      assert m.comps[..i] + [m.comps[i]] == m.comps[..i + 1];
      if m.comps[i].reference != "" && m.comps[i].reference[0] == '#' {
        continue;
      }
      s := ListPart(m, i, sets, s, c, Views(m.comps[..i]));
    }
    assert m.comps[..|m.comps|] == m.comps;
    nets := s.nets;
    ListedAll(c, Views(m.comps), s);
  }

  /** The pins of one part. */
  method ListPart(m: Model, i: nat, sets: KeyedSet<Key>, s: Progress, ghost c: Clusters, ghost views: seq<View>)
    returns (s': Progress)
    requires i < |m.comps| && Settled(sets, c) && ListedUpto(c, views, s) && CompKeys(m.comps) <= c.rep.Keys
    modifies sets
    ensures Settled(sets, c) && ListedUpto(c, views + PinViews(m.comps[i].reference, m.comps[i].pins), s')
  {
    hide ListedUpto, PinViews, CompKeys, CoordKey, KeyForest, Represents;
    var comp := m.comps[i];
    s' := s;
    NoPinViews(comp.reference);
    assert views + [] == views;
    for j := 0 to |comp.pins|
      invariant Settled(sets, c) && ListedUpto(c, views + PinViews(comp.reference, comp.pins[..j]), s')
    {
      var p := comp.pins[j];
      var v := View(comp.reference, p.number, p.x, p.y, p.net);
      PinIsKey(m.comps, i, j);
      ghost var before := PinViews(comp.reference, comp.pins[..j]);
      PinViewsSnoc(comp.reference, comp.pins[..j], p);
      assert comp.pins[..j] + [p] == comp.pins[..j + 1];
      assert views + (before + [v]) == views + before + [v];
      s' := ListPin(sets, v, s', c, views + before);
    }
    assert comp.pins[..|comp.pins|] == comp.pins;
  }

  lemma NoPinViews(reference: string)
    ensures PinViews(reference, []) == []
  {
  }

  lemma ListedAll(c: Clusters, views: seq<View>, s: Progress)
    requires ListedUpto(c, views, s)
    ensures Covered(c, views) && s.nets == Nets(c, views)
  {
  }

  lemma NothingListed(c: Clusters)
    requires forall r :: r in c.name ==> c.name[r] != ""
    ensures ListedUpto(c, Views([]), Progress(c.name, 1, map[]))
  {
  }

  lemma ClusteringCovers(m: Model, c: Clusters)
    requires Clustering(m, c)
    ensures CompKeys(m.comps) <= c.rep.Keys
    ensures forall r :: r in c.name ==> c.name[r] != ""
  {
    hide Represents, Names, NamedBy, WireEdges;
  }

  lemma ViewsSnoc(comps: seq<Comp>, c: Comp)
    ensures Views(comps + [c]) == if Listed(c) then Views(comps) + PinViews(c.reference, c.pins) else Views(comps)
  {
    assert (comps + [c])[..|comps|] == comps;
  }

  lemma PinViewsSnoc(reference: string, pins: seq<Pin>, p: Pin)
    ensures PinViews(reference, pins + [p]) == PinViews(reference, pins) + [View(reference, p.number, p.x, p.y, p.net)]
  {
    assert (pins + [p])[..|pins|] == pins;
  }
}

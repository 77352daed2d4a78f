/** Printing a schematic and reading it back keeps its netlist. */
module SchematicRoundTrip {
  import opened Closure
  import opened Sexp
  import opened SexpPrinting
  import opened Schematic
  import opened SchematicText
  import opened SchematicTrees
  import opened SchematicReading
  import NetlistBuilder

  // ---- Points --------------------------------------------------------------------------------

  lemma {:induction false} BackWireEdges(wires: seq<Wire>)
    ensures WireEdges(BackWires(wires)) == WireEdges(wires) && |BackWires(wires)| == |wires|
  {
    hide CoordKey;
    if wires != [] {
      var n := |wires| - 1;
      BackWireEdges(wires[..n]);
      assert BackWires(wires)[..n] == BackWires(wires[..n]);
    }
  }

  lemma LabelKeysSnoc(labels: seq<Label>, l: Label)
    ensures LabelKeys(labels + [l]) == LabelKeys(labels) + {CoordKey(l.x, l.y)}
  {
    assert (labels + [l])[..|labels|] == labels;
  }

  lemma {:induction false} LabelKeysConcat(a: seq<Label>, b: seq<Label>)
    ensures LabelKeys(a + b) == LabelKeys(a) + LabelKeys(b)
  {
    if b == [] {
      assert a + b == a;
    } else {
      hide CoordKey, LabelKeys;
      var n := |b| - 1;
      LabelKeysConcat(a, b[..n]);
      assert a + b == (a + b[..n]) + [b[n]] && b == b[..n] + [b[n]];
      LabelKeysSnoc(a + b[..n], b[n]);
      LabelKeysSnoc(b[..n], b[n]);
    }
  }

  lemma NoLabelKeys()
    ensures LabelKeys([]) == {}
  {
  }

  lemma {:induction false} BackLabelKeys(labels: seq<Label>)
    ensures LabelKeys(BackLabels(labels)) == LabelKeys(labels)
  {
    if labels != [] {
      var n := |labels| - 1;
      var l := labels[n];
      BackLabelKeys(labels[..n]);
      var plain, power := Label(Strip(l.name), l.x, l.y, l.angle, false), Label(Strip(l.name), l.x, l.y, l.angle, true);
      assert labels == labels[..n] + [l];
      LabelKeysSnoc(labels[..n], l);
      LabelKeysConcat(BackLabels(labels[..n]), BackLabel(l));
      assert BackLabel(l) == if l.isPower then [power] + [plain] else [] + [plain];
      hide LabelKeys, CoordKey;
      NoLabelKeys();
      LabelKeysSnoc([], plain);
      LabelKeysSnoc([], power);
      LabelKeysSnoc([power], plain);
      assert [] + [power] == [power];
    }
  }

  lemma {:induction false} NetLabelKeys(wires: seq<Wire>)
    ensures LabelKeys(NetLabels(wires)) <= EdgeKeys(WireEdges(wires))
  {
    if wires != [] {
      var n := |wires| - 1;
      var w := wires[n];
      NetLabelKeys(wires[..n]);
      var l := Label(Strip(w.net), w.x1, w.y1, 0, false);
      assert NetLabels(wires[..n]) + [] == NetLabels(wires[..n]);
      hide LabelKeys, CoordKey, EdgeKeys, Strip;
      LabelKeysSnoc(NetLabels(wires[..n]), l);
      NetlistBuilder.EdgeKeysSnoc(WireEdges(wires[..n]), CoordKey(w.x1, w.y1), CoordKey(w.x2, w.y2));
    }
  }

  lemma {:induction false} BackPinKeys(pins: seq<Pin>)
    ensures PinKeys(BackPins(pins)) == PinKeys(pins) && |BackPins(pins)| == |pins|
  {
    hide Strip, CoordKey;
    if pins != [] {
      var n := |pins| - 1;
      BackPinKeys(pins[..n]);
      assert BackPins(pins)[..n] == BackPins(pins[..n]);
    }
  }

  lemma {:induction false} BackCompKeys(comps: seq<Comp>)
    ensures CompKeys(BackComps(comps)) == CompKeys(comps) && |BackComps(comps)| == |comps|
  {
    hide SetProps, PinKeys;
    if comps != [] {
      var n := |comps| - 1;
      BackCompKeys(comps[..n]);
      BackPinKeys(comps[n].pins);
      assert BackComps(comps)[..n] == BackComps(comps[..n]);
    }
  }

  // ---- References ----------------------------------------------------------------------------

  /** The parts under the references they come back with. */
  function Renamed(comps: seq<Comp>): (r: seq<Comp>)
    ensures |r| == |comps| && forall i :: 0 <= i < |r| ==> r[i] == comps[i].(reference := Kept(comps[i]))
  {
    seq(|comps|, i requires 0 <= i < |comps| => comps[i].(reference := Kept(comps[i])))
  }

  function RenamedModel(m: Model): Model {
    m.(comps := Renamed(m.comps))
  }

  lemma RenamedLast(comps: seq<Comp>)
    requires comps != []
    ensures var n := |comps| - 1; Renamed(comps)[..n] == Renamed(comps[..n])
  {
    hide Kept;
  }

  lemma {:induction false} RenamedKeys(comps: seq<Comp>)
    ensures CompKeys(Renamed(comps)) == CompKeys(comps)
  {
    hide Kept, PinKeys;
    if comps != [] {
      RenamedKeys(comps[..|comps| - 1]);
      RenamedLast(comps);
    }
  }

  lemma RenamedNames(comps: seq<Comp>, k: Key, n: string)
    ensures CompNames(Renamed(comps), k, n) <==> CompNames(comps, k, n)
  {
    hide Kept, PinNames;
    if i :| 0 <= i < |comps| && PinNames(comps[i].pins, k, n) {
      assert PinNames(Renamed(comps)[i].pins, k, n);
    }
    if i :| 0 <= i < |comps| && PinNames(Renamed(comps)[i].pins, k, n) {
      assert PinNames(comps[i].pins, k, n);
    }
  }

  lemma ModelNames(m: Model, k: Key, n: string)
    ensures Names(RenamedModel(m), k, n) <==> Names(m, k, n)
  {
    RenamedNames(m.comps, k, n);
    hide CompNames, WireNames, LabelNames, Renamed;
  }

  lemma ModelKeys(m: Model)
    ensures Keys(RenamedModel(m)) == Keys(m) && RenamedModel(m).wires == m.wires
  {
    RenamedKeys(m.comps);
  }

  /** References play no part in how points are clustered and named. */
  lemma RenamedClustering(m: Model, c: Clusters)
    requires Clustering(m, c)
    ensures Clustering(RenamedModel(m), c)
  {
    ModelKeys(m);
    hide Names, Keys, Represents, RenamedModel, WireEdges;
    var m' := RenamedModel(m);
    forall r | r in c.name
      ensures NamedBy(m', c, r)
    {
      assert NamedBy(m, c, r);
      var k :| k in c.rep && c.rep[k] == r && Names(m, k, c.name[r]);
      ModelNames(m, k, c.name[r]);
    }
    forall k, n | Names(m', k, n)
      ensures k in c.rep && c.rep[k] in c.name
    {
      ModelNames(m, k, n);
    }
  }

  lemma RenamedOneName(m: Model)
    requires OneNamePerCluster(m)
    ensures OneNamePerCluster(RenamedModel(m))
  {
    ModelKeys(m);
    var m' := RenamedModel(m);
    hide Names, Linked, RenamedModel, Keys;
    forall j, k, a, b | Names(m', j, a) && Names(m', k, b) && Linked(WireEdges(m.wires), j, k)
      ensures a == b
    {
      ModelNames(m, j, a);
      ModelNames(m, k, b);
    }
  }

  lemma NothingRenamed(m: Model)
    requires forall i :: 0 <= i < |m.comps| ==> Kept(m.comps[i]) == m.comps[i].reference
    ensures RenamedModel(m) == m
  {
    hide Kept;
    assert Renamed(m.comps) == m.comps;
  }

  // ---- Pins ----------------------------------------------------------------------------------

  predicate PrintablePins(pins: seq<Pin>) {
    forall i :: 0 <= i < |pins| ==> Printable(pins[i].number) && Printable(pins[i].net)
  }

  lemma BackPinIsPin(p: Pin)
    requires Printable(p.number) && Printable(p.net)
    ensures BackPin(p).number == p.number && BackPin(p).net == p.net && BackPin(p).x == p.x && BackPin(p).y == p.y
  {
    StripKeeps(p.number);
    StripKeeps(p.net);
  }

  lemma {:induction false} BackPinViews(reference: string, pins: seq<Pin>)
    requires PrintablePins(pins)
    ensures PinViews(reference, BackPins(pins)) == PinViews(reference, pins) && |BackPins(pins)| == |pins|
  {
    hide Strip, Printable, BackPin;
    if pins != [] {
      var n := |pins| - 1;
      BackPinViews(reference, pins[..n]);
      BackPinIsPin(pins[n]);
      assert BackPins(pins)[..n] == BackPins(pins[..n]);
    }
  }

  predicate StorableParts(comps: seq<Comp>) {
    forall i :: 0 <= i < |comps| ==> StorablePart(comps[i])
  }

  lemma BackCompFacts(c: Comp)
    requires StorablePart(c)
    ensures BackComp(c).reference == Kept(c) && BackComp(c).pins == BackPins(c.pins) && PrintablePins(c.pins)
  {
    BackReference(c);
    StripKeeps(Kept(c));
  }

  lemma {:induction false} BackViews(comps: seq<Comp>)
    requires StorableParts(comps)
    ensures Views(BackComps(comps)) == Views(Renamed(comps)) && |BackComps(comps)| == |comps|
  {
    hide StorablePart, BackComp, PrintablePins, PinViews, Kept;
    if comps != [] {
      var n := |comps| - 1;
      BackViews(comps[..n]);
      BackCompFacts(comps[n]);
      BackPinViews(Kept(comps[n]), comps[n].pins);
      assert BackComps(comps)[..n] == BackComps(comps[..n]);
      RenamedLast(comps);
    }
  }

  // ---- Names ---------------------------------------------------------------------------------

  lemma {:induction false} LabelNamesConcat(a: seq<Label>, b: seq<Label>, k: Key, n: string)
    ensures LabelNames(a + b, k, n) <==> LabelNames(a, k, n) || LabelNames(b, k, n)
  {
    if b == [] {
      assert a + b == a;
    } else {
      hide LabelNames;
      var i := |b| - 1;
      LabelNamesConcat(a, b[..i], k, n);
      assert a + b == (a + b[..i]) + [b[i]] && b == b[..i] + [b[i]];
      NetlistBuilder.LabelNamesSnoc(a + b[..i], b[i], k, n);
      NetlistBuilder.LabelNamesSnoc(b[..i], b[i], k, n);
    }
  }

  lemma NoLabelNames(k: Key, n: string)
    ensures !LabelNames([], k, n)
  {
  }

  lemma {:induction false} BackLabelNames(labels: seq<Label>, k: Key, n: string)
    requires forall i :: 0 <= i < |labels| ==> Printable(labels[i].name)
    ensures LabelNames(BackLabels(labels), k, n) <==> LabelNames(labels, k, n)
  {
    hide LabelNames, Strip, Printable;
    if labels != [] {
      var i := |labels| - 1;
      var l := labels[i];
      BackLabelNames(labels[..i], k, n);
      StripKeeps(l.name);
      var plain, power := Label(Strip(l.name), l.x, l.y, l.angle, false), Label(Strip(l.name), l.x, l.y, l.angle, true);
      assert labels == labels[..i] + [l];
      NetlistBuilder.LabelNamesSnoc(labels[..i], l, k, n);
      LabelNamesConcat(BackLabels(labels[..i]), BackLabel(l), k, n);
      assert BackLabel(l) == if l.isPower then [power] + [plain] else [] + [plain];
      NoLabelNames(k, n);
      NetlistBuilder.LabelNamesSnoc([], plain, k, n);
      NetlistBuilder.LabelNamesSnoc([], power, k, n);
      NetlistBuilder.LabelNamesSnoc([power], plain, k, n);
      assert [] + [power] == [power];
    }
  }

  /** The labels of wire nets say nothing the wires did not say, and name the first end of every named wire. */
  lemma {:induction false} NetLabelNames(wires: seq<Wire>, k: Key, n: string)
    requires forall i :: 0 <= i < |wires| ==> Printable(wires[i].net)
    ensures LabelNames(NetLabels(wires), k, n) <==> exists i :: 0 <= i < |wires| && StartName(wires[i], k, n)
  {
    hide LabelNames, Strip, Printable, StartName;
    if wires == [] {
      NoLabelNames(k, n);
    } else {
      var j := |wires| - 1;
      var w := wires[j];
      NetLabelNames(wires[..j], k, n);
      StripKeeps(w.net);
      var l := Label(Strip(w.net), w.x1, w.y1, 0, false);
      assert NetLabels(wires[..j]) + [] == NetLabels(wires[..j]);
      NetlistBuilder.LabelNamesSnoc(NetLabels(wires[..j]), l, k, n);
      StartIsLabel(w, l, k, n);
      StartNamesSnoc(wires[..j], w, k, n);
      assert wires == wires[..j] + [w];
    }
  }

  predicate StartName(w: Wire, k: Key, n: string) {
    w.net != "" && w.net == n && k == CoordKey(w.x1, w.y1)
  }

  lemma StartIsLabel(w: Wire, l: Label, k: Key, n: string)
    requires l.name == w.net && l.x == w.x1 && l.y == w.y1
    ensures StartName(w, k, n) <==> LabelName(l, k, n)
    ensures StartName(w, k, n) ==> w.net != ""
  {
  }

  lemma StartNamesSnoc(wires: seq<Wire>, w: Wire, k: Key, n: string)
    ensures (exists i :: 0 <= i < |wires + [w]| && StartName((wires + [w])[i], k, n)) <==>
            (exists i :: 0 <= i < |wires| && StartName(wires[i], k, n)) || StartName(w, k, n)
  {
    hide StartName;
    var all := wires + [w];
    assert forall i :: 0 <= i < |wires| ==> all[i] == wires[i];
    assert all[|wires|] == w;
  }

  lemma {:induction false} BackWireNames(wires: seq<Wire>, k: Key, n: string)
    ensures !WireNames(BackWires(wires), k, n)
  {
    if wires != [] {
      var j := |wires| - 1;
      var w := wires[j];
      BackWireNames(wires[..j], k, n);
      hide WireNames;
      NetlistBuilder.WireNamesSnoc(BackWires(wires[..j]), Wire(w.x1, w.y1, w.x2, w.y2, ""), k, n);
    }
  }

  lemma {:induction false} BackPinNames(pins: seq<Pin>, k: Key, n: string)
    requires PrintablePins(pins)
    ensures PinNames(BackPins(pins), k, n) <==> PinNames(pins, k, n)
  {
    hide Strip, Printable, BackPin, PinNames;
    if pins != [] {
      var j := |pins| - 1;
      BackPinNames(pins[..j], k, n);
      BackPinIsPin(pins[j]);
      assert pins == pins[..j] + [pins[j]];
      NetlistBuilder.PinNamesSnoc(pins[..j], pins[j], k, n);
      NetlistBuilder.PinNamesSnoc(BackPins(pins[..j]), BackPin(pins[j]), k, n);
    }
  }

  lemma {:induction false} BackCompNames(comps: seq<Comp>, k: Key, n: string)
    requires StorableParts(comps)
    ensures CompNames(BackComps(comps), k, n) <==> CompNames(comps, k, n)
  {
    hide StorablePart, BackComp, PrintablePins, CompNames;
    if comps != [] {
      var j := |comps| - 1;
      BackCompNames(comps[..j], k, n);
      BackCompFacts(comps[j]);
      BackPinNames(comps[j].pins, k, n);
      assert comps == comps[..j] + [comps[j]];
      NetlistBuilder.CompNamesSnoc(comps[..j], comps[j], k, n);
      NetlistBuilder.CompNamesSnoc(BackComps(comps[..j]), BackComp(comps[j]), k, n);
    }
  }

  // ---- The circuit ---------------------------------------------------------------------------

  /** What names a point after reading back. */
  lemma BackNames(m: Model, k: Key, n: string)
    requires Storable(m)
    ensures Names(ReadBack(m), k, n) <==>
            LabelNames(m.labels, k, n) || (exists i :: 0 <= i < |m.wires| && StartName(m.wires[i], k, n)) ||
            CompNames(m.comps, k, n)
  {
    hide StorablePart, Printable, LabelNames, CompNames, WireNames, StartName;
    BackWireNames(m.wires, k, n);
    LabelNamesConcat(BackLabels(m.labels), NetLabels(m.wires), k, n);
    BackLabelNames(m.labels, k, n);
    NetLabelNames(m.wires, k, n);
    BackCompNames(m.comps, k, n);
  }

  /** A wire's name at its second end is still found at its first. */
  lemma NamesStayNearby(m: Model, k: Key, n: string)
    requires Storable(m) && Names(m, k, n)
    ensures NamedNearby(ReadBack(m), k, n)
  {
    BackWireEdges(m.wires);
    hide Storable, CoordKey, ReadBack, Linked, WireEdges;
    assert WireEdges(ReadBack(m).wires) == WireEdges(m.wires) by { SameWires(m); }
    if WireNames(m.wires, k, n) {
      var i :| 0 <= i < |m.wires| && WireName(m.wires[i], k, n);
      var w := m.wires[i];
      var j := CoordKey(w.x1, w.y1);
      assert StartName(m.wires[i], j, n);
      BackNames(m, j, n);
      WireIsEdge(m.wires, i);
      LinkedRefl(WireEdges(m.wires), k);
      LinkedEdge(WireEdges(m.wires), CoordKey(w.x2, w.y2), j);
      hide Names;
      assert Linked(WireEdges(m.wires), k, j);
    } else {
      BackNames(m, k, n);
      LinkedRefl(WireEdges(m.wires), k);
      hide Names;
    }
  }

  lemma SameWires(m: Model)
    ensures WireEdges(ReadBack(m).wires) == WireEdges(m.wires)
  {
    BackWireEdges(m.wires);
  }

  lemma {:induction false} WireIsEdge(wires: seq<Wire>, i: nat)
    requires i < |wires|
    ensures (CoordKey(wires[i].x1, wires[i].y1), CoordKey(wires[i].x2, wires[i].y2)) in WireEdges(wires)
  {
    hide CoordKey;
    if i < |wires| - 1 {
      WireIsEdge(wires[..|wires| - 1], i);
    }
  }

  lemma NamesWereThere(m: Model, k: Key, n: string)
    requires Storable(m) && Names(ReadBack(m), k, n)
    ensures Names(m, k, n)
  {
    hide Storable, ReadBack, LabelNames, CompNames;
    BackNames(m, k, n);
    if i :| 0 <= i < |m.wires| && StartName(m.wires[i], k, n) {
      assert WireName(m.wires[i], k, n);
    }
  }

  lemma SameKeys(m: Model)
    ensures Keys(ReadBack(m)) == Keys(m)
  {
    hide EdgeKeys, LabelKeys, CompKeys;
    BackWireEdges(m.wires);
    LabelKeysConcat(BackLabels(m.labels), NetLabels(m.wires));
    BackLabelKeys(m.labels);
    NetLabelKeys(m.wires);
    BackCompKeys(m.comps);
  }

  /** Printing and reading back leaves the circuit as it was, with parts under the references that prevail. */
  lemma BackIsSameCircuit(m: Model)
    requires Storable(m)
    ensures SameCircuit(RenamedModel(m), ReadBack(m))
  {
    hide Keys, Names, NamedNearby, StorablePart, Renamed;
    SameWires(m);
    SameKeys(m);
    ModelKeys(m);
    BackViews(m.comps);
    assert RenamedModel(m).comps == Renamed(m.comps);
    hide ReadBack, RenamedModel;
    forall k, n | Names(ReadBack(m), k, n)
      ensures Names(RenamedModel(m), k, n)
    {
      NamesWereThere(m, k, n);
      ModelNames(m, k, n);
    }
    forall k, n | Names(RenamedModel(m), k, n)
      ensures NamedNearby(ReadBack(m), k, n)
    {
      ModelNames(m, k, n);
      NamesStayNearby(m, k, n);
    }
  }

  // ---- End to end ----------------------------------------------------------------------------

  method SaveAndReload(m: Model, defaults: DefaultPins) returns (r: Result, back: Model)
    requires Storable(m)
    ensures r.Ok? && back == ReadBack(m) && SameCircuit(RenamedModel(m), back)
  {
    hide SameCircuit, SchematicDoc, SchematicNode, Read, ReadBack, Render;
    KindsOf(m);
    var text := SerializeSchematic(m);
    PrintedSchematicReads(m);
    r := Parse(text);
    hide Meaning;
    ReadsBack(m, defaults);
    back := ExtractSchematic(r.root, defaults);
    BackIsSameCircuit(m);
  }

  lemma KindsOf(m: Model)
    requires Storable(m)
    ensures forall i :: 0 <= i < |m.comps| ==> KindsAreWords(m.comps[i])
  {
    hide KindsAreWords, Kept, Printable;
    assert forall i :: 0 <= i < |m.comps| ==> StorablePart(m.comps[i]);
  }

  /** The netlist built after reloading is the one built before saving, with parts under the references that
      prevail among their properties; where every part keeps its reference the two are the same. */
  method NetlistsAroundSave(m: Model, defaults: DefaultPins)
    returns (before: map<string, seq<Entry>>, after: map<string, seq<Entry>>, ghost c: Clusters)
    requires Storable(m) && OneNamePerCluster(m)
    ensures Clustering(m, c) && Covered(c, Views(m.comps)) && before == Nets(c, Views(m.comps))
    ensures Covered(c, Views(Renamed(m.comps))) && after == Nets(c, Views(Renamed(m.comps)))
    ensures (forall i :: 0 <= i < |m.comps| ==> Kept(m.comps[i]) == m.comps[i].reference) ==> after == before
  {
    hide Clustering, Covered, Nets, OneNamePerCluster, SameCircuit, Views, Storable, ReadBack, Kept;
    before, c := NetlistBuilder.BuildNetlist(m);
    var r, back := SaveAndReload(m, defaults);
    ghost var d;
    after, d := NetlistBuilder.BuildNetlist(back);
    RenamedClustering(m, c);
    RenamedOneName(m);
    SameCover(RenamedModel(m), back, c, d);
    SameNetlist(RenamedModel(m), back, c, d);
    if forall i :: 0 <= i < |m.comps| ==> Kept(m.comps[i]) == m.comps[i].reference {
      NothingRenamed(m);
    }
  }

  function EntryOf(v: View): Entry {
    Entry(v.reference, v.number, v.x, v.y)
  }

  /** A pin with a net of its own is listed under it. */
  lemma {:induction false} OwnNetListed(c: Clusters, views: seq<View>, i: nat)
    requires Covered(c, views) && i < |views| && views[i].net != ""
    ensures views[i].net in Nets(c, views) && EntryOf(views[i]) in Nets(c, views)[views[i].net]
  {
    hide Autos, Shared;
    var n := |views| - 1;
    if i < n {
      assert Covered(c, views[..n]);
      OwnNetListed(c, views[..n], i);
    }
  }

  function ViewOf(reference: string, p: Pin): View {
    View(reference, p.number, p.x, p.y, p.net)
  }

  lemma {:induction false} PinIsViewed(reference: string, pins: seq<Pin>, j: nat)
    requires j < |pins|
    ensures ViewOf(reference, pins[j]) in PinViews(reference, pins)
  {
    if j < |pins| - 1 {
      PinIsViewed(reference, pins[..|pins| - 1], j);
    }
  }

  lemma {:induction false} PartIsViewed(comps: seq<Comp>, i: nat, j: nat)
    requires i < |comps| && j < |comps[i].pins| && Listed(comps[i])
    ensures ViewOf(comps[i].reference, comps[i].pins[j]) in Views(comps)
  {
    hide PinViews, Listed;
    if i < |comps| - 1 {
      PartIsViewed(comps[..|comps| - 1], i, j);
    } else {
      PinIsViewed(comps[i].reference, comps[i].pins, j);
    }
  }

  lemma ViewedPinListed(c: Clusters, comps: seq<Comp>, i: nat, j: nat)
    requires Covered(c, Views(comps)) && i < |comps| && j < |comps[i].pins| && Listed(comps[i])
    requires comps[i].pins[j].net != ""
    ensures var v := ViewOf(comps[i].reference, comps[i].pins[j]);
            v.net in Nets(c, Views(comps)) && EntryOf(v) in Nets(c, Views(comps))[v.net]
  {
    PartIsViewed(comps, i, j);
    hide Views, Nets, Listed;
    var v := ViewOf(comps[i].reference, comps[i].pins[j]);
    var views := Views(comps);
    var k :| 0 <= k < |views| && views[k] == v;
    OwnNetListed(c, views, k);
  }

  /** Every pin with a net of its own moves, in that net, from its part's reference to the one that prevails. */
  lemma EntriesMove(m: Model, c: Clusters, i: nat, j: nat)
    requires Covered(c, Views(m.comps)) && Covered(c, Views(Renamed(m.comps))) && i < |m.comps| && j < |m.comps[i].pins|
    requires Listed(m.comps[i]) && Listed(Renamed(m.comps)[i]) && m.comps[i].pins[j].net != ""
    ensures var p := m.comps[i].pins[j];
            var before, after := Nets(c, Views(m.comps)), Nets(c, Views(Renamed(m.comps)));
            && p.net in before && Entry(m.comps[i].reference, p.number, p.x, p.y) in before[p.net]
            && p.net in after && Entry(Kept(m.comps[i]), p.number, p.x, p.y) in after[p.net]
  {
    hide Views, Nets, Covered, Kept, Listed;
    ViewedPinListed(c, m.comps, i, j);
    ViewedPinListed(c, Renamed(m.comps), i, j);
  }

  lemma SameCover(m: Model, m': Model, c: Clusters, d: Clusters)
    requires SameCircuit(m, m') && Clustering(m, c) && Clustering(m', d) && Covered(d, Views(m'.comps))
    ensures Covered(c, Views(m.comps))
  {
    SameParts(m, m');
    SameDomain(m, m', c, d);
    hide SameCircuit, Clustering, ViewKey, Views;
  }

  // ---- A part that comes back under another name ---------------------------------------------

  /** A part `R1` that was given an extra property called Reference, with one pin on the net GND. */
  const TWICE_NAMED: Comp := Comp("R1", "10k", "Device:R", "", "", 0, 0, 0, [("Reference", "R9")],
                                  [Pin("1", "1", "passive", 0, 0, "GND")])

  lemma TwiceNamed()
    ensures Kept(TWICE_NAMED) == "R9" && Storable(Model([TWICE_NAMED], [], []))
    ensures BackComp(TWICE_NAMED).reference == "R9"
  {
    hide Strip, BackComp, Escape, Kept, KindsAreWords;
    PrevailingTwice();
    BackReference(TWICE_NAMED);
    StripKeeps("R9");
    PassivePins();
  }

  lemma PrevailingTwice()
    ensures Kept(TWICE_NAMED) == "R9"
  {
    hide Strip;
    FixedKeys();
    assert TWICE_NAMED.extra[..0] == [];
  }

  lemma PassivePins()
    ensures KindsAreWords(TWICE_NAMED)
  {
    hide Escape;
    EscapePlain("passive");
  }

  lemma {:induction false} EscapePlain(s: string)
    requires forall i :: 0 <= i < |s| ==> !NeedsBackslash(s[i]) && !Dropped(s[i])
    ensures Escape(s) == s
  {
    if s != "" {
      var n := |s| - 1;
      EscapePlain(s[..n]);
      assert s == s[..n] + [s[n]];
      assert Escape(s) == Escape(s[..n]) + ([] + [s[n]]);
    }
  }

  lemma OnlyGround()
    ensures OneNamePerCluster(Model([TWICE_NAMED], [], []))
  {
    var m := Model([TWICE_NAMED], [], []);
    forall k, n | Names(m, k, n)
      ensures n == "GND"
    {
    }
    hide Names, Linked;
  }

  lemma {:induction false} OneEntry(c: Clusters, reference: string)
    requires ViewKey(View(reference, "1", 0, 0, "GND")) in c.rep
    ensures Nets(c, [View(reference, "1", 0, 0, "GND")]) == map["GND" := [Entry(reference, "1", 0, 0)]]
  {
    var v := View(reference, "1", 0, 0, "GND");
    assert [v][..0] == [];
    assert Nets(c, []) == map[];
    assert NetName(c, Autos(c, [v]), v) == "GND";
    assert Nets(c, [v]) == Listing(map[], "GND", v);
    assert [] + [Entry(reference, "1", 0, 0)] == [Entry(reference, "1", 0, 0)];
  }

  /** Saving and reloading that part moves its pin from `R1` to `R9` in the netlist. */
  method SaveTwiceNamed(defaults: DefaultPins) returns (before: map<string, seq<Entry>>, after: map<string, seq<Entry>>)
    ensures before == map["GND" := [Entry("R1", "1", 0, 0)]]
    ensures after == map["GND" := [Entry("R9", "1", 0, 0)]]
  {
    var m := Model([TWICE_NAMED], [], []);
    TwiceNamed();
    OnlyGround();
    ghost var c;
    before, after, c := NetlistsAroundSave(m, defaults);
    OneView(m.comps);
    OneView(Renamed(m.comps));
    OneEntry(c, "R1");
    OneEntry(c, "R9");
  }

  lemma {:induction false} OneView(comps: seq<Comp>)
    requires |comps| == 1 && comps[0].pins == TWICE_NAMED.pins && comps[0].reference in {"R1", "R9"}
    ensures Views(comps) == [View(comps[0].reference, "1", 0, 0, "GND")]
  {
    assert comps[..0] == [];
    var pins := TWICE_NAMED.pins;
    assert pins[..0] == [];
    assert PinViews(comps[0].reference, pins) == [View(comps[0].reference, "1", 0, 0, "GND")];
  }
}

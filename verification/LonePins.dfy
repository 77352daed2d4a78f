/** Which points the netlist takes for one, and why a pin that nothing comes near is in no net. */
module LonePins {
  import opened Basics
  import opened Closure
  import opened Decimals
  import opened Schematic

  // ---- Points --------------------------------------------------------------------------------

  /** Less than a hundredth of a millimetre apart in both coordinates. */
  predicate Near(x: int, y: int, x': int, y': int) {
    Abs(x - x') < 100 && Abs(y - y') < 100
  }

  /** A point's key is its nearest point of the grid of hundredths of a millimetre, in both coordinates. */
  lemma KeyIsNearest(x: int, y: int)
    ensures var k := CoordKey(x, y); Abs(x - 100 * k.0) <= 50 && Abs(y - 100 * k.1) <= 50
    ensures Abs(x) < 50 ==> CoordKey(x, y).0 == 0
    ensures CoordKey(-x, -y) == (-CoordKey(x, y).0, -CoordKey(x, y).1)
  {
  }

  /** Points with one key are near. */
  lemma OneKeyIsNear(x: int, y: int, x': int, y': int)
    requires CoordKey(x, y) == CoordKey(x', y')
    ensures Near(x, y, x', y')
  {
  }

  // ---- A pin that nothing comes near -----------------------------------------------------------

  predicate IsPin(m: Model, i: int, j: int) {
    0 <= i < |m.comps| && 0 <= j < |m.comps[i].pins|
  }

  /** Pin `j` of part `i` has no net of its own, and no wire end, label or other pin is near it. */
  ghost predicate Alone(m: Model, i: int, j: int) {
    && IsPin(m, i, j)
    && var p := m.comps[i].pins[j];
       && p.net == ""
       && (forall w :: w in m.wires ==> !Near(w.x1, w.y1, p.x, p.y) && !Near(w.x2, w.y2, p.x, p.y))
       && (forall l :: l in m.labels ==> !Near(l.x, l.y, p.x, p.y))
       && forall i', j' :: IsPin(m, i', j') && (i' != i || j' != j) ==>
            !Near(m.comps[i'].pins[j'].x, m.comps[i'].pins[j'].y, p.x, p.y)
  }

  lemma PinsOfAlone(m: Model)
    ensures forall i, j :: Alone(m, i, j) ==> IsPin(m, i, j)
  {
  }

  ghost predicate InNoNet(nets: map<string, seq<Entry>>, e: Entry) {
    forall name :: name in nets ==> e !in nets[name]
  }

  function PinEntry(m: Model, i: int, j: int): Entry
    requires IsPin(m, i, j)
  {
    var p := m.comps[i].pins[j];
    Entry(m.comps[i].reference, p.number, p.x, p.y)
  }

  lemma {:induction false} EdgeHasWire(wires: seq<Wire>, e: (Key, Key))
    requires e in WireEdges(wires)
    ensures exists w :: w in wires && e == (CoordKey(w.x1, w.y1), CoordKey(w.x2, w.y2))
  {
    hide CoordKey;
    var n := |wires| - 1;
    if e in WireEdges(wires[..n]) {
      EdgeHasWire(wires[..n], e);
      var w :| w in wires[..n] && e == (CoordKey(w.x1, w.y1), CoordKey(w.x2, w.y2));
      assert w in wires;
    } else {
      assert wires[n] in wires;
    }
  }

  /** Only its own key is linked to a key that no wire ends at. */
  lemma LoneKey(m: Model, k: Key, a: Key)
    requires forall w :: w in m.wires ==> CoordKey(w.x1, w.y1) != k && CoordKey(w.x2, w.y2) != k
    requires Linked(WireEdges(m.wires), k, a)
    ensures a == k
  {
    hide CoordKey, WireEdges;
    var p :| Chain(WireEdges(m.wires), p) && p[0] == k && p[|p| - 1] == a;
    if |p| > 1 {
      assert Adjacent(WireEdges(m.wires), p[0], p[0 + 1]);
      var e := if (p[0], p[1]) in WireEdges(m.wires) then (p[0], p[1]) else (p[1], p[0]);
      EdgeHasWire(m.wires, e);
    }
  }

  lemma AloneHasOwnKey(m: Model, i: int, j: int)
    requires Alone(m, i, j)
    ensures var k := PinKey(m.comps[i].pins[j]);
            && (forall w :: w in m.wires ==> CoordKey(w.x1, w.y1) != k && CoordKey(w.x2, w.y2) != k)
            && (forall l :: l in m.labels ==> CoordKey(l.x, l.y) != k)
            && forall i', j' :: IsPin(m, i', j') && (i' != i || j' != j) ==> PinKey(m.comps[i'].pins[j']) != k
  {
    hide CoordKey, Near;
    var p := m.comps[i].pins[j];
    forall w | w in m.wires
      ensures CoordKey(w.x1, w.y1) != PinKey(p) && CoordKey(w.x2, w.y2) != PinKey(p)
    {
      if CoordKey(w.x1, w.y1) == PinKey(p) {
        OneKeyIsNear(w.x1, w.y1, p.x, p.y);
      }
      if CoordKey(w.x2, w.y2) == PinKey(p) {
        OneKeyIsNear(w.x2, w.y2, p.x, p.y);
      }
    }
    forall l | l in m.labels
      ensures CoordKey(l.x, l.y) != PinKey(p)
    {
      if CoordKey(l.x, l.y) == PinKey(p) {
        OneKeyIsNear(l.x, l.y, p.x, p.y);
      }
    }
    forall i', j' | IsPin(m, i', j') && (i' != i || j' != j)
      ensures PinKey(m.comps[i'].pins[j']) != PinKey(p)
    {
      var q := m.comps[i'].pins[j'];
      if PinKey(q) == PinKey(p) {
        OneKeyIsNear(q.x, q.y, p.x, p.y);
      }
    }
  }

  /** Its cluster is one point without a name. */
  lemma AloneIsNameless(m: Model, c: Clusters, i: int, j: int)
    requires Clustering(m, c) && Alone(m, i, j) && PinKey(m.comps[i].pins[j]) in c.rep
    ensures var r := c.rep[PinKey(m.comps[i].pins[j])]; !Shared(c, r) && ClusterName(c, r) == ""
  {
    hide CoordKey, PinKey, Near, WireEdges, Keys, Linked;
    var k := PinKey(m.comps[i].pins[j]);
    var r := c.rep[k];
    AloneHasOwnKey(m, i, j);
    assert m.comps[i].pins[j].net == "";
    hide Alone;
    forall a | a in c.rep && c.rep[a] == r
      ensures a == k
    {
      LoneKey(m, k, a);
    }
    if r in c.name {
      assert NamedBy(m, c, r);
      assert Names(m, k, c.name[r]);
      NamedHere(m, k, c.name[r]);
    }
  }

  lemma NamedHere(m: Model, k: Key, name: string)
    requires Names(m, k, name)
    ensures || (exists w :: w in m.wires && (CoordKey(w.x1, w.y1) == k || CoordKey(w.x2, w.y2) == k))
            || (exists l :: l in m.labels && CoordKey(l.x, l.y) == k)
            || exists i, j :: IsPin(m, i, j) && PinKey(m.comps[i].pins[j]) == k && m.comps[i].pins[j].net != ""
  {
    hide CoordKey, PinKey;
    if WireNames(m.wires, k, name) {
      var i :| 0 <= i < |m.wires| && WireName(m.wires[i], k, name);
      assert m.wires[i] in m.wires;
    } else if LabelNames(m.labels, k, name) {
      var i :| 0 <= i < |m.labels| && LabelName(m.labels[i], k, name);
      assert m.labels[i] in m.labels;
    } else {
      var i :| 0 <= i < |m.comps| && PinNames(m.comps[i].pins, k, name);
      var j :| 0 <= j < |m.comps[i].pins| && PinName(m.comps[i].pins[j], k, name);
      assert IsPin(m, i, j);
    }
  }

  // ---- Entries and pins ------------------------------------------------------------------------

  lemma {:induction false} AutoIsShared(c: Clusters, views: seq<View>, r: Key)
    requires forall i :: 0 <= i < |views| ==> ViewKey(views[i]) in c.rep
    requires r in Autos(c, views)
    ensures Shared(c, r)
  {
    hide ViewKey, AutoName, Shared;
    if r in Autos(c, views[..|views| - 1]) {
      AutoIsShared(c, views[..|views| - 1], r);
    }
  }

  /** An entry of a net stands for a pin that has a name. */
  lemma {:induction false} EntryHasView(c: Clusters, views: seq<View>, name: string, e: Entry) returns (i: nat)
    requires forall i :: 0 <= i < |views| ==> ViewKey(views[i]) in c.rep
    requires name in Nets(c, views) && e in Nets(c, views)[name]
    ensures i < |views| && e == Entry(views[i].reference, views[i].number, views[i].x, views[i].y)
    ensures NetName(c, Autos(c, views[..i + 1]), views[i]) == name != ""
  {
    hide ViewKey, NetName, Autos;
    var n := |views| - 1;
    var before := Nets(c, views[..n]);
    if name in before && e in before[name] {
      i := EntryHasView(c, views[..n], name, e);
      assert views[..n][..i + 1] == views[..i + 1] && views[..n][i] == views[i];
    } else {
      i := n;
      assert views[..n + 1] == views;
    }
  }

  lemma {:induction false} ViewHasPin(m: Model, comps: seq<Comp>, k: nat) returns (i: int, j: int)
    requires comps <= m.comps && k < |Views(comps)|
    ensures IsPin(m, i, j)
    ensures var p, v := m.comps[i].pins[j], Views(comps)[k];
            v == View(m.comps[i].reference, p.number, p.x, p.y, p.net)
  {
    var n := |comps| - 1;
    if k < |Views(comps[..n])| {
      i, j := ViewHasPin(m, comps[..n], k);
    } else {
      i := n;
      j := PinOfView(comps[n].reference, comps[n].pins, k - |Views(comps[..n])|);
    }
  }

  lemma {:induction false} PinOfView(reference: string, pins: seq<Pin>, k: nat) returns (j: nat)
    requires k < |PinViews(reference, pins)|
    ensures j < |pins|
    ensures PinViews(reference, pins)[k] == View(reference, pins[j].number, pins[j].x, pins[j].y, pins[j].net)
  {
    var n := |pins| - 1;
    if k < |PinViews(reference, pins[..n])| {
      j := PinOfView(reference, pins[..n], k);
    } else {
      j := n;
    }
  }

  /** A pin without a net of its own that nothing comes near is in no net. */
  lemma AloneIsUnlisted(m: Model, c: Clusters, nets: map<string, seq<Entry>>, i: int, j: int)
    requires Clustering(m, c) && Alone(m, i, j)
    requires forall k :: 0 <= k < |Views(m.comps)| ==> ViewKey(Views(m.comps)[k]) in c.rep
    requires nets == Nets(c, Views(m.comps))
    ensures InNoNet(nets, PinEntry(m, i, j))
  {
    hide Clustering, CoordKey, Nets, Views, Shared, ClusterName;
    var e, views := PinEntry(m, i, j), Views(m.comps);
    forall name | name in nets
      ensures e !in nets[name]
    {
      if e in nets[name] {
        var k := EntryHasView(c, views, name, e);
        var i', j' := ViewHasPin(m, m.comps, k);
        assert i' == i && j' == j;
        var r := c.rep[ViewKey(views[k])];
        AloneIsNameless(m, c, i, j);
        if r in Autos(c, views[..k + 1]) {
          AutoIsShared(c, views[..k + 1], r);
        }
      }
    }
  }

  // ---- Made-up names ---------------------------------------------------------------------------

  /** The text ends with an underscore, these digits and a bracket. */
  ghost predicate EndsIn(x: string, digits: string) {
    var m := |digits|;
    AllDigits(digits) && |x| >= m + 2 && x[|x| - 1 - m..|x| - 1] == digits && x[|x| - 2 - m] == '_'
  }

  lemma NoDigitsFurther(x: string, digits: string, n: nat)
    requires EndsIn(x, digits) && |digits| < n <= |x| - 2
    ensures !AllDigits(x[|x| - 1 - n..|x| - 1])
  {
    var longer := x[|x| - 1 - n..|x| - 1];
    assert longer[n - 1 - |digits|] == '_';
  }

  lemma OneNumber(x: string, d: string, e: string)
    requires EndsIn(x, d) && EndsIn(x, e)
    ensures d == e
  {
    if |d| < |e| {
      NoDigitsFurther(x, d, |e|);
    } else if |e| < |d| {
      NoDigitsFurther(x, e, |d|);
    }
  }

  lemma NumberAtEnd(v: View, a: nat)
    ensures EndsIn(AutoName(v, a), Decimal(a))
  {
    hide Decimal;
  }

  /** Names made up with different numbers differ, whatever the parts and pins are called. */
  lemma MadeUpNamesDiffer(v: View, w: View, a: nat, b: nat)
    requires a != b
    ensures AutoName(v, a) != AutoName(w, b)
  {
    hide AutoName, Decimal, EndsIn;
    NumberAtEnd(v, a);
    NumberAtEnd(w, b);
    if AutoName(v, a) == AutoName(w, b) {
      OneNumber(AutoName(v, a), Decimal(a), Decimal(b));
    }
  }

  lemma {:induction false} MadeUpNumber(c: Clusters, views: seq<View>, r: Key) returns (v: View, a: nat)
    requires forall i :: 0 <= i < |views| ==> ViewKey(views[i]) in c.rep
    requires r in Autos(c, views)
    ensures a <= |Autos(c, views)| && Autos(c, views)[r] == AutoName(v, a)
  {
    hide ViewKey, AutoName, Shared;
    var n := |views| - 1;
    var before := Autos(c, views[..n]);
    if r in before {
      v, a := MadeUpNumber(c, views[..n], r);
    } else {
      v, a := views[n], |before| + 1;
    }
  }

  /** Two clusters never share a made-up name. */
  lemma {:induction false} MadeUpOncePerCluster(c: Clusters, views: seq<View>, r: Key, s: Key)
    requires forall i :: 0 <= i < |views| ==> ViewKey(views[i]) in c.rep
    requires r in Autos(c, views) && s in Autos(c, views) && r != s
    ensures Autos(c, views)[r] != Autos(c, views)[s]
  {
    hide ViewKey, AutoName, Shared;
    var n := |views| - 1;
    var before := Autos(c, views[..n]);
    if r in before && s in before {
      MadeUpOncePerCluster(c, views[..n], r, s);
    } else {
      var old_ := if r in before then r else s;
      var v, a := MadeUpNumber(c, views[..n], old_);
      MadeUpNamesDiffer(v, views[n], a, |before| + 1);
    }
  }
}

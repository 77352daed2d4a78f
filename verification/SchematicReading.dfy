/** Reading a schematic out of a parsed tree, and what is left of a schematic that was printed and read back. */
module SchematicReading {
  import opened Sexp
  import opened SexpPrinting
  import opened Decimals
  import opened Schematic
  import opened SchematicText
  import opened SchematicTrees

  // ---- Looking into trees --------------------------------------------------------------------

  function TextOf(n: Node): string {
    if n.Atom? then n.text else ""
  }

  /** The first atom of a list. */
  function HeadOf(n: Node): string {
    if n.List? && n.children != [] then TextOf(n.children[0]) else ""
  }

  /** The lists among `ns` that start with `h`. */
  function WithHead(ns: seq<Node>, h: string): seq<Node> {
    if ns == [] then []
    else
      var n := ns[|ns| - 1];
      WithHead(ns[..|ns| - 1], h) + (if n.List? && HeadOf(n) == h then [n] else [])
  }

  datatype Found = Absent | Found(children: seq<Node>)

  /** The children of the first list that starts with `h`. */
  function Child(ns: seq<Node>, h: string): Found {
    var all := WithHead(ns, h);
    if all != [] && all[0].List? then Found(all[0].children) else Absent
  }

  function Coordinate(at: Found, i: nat, least: nat, other: int): int {
    if at.Found? && |at.children| >= least && i < |at.children| then ToUnits(TextOf(at.children[i])) else other
  }

  // ---- Reading parts -------------------------------------------------------------------------

  /** Stands in for a part without pins: the pins of its library symbol, or made-up ones. */
  type DefaultPins = (string, int, int) -> seq<Pin>

  function SetExtra(extra: seq<(string, string)>, k: string, v: string): seq<(string, string)> {
    if extra == [] then [(k, v)]
    else if extra[0].0 == k then [(k, v)] + extra[1..]
    else [extra[0]] + SetExtra(extra[1..], k, v)
  }

  function SetProp(c: Comp, k: string, v: string): Comp {
    if k == "Reference" then c.(reference := v)
    else if k == "Value" then c.(value := v)
    else if k == "Footprint" then c.(footprint := v)
    else if k == "LCSC" then c.(lcsc := v)
    else c.(extra := SetExtra(c.extra, k, v))
  }

  function ReadProp(c: Comp, n: Node): Comp {
    if n.List? && |n.children| >= 3 then SetProp(c, TextOf(n.children[1]), TextOf(n.children[2])) else c
  }

  function ReadProps(c: Comp, ns: seq<Node>): Comp {
    if ns == [] then c else ReadProp(ReadProps(c, ns[..|ns| - 1]), ns[|ns| - 1])
  }

  function ReadPin(n: Node, x: int, y: int): seq<Pin> {
    if n.List? && |n.children| >= 2 then
      var number, at, net := TextOf(n.children[1]), Child(n.children, "at"), Child(n.children, "net");
      [Pin(number, number, "passive", Coordinate(at, 1, 3, x), Coordinate(at, 2, 3, y),
           if net.Found? && |net.children| >= 2 then TextOf(net.children[1]) else "")]
    else []
  }

  function ReadPins(ns: seq<Node>, x: int, y: int): seq<Pin> {
    if ns == [] then [] else ReadPins(ns[..|ns| - 1], x, y) + ReadPin(ns[|ns| - 1], x, y)
  }

  const BLANK_PART := Comp("", "", "Device:R", "Resistor_SMD:R_0603_1608Metric", "", 0, 0, 0, [], [])

  function ReadComp(children: seq<Node>, defaults: DefaultPins): Comp {
    var lib, at := Child(children, "lib_id"), Child(children, "at");
    var placed :=
          BLANK_PART.(libId := if lib.Found? && |lib.children| >= 2 then TextOf(lib.children[1]) else "Device:R",
                              x := Coordinate(at, 1, 3, 0), y := Coordinate(at, 2, 3, 0),
                                rotation := Coordinate(at, 3, 4, 0));
    var c := ReadProps(placed, WithHead(children, "property"));
    var pins := ReadPins(WithHead(children, "pin"), c.x, c.y);
    c.(pins := if pins == [] then defaults(c.libId, c.x, c.y) else pins)
  }

  function ReadWire(children: seq<Node>): seq<Wire> {
    var pts := Child(children, "pts");
    if pts.Absent? then []
    else
      var xys := WithHead(pts.children, "xy");
      if |xys| >= 2 && xys[0].List? && xys[1].List? && |xys[0].children| >= 3 && |xys[1].children| >= 3 then
        [Wire(ToUnits(TextOf(xys[0].children[1])), ToUnits(TextOf(xys[0].children[2])),
              ToUnits(TextOf(xys[1].children[1])), ToUnits(TextOf(xys[1].children[2])), "")]
      else []
  }

  function ReadLabel(h: string, children: seq<Node>): seq<Label> {
    if |children| >= 2 then
      var at := Child(children, "at");
      [Label(TextOf(children[1]), Coordinate(at, 1, 3, 0), Coordinate(at, 2, 3, 0), Coordinate(at, 3, 4, 0), h ==
             "power_port")]
    else []
  }

  /** What one child of the root adds. */
  function ReadPart(n: Node, defaults: DefaultPins): Model {
    var h := HeadOf(n);
    if !n.List? then Model([], [], [])
    else if h == "symbol" then
      var c := ReadComp(n.children, defaults);
      Model(if c.reference == "" then [] else [c], [], [])
    else if h == "wire" then Model([], ReadWire(n.children), [])
    else if h == "label" || h == "global_label" || h == "power_port" then Model([], [], ReadLabel(h, n.children))
    else Model([], [], [])
  }

  function Join(a: Model, b: Model): Model {
    Model(a.comps + b.comps, a.wires + b.wires, a.labels + b.labels)
  }

  function ReadParts(ns: seq<Node>, defaults: DefaultPins): Model {
    if ns == [] then Model([], [], []) else Join(ReadParts(ns[..|ns| - 1], defaults), ReadPart(ns[|ns| - 1], defaults))
  }

  function Read(root: Node, defaults: DefaultPins): Model {
    if root.List? && HeadOf(root) == "kicad_sch" then ReadParts(root.children, defaults) else Model([], [], [])
  }

  // ---- The reader ----------------------------------------------------------------------------

  method Head(n: Node) returns (h: string)
    ensures h == HeadOf(n)
  {
    h := "";
    if n.List? && |n.children| > 0 && n.children[0].Atom? {
      h := n.children[0].text;
    }
  }

  method FindChildren(ns: seq<Node>, h: string) returns (r: seq<Node>)
    ensures r == WithHead(ns, h)
  {
    r := [];
    for i := 0 to |ns|
      invariant r == WithHead(ns[..i], h)
    {
      assert ns[..i + 1][..i] == ns[..i];
      var head := Head(ns[i]);
      if ns[i].List? && head == h {
        r := r + [ns[i]];
      }
    }
    assert ns[..|ns|] == ns;
  }

  lemma {:induction false} FirstWithHead(ns: seq<Node>, i: nat, h: string)
    requires i < |ns| && WithHead(ns[..i], h) == [] && ns[i].List? && HeadOf(ns[i]) == h
    ensures WithHead(ns, h) != [] && WithHead(ns, h)[0] == ns[i]
  {
    hide HeadOf;
    var n := |ns| - 1;
    if i < n {
      assert ns[..n][..i] == ns[..i];
      FirstWithHead(ns[..n], i, h);
    }
  }

  method FindChild(ns: seq<Node>, h: string) returns (c: Found)
    ensures c == Child(ns, h)
  {
    for i := 0 to |ns|
      invariant WithHead(ns[..i], h) == []
    {
      assert ns[..i + 1][..i] == ns[..i];
      var head := Head(ns[i]);
      if ns[i].List? && head == h {
        FirstWithHead(ns, i, h);
        return Found(ns[i].children);
      }
    }
    assert ns[..|ns|] == ns;
    c := Absent;
  }

  /** The text of an atom; a list stands for an empty one. */
  method AtomText(n: Node) returns (s: string)
    ensures s == TextOf(n)
  {
    s := if n.Atom? then n.text else "";
  }

  method ReadProperties(c: Comp, props: seq<Node>) returns (c': Comp)
    ensures c' == ReadProps(c, props)
  {
    hide SetExtra;
    c' := c;
    for i := 0 to |props|
      invariant c' == ReadProps(c, props[..i])
    {
      assert props[..i + 1][..i] == props[..i];
      if props[i].List? && |props[i].children| >= 3 {
        var k := AtomText(props[i].children[1]);
        var v := AtomText(props[i].children[2]);
        match k {
          case "Reference" => c' := c'.(reference := v);
          case "Value" => c' := c'.(value := v);
          case "Footprint" => c' := c'.(footprint := v);
          case "LCSC" => c' := c'.(lcsc := v);
          case _ =>
            var extra := PutExtra(c'.extra, k, v);
            c' := c'.(extra := extra);
        }
      }
    }
    assert props[..|props|] == props;
  }

  /** Overwrites the value of a known key in place, or adds the pair. */
  method PutExtra(extra: seq<(string, string)>, k: string, v: string) returns (r: seq<(string, string)>)
    ensures r == SetExtra(extra, k, v)
  {
    for i := 0 to |extra|
      invariant SetExtra(extra, k, v) == extra[..i] + SetExtra(extra[i..], k, v)
    {
      if extra[i].0 == k {
        return extra[i := (k, v)];
      }
      assert extra[i..][1..] == extra[i + 1..] && extra[..i] + [extra[i]] == extra[..i + 1];
    }
    r := extra + [(k, v)];
  }

  method ReadPinNodes(nodes: seq<Node>, x: int, y: int) returns (pins: seq<Pin>)
    ensures pins == ReadPins(nodes, x, y)
  {
    hide Child, ToUnits;
    pins := [];
    for i := 0 to |nodes|
      invariant pins == ReadPins(nodes[..i], x, y)
    {
      assert nodes[..i + 1][..i] == nodes[..i];
      if nodes[i].List? && |nodes[i].children| >= 2 {
        var number := AtomText(nodes[i].children[1]);
        var p := Pin(number, number, "passive", x, y, "");
        var at := FindChild(nodes[i].children, "at");
        if at.Found? && |at.children| >= 3 {
          p := p.(x := ToUnits(TextOf(at.children[1])), y := ToUnits(TextOf(at.children[2])));
        }
        var net := FindChild(nodes[i].children, "net");
        if net.Found? && |net.children| >= 2 {
          var name := AtomText(net.children[1]);
          p := p.(net := name);
        }
        pins := pins + [p];
      }
    }
    assert nodes[..|nodes|] == nodes;
  }

  method ReadSymbol(children: seq<Node>, defaults: DefaultPins) returns (c: Comp)
    ensures c == ReadComp(children, defaults)
  {
    hide Child, WithHead, ToUnits, ReadProps, ReadPins;
    c := Comp("", "", "Device:R", "Resistor_SMD:R_0603_1608Metric", "", 0, 0, 0, [], []);
    var lib := FindChild(children, "lib_id");
    if lib.Found? && |lib.children| >= 2 {
      var id := AtomText(lib.children[1]);
      c := c.(libId := id);
    }
    var at := FindChild(children, "at");
    if at.Found? && |at.children| >= 3 {
      c := c.(x := ToUnits(TextOf(at.children[1])), y := ToUnits(TextOf(at.children[2])));
    }
    if at.Found? && |at.children| >= 4 {
      c := c.(rotation := ToUnits(TextOf(at.children[3])));
    }
    var props := FindChildren(children, "property");
    c := ReadProperties(c, props);
    var nodes := FindChildren(children, "pin");
    var pins := ReadPinNodes(nodes, c.x, c.y);
    if pins == [] {
      pins := defaults(c.libId, c.x, c.y);
    }
    c := c.(pins := pins);
  }

  method ReadWireNode(children: seq<Node>) returns (wires: seq<Wire>)
    ensures wires == ReadWire(children)
  {
    hide Child, WithHead, ToUnits;
    wires := [];
    var pts := FindChild(children, "pts");
    if pts.Found? {
      var xys := FindChildren(pts.children, "xy");
      if |xys| >= 2 && xys[0].List? && xys[1].List? && |xys[0].children| >= 3 && |xys[1].children| >= 3 {
        var x1, y1 := ToUnits(TextOf(xys[0].children[1])), ToUnits(TextOf(xys[0].children[2]));
        var x2, y2 := ToUnits(TextOf(xys[1].children[1])), ToUnits(TextOf(xys[1].children[2]));
        wires := [Wire(x1, y1, x2, y2, "")];
      }
    }
  }

  method ReadLabelNode(h: string, children: seq<Node>) returns (labels: seq<Label>)
    ensures labels == ReadLabel(h, children)
  {
    hide Child, ToUnits;
    labels := [];
    if |children| >= 2 {
      var name := AtomText(children[1]);
      var l := Label(name, 0, 0, 0, h == "power_port");
      var at := FindChild(children, "at");
      if at.Found? && |at.children| >= 3 {
        l := l.(x := ToUnits(TextOf(at.children[1])), y := ToUnits(TextOf(at.children[2])));
      }
      if at.Found? && |at.children| >= 4 {
        l := l.(angle := ToUnits(TextOf(at.children[3])));
      }
      labels := [l];
    }
  }

  /** The loop over the children of the root. */
  method ExtractSchematic(root: Node, defaults: DefaultPins) returns (m: Model)
    ensures m == Read(root, defaults)
  {
    hide ReadComp, ReadWire, ReadLabel;
    m := Model([], [], []);
    var kind := Head(root);
    if !root.List? || kind != "kicad_sch" {
      return;
    }
    for i := 0 to |root.children|
      invariant m == ReadParts(root.children[..i], defaults)
    {
      assert root.children[..i + 1][..i] == root.children[..i];
      var n := root.children[i];
      if !n.List? {
        continue;
      }
      var h := Head(n);
      if h == "symbol" {
        var c := ReadSymbol(n.children, defaults);
        if c.reference != "" {
          m := m.(comps := m.comps + [c]);
        }
      } else if h == "wire" {
        var wires := ReadWireNode(n.children);
        m := m.(wires := m.wires + wires);
      } else if h in {"label", "global_label", "power_port"} {
        var labels := ReadLabelNode(h, n.children);
        m := m.(labels := m.labels + labels);
      }
    }
    assert root.children[..|root.children|] == root.children;
  }

  // ---- What reading a printed schematic gives ------------------------------------------------

  function BackPin(p: Pin): Pin {
    Pin(Strip(p.number), Strip(p.number), "passive", p.x, p.y, if p.net == "" then "" else Strip(p.net))
  }

  function BackPins(pins: seq<Pin>): seq<Pin> {
    if pins == [] then [] else BackPins(pins[..|pins| - 1]) + [BackPin(pins[|pins| - 1])]
  }

  function SetProps(c: Comp, props: seq<(string, string)>): Comp {
    if props == [] then c
    else
      var p := props[|props| - 1];
      SetProp(SetProps(c, props[..|props| - 1]), Strip(p.0), Strip(p.1))
  }

  function BackComp(c: Comp): Comp {
    SetProps(BLANK_PART.(libId := Strip(c.libId), x := c.x, y := c.y, rotation := c.rotation),
             Props(c)).(pins := BackPins(c.pins))
  }

  function BackComps(comps: seq<Comp>): seq<Comp> {
    if comps == [] then [] else BackComps(comps[..|comps| - 1]) + [BackComp(comps[|comps| - 1])]
  }

  function BackLabel(l: Label): seq<Label> {
    (if l.isPower then [Label(Strip(l.name), l.x, l.y, l.angle, true)] else []) +
      [Label(Strip(l.name), l.x, l.y, l.angle, false)]
  }

  function BackLabels(labels: seq<Label>): seq<Label> {
    if labels == [] then [] else BackLabels(labels[..|labels| - 1]) + BackLabel(labels[|labels| - 1])
  }

  function BackWires(wires: seq<Wire>): seq<Wire> {
    if wires == [] then []
    else
      var w := wires[|wires| - 1];
      BackWires(wires[..|wires| - 1]) + [Wire(w.x1, w.y1, w.x2, w.y2, "")]
  }

  /** The labels that wire nets turn into. */
  function NetLabels(wires: seq<Wire>): seq<Label> {
    if wires == [] then []
    else
      var w := wires[|wires| - 1];
      NetLabels(wires[..|wires| - 1]) + (if w.net == "" then [] else [Label(Strip(w.net), w.x1, w.y1, 0, false)])
  }

  function ReadBack(m: Model): Model {
    Model(BackComps(m.comps), BackWires(m.wires), BackLabels(m.labels) + NetLabels(m.wires))
  }

  // ---- Proof, bottom up ----------------------------------------------------------------------

  lemma WithHeadSnoc(ns: seq<Node>, n: Node, h: string)
    ensures WithHead(ns + [n], h) == if n.List? && HeadOf(n) == h then WithHead(ns, h) + [n] else WithHead(ns, h)
  {
    hide HeadOf;
    assert (ns + [n])[..|ns|] == ns;
  }

  lemma {:induction false} WithHeadConcat(a: seq<Node>, b: seq<Node>, h: string)
    ensures WithHead(a + b, h) == WithHead(a, h) + WithHead(b, h)
  {
    if b == [] {
      assert a + b == a;
    } else {
      hide HeadOf, WithHead;
      var n := |b| - 1;
      assert b == b[..n] + [b[n]] && a + b == (a + b[..n]) + [b[n]];
      WithHeadConcat(a, b[..n], h);
      WithHeadSnoc(b[..n], b[n], h);
      WithHeadSnoc(a + b[..n], b[n], h);
    }
  }

  lemma WithHeadOne(n: Node, h: string)
    ensures WithHead([n], h) == if n.List? && HeadOf(n) == h then [n] else []
  {
    assert [n][..0] == [];
  }

  ghost predicate AllHead(ns: seq<Node>, h: string) {
    forall i :: 0 <= i < |ns| ==> ns[i].List? && HeadOf(ns[i]) == h
  }

  lemma {:induction false} WithHeadAll(ns: seq<Node>, g: string, h: string)
    requires AllHead(ns, g)
    ensures WithHead(ns, h) == if g == h then ns else []
  {
    if ns != [] {
      hide HeadOf;
      var n := |ns| - 1;
      WithHeadAll(ns[..n], g, h);
      assert ns[..n] + [ns[n]] == ns;
    }
  }

  lemma AtReads(x: int, y: int, rest: seq<Node>)
    ensures AtNode(x, y, rest).List? && HeadOf(AtNode(x, y, rest)) == "at"
    ensures var at := Found(AtNode(x, y, rest).children);
            Coordinate(at, 1, 3, 0) == x && Coordinate(at, 2, 3, 0) == y
    ensures var at := Found(AtNode(x, y, rest).children);
            forall d :: Coordinate(at, 1, 3, d) == x && Coordinate(at, 2, 3, d) == y
  {
    PrintedLengthReads(x);
    PrintedLengthReads(y);
    hide FmtMm, ToUnits;
  }

  lemma AtAngleReads(x: int, y: int, angle: int)
    ensures var at := Found(AtNode(x, y, [Atom(FmtMm(angle))]).children); Coordinate(at, 3, 4, 0) == angle
  {
    PrintedLengthReads(angle);
    hide FmtMm, ToUnits;
  }

  lemma ZeroReads(x: int, y: int)
    ensures var at := Found(AtNode(x, y, [Atom("0")]).children); Coordinate(at, 3, 4, 0) == 0
  {
    hide FmtMm;
    DigitRunPrefix("0", "");
    assert "0" + "" == "0" && "0"[..1] == "0" && "0"[..0] == "";
  }

  lemma PinHeads(p: Pin, h: string)
    requires h == "at" || h == "net"
    ensures WithHead(PinNode(p).children, h) == if h == "at" then [AtNode(p.x, p.y, [])] else NetNodes(p.net)
  {
    AtReads(p.x, p.y, []);
    NetHeads(p.net);
    hide FmtMm, ToUnits, Strip, AtNode, Coordinate, WithHead, NetNodes;
    var a, b, c := Atom("pin"), Atom(Strip(p.number)), AtNode(p.x, p.y, []);
    WithHeadConcat([a], [b], h);
    WithHeadConcat([a] + [b], [c], h);
    WithHeadConcat([a] + [b] + [c], NetNodes(p.net), h);
    WithHeadOne(a, h);
    WithHeadOne(b, h);
    WithHeadOne(c, h);
    WithHeadAll(NetNodes(p.net), "net", h);
    assert [a] + [b] + [c] == [a, b, c];
  }

  lemma NetHeads(net: string)
    ensures AllHead(NetNodes(net), "net")
  {
  }

  lemma PinReads(p: Pin, x: int, y: int)
    ensures ReadPin(PinNode(p), x, y) == [BackPin(p)] && PinNode(p).List? && HeadOf(PinNode(p)) == "pin"
  {
    hide FmtMm, ToUnits, Strip, AtNode, Coordinate, WithHead;
    AtReads(p.x, p.y, []);
    PinHeads(p, "at");
    PinHeads(p, "net");
  }

  lemma {:induction false} PinsRead(pins: seq<Pin>, x: int, y: int)
    ensures ReadPins(PinNodes(pins), x, y) == BackPins(pins) && AllHead(PinNodes(pins), "pin")
    ensures |PinNodes(pins)| == |pins|
  {
    hide ReadPin, BackPin, PinNode, HeadOf;
    if pins != [] {
      var n := |pins| - 1;
      PinsRead(pins[..n], x, y);
      PinReads(pins[n], x, y);
      assert PinNodes(pins)[..n] == PinNodes(pins[..n]);
    }
  }

  lemma PropReads(c: Comp, p: (string, string), x: int, y: int)
    ensures ReadProp(c, PropNode(p, x, y)) == SetProp(c, Strip(p.0), Strip(p.1))
    ensures PropNode(p, x, y).List? && HeadOf(PropNode(p, x, y)) == "property"
  {
    hide SetProp, AtNode, Strip;
  }

  lemma {:induction false} PropsRead(c: Comp, props: seq<(string, string)>, x: int, y: int)
    ensures ReadProps(c, PropNodes(props, x, y)) == SetProps(c, props)
    ensures AllHead(PropNodes(props, x, y), "property") && |PropNodes(props, x, y)| == |props|
  {
    hide ReadProp, SetProp, PropNode, HeadOf, Strip;
    if props != [] {
      var n := |props| - 1;
      PropsRead(c, props[..n], x, y);
      PropReads(SetProps(c, props[..n]), props[n], x, y);
      assert PropNodes(props, x, y)[..n] == PropNodes(props[..n], x, y);
    }
  }

  lemma {:induction false} PropsKeepPlace(c: Comp, props: seq<(string, string)>)
    ensures var r := SetProps(c, props); r.x == c.x && r.y == c.y && r.libId == c.libId && r.rotation == c.rotation
  {
    hide SetExtra, Strip;
    if props != [] {
      PropsKeepPlace(c, props[..|props| - 1]);
    }
  }

  /** The heads of a printed part's children. */
  lemma CompHeads(c: Comp, h: string)
    ensures var ns := CompNode(c).children;
            && (h == "property" ==> WithHead(ns, h) == PropNodes(Props(c), c.x, c.y))
            && (h == "pin" ==> WithHead(ns, h) == PinNodes(c.pins))
            && (h == "at" ==> WithHead(ns, h) == [CompHeaderNodes(c)[2]])
            && (h == "lib_id" ==> WithHead(ns, h) == [CompHeaderNodes(c)[1]])
  {
    hide FmtMm, Strip, Props, PropNodes, PinNodes, AtNode, AllHead, WithHead;
    var a, p, q := CompHeaderNodes(c), PropNodes(Props(c), c.x, c.y), PinNodes(c.pins);
    PropsRead(BLANK_PART, Props(c), c.x, c.y);
    PinsRead(c.pins, 0, 0);
    WithHeadAll(p, "property", h);
    WithHeadAll(q, "pin", h);
    WithHeadConcat(a + p, q, h);
    WithHeadConcat(a, p, h);
    HeaderHeads(c, h);
    hide CompHeaderNodes;
  }

  lemma HeaderHeads(c: Comp, h: string)
    ensures var a := CompHeaderNodes(c);
            WithHead(a, h) ==
              (if h == "lib_id" then [a[1]] else []) + (if h == "at" then [a[2]] else []) +
                (if h == "unit" then [a[3]] else [])
  {
    hide FmtMm, Strip, AtNode;
    AtReads(c.x, c.y, [Atom(FmtMm(c.rotation))]);
    var a := CompHeaderNodes(c);
    hide WithHead;
    WithHeadOne(a[0], h);
    WithHeadOne(a[1], h);
    WithHeadOne(a[2], h);
    WithHeadOne(a[3], h);
    WithHeadConcat([a[0]], [a[1]], h);
    WithHeadConcat([a[0]] + [a[1]], [a[2]], h);
    WithHeadConcat([a[0]] + [a[1]] + [a[2]], [a[3]], h);
    assert [a[0]] + [a[1]] + [a[2]] + [a[3]] == a;
  }

  lemma CompReads(c: Comp, defaults: DefaultPins)
    requires c.pins != []
    ensures ReadComp(CompNode(c).children, defaults) == BackComp(c)
  {
    hide FmtMm, ToUnits, Strip, Props, PropNodes, PinNodes, AtNode, Coordinate, WithHead, ReadProps, ReadPins,
      SetProps, BackPins;
    var ns := CompNode(c).children;
    CompHeads(c, "property");
    CompHeads(c, "pin");
    CompHeads(c, "at");
    CompHeads(c, "lib_id");
    AtReads(c.x, c.y, [Atom(FmtMm(c.rotation))]);
    AtAngleReads(c.x, c.y, c.rotation);
    var placed := BLANK_PART.(libId := Strip(c.libId), x := c.x, y := c.y, rotation := c.rotation);
    PropsRead(placed, Props(c), c.x, c.y);
    PropsKeepPlace(placed, Props(c));
    PinsRead(c.pins, c.x, c.y);
    BackPinsLength(c.pins);
  }

  lemma {:induction false} BackPinsLength(pins: seq<Pin>)
    ensures |BackPins(pins)| == |pins|
  {
    if pins != [] {
      BackPinsLength(pins[..|pins| - 1]);
    }
  }

  lemma {:induction false} ReadConcat(a: seq<Node>, b: seq<Node>, defaults: DefaultPins)
    ensures ReadParts(a + b, defaults) == Join(ReadParts(a, defaults), ReadParts(b, defaults))
  {
    var p := ReadParts(a, defaults);
    if b == [] {
      assert a + b == a;
      JoinNothing(p);
    } else {
      hide ReadPart, Join, ReadParts;
      var n := |b| - 1;
      assert b == b[..n] + [b[n]] && a + b == (a + b[..n]) + [b[n]];
      ReadConcat(a, b[..n], defaults);
      ReadSnoc(b[..n], b[n], defaults);
      ReadSnoc(a + b[..n], b[n], defaults);
      JoinAssociates(p, ReadParts(b[..n], defaults), ReadPart(b[n], defaults));
    }
  }

  lemma ReadSnoc(ns: seq<Node>, n: Node, defaults: DefaultPins)
    ensures ReadParts(ns + [n], defaults) == Join(ReadParts(ns, defaults), ReadPart(n, defaults))
  {
    hide ReadPart, Join;
    assert (ns + [n])[..|ns|] == ns;
  }

  lemma JoinNothing(a: Model)
    ensures Join(a, Model([], [], [])) == a
  {
  }

  lemma JoinAll(c: seq<Comp>, w: seq<Wire>, l: seq<Label>, k: seq<Label>)
    ensures Join(Join(Join(Model([], [], []), Model(c, [], [])), Model([], [], l)), Model([], w, k)) ==
            Model(c, w, l + k)
  {
    assert [] + c + [] + [] == c;
    assert [] + [] + [] + w == w;
    assert [] + [] + l == l;
  }

  lemma JoinAssociates(a: Model, b: Model, c: Model)
    ensures Join(Join(a, b), c) == Join(a, Join(b, c))
  {
    assert (a.comps + b.comps) + c.comps == a.comps + (b.comps + c.comps);
    assert (a.wires + b.wires) + c.wires == a.wires + (b.wires + c.wires);
    assert (a.labels + b.labels) + c.labels == a.labels + (b.labels + c.labels);
  }

  lemma ReadOne(n: Node, defaults: DefaultPins)
    ensures ReadParts([n], defaults) == ReadPart(n, defaults)
  {
    hide ReadPart;
    assert [n][..0] == [];
    var p := ReadPart(n, defaults);
    assert Join(Model([], [], []), p) == p;
  }

  /** Among the extra properties, the last one that prints as a reference. */
  predicate LastReference(extra: seq<(string, string)>, i: int) {
    && 0 <= i < |extra| && Strip(extra[i].0) == "Reference"
    && forall j :: i < j < |extra| ==> Strip(extra[j].0) != "Reference"
  }

  /** The reference that prevails among the printed properties: they are read in order, and extra ones come last. */
  function Prevailing(reference: string, extra: seq<(string, string)>): string {
    if extra == [] then reference
    else
      var e := extra[|extra| - 1];
      if Strip(e.0) == "Reference" then e.1 else Prevailing(reference, extra[..|extra| - 1])
  }

  function Kept(c: Comp): string {
    Prevailing(c.reference, c.extra)
  }

  lemma {:induction false} PrevailingIsLast(reference: string, extra: seq<(string, string)>)
    ensures forall i :: LastReference(extra, i) ==> Prevailing(reference, extra) == extra[i].1
    ensures (forall i :: !LastReference(extra, i)) ==> Prevailing(reference, extra) == reference
  {
    if extra != [] {
      hide Strip;
      var n := |extra| - 1;
      PrevailingIsLast(reference, extra[..n]);
      if Strip(extra[n].0) == "Reference" {
        assert LastReference(extra, n);
        assert forall i :: LastReference(extra, i) ==> i == n;
      } else {
        forall i
          ensures LastReference(extra, i) <==> LastReference(extra[..n], i)
        {
          assert 0 <= i < n ==> extra[..n][i] == extra[i];
        }
      }
    }
  }

  lemma FixedKeys()
    ensures Strip("Reference") == "Reference" && Strip("Value") == "Value" && Strip("Footprint") == "Footprint"
    ensures Strip("LCSC") == "LCSC"
  {
    StripKeeps("Reference");
    StripKeeps("Value");
    StripKeeps("Footprint");
    StripKeeps("LCSC");
    hide Strip;
  }

  lemma SetPropsSnoc(c: Comp, props: seq<(string, string)>, p: (string, string))
    ensures SetProps(c, props + [p]) == SetProp(SetProps(c, props), Strip(p.0), Strip(p.1))
  {
    hide Strip, SetProp;
    assert (props + [p])[..|props|] == props;
  }

  lemma {:induction false} ExtraReference(c: Comp, props: seq<(string, string)>, extra: seq<(string, string)>,
                                          reference: string)
    requires SetProps(c, props).reference == Strip(reference)
    ensures SetProps(c, props + extra).reference == Strip(Prevailing(reference, extra))
  {
    hide Strip, SetProp, SetProps;
    if extra == [] {
      assert props + extra == props;
    } else {
      var n := |extra| - 1;
      ExtraReference(c, props, extra[..n], reference);
      assert props + extra == (props + extra[..n]) + [extra[n]];
      SetPropsSnoc(c, props + extra[..n], extra[n]);
      SetReference(SetProps(c, props + extra[..n]), Strip(extra[n].0), Strip(extra[n].1));
    }
  }

  lemma SetReference(c: Comp, k: string, v: string)
    ensures SetProp(c, k, v).reference == if k == "Reference" then v else c.reference
  {
    hide SetExtra;
  }

  /** The reference read back is the one that prevails among the printed properties. */
  lemma BackReference(c: Comp)
    ensures BackComp(c).reference == Strip(Kept(c))
  {
    FixedKeys();
    hide Strip, SetExtra, Prevailing;
    var placed := BLANK_PART.(libId := Strip(c.libId), x := c.x, y := c.y, rotation := c.rotation);
    FixedProps(placed, c);
    ExtraReference(placed, Props(c.(extra := [])), c.extra, c.reference);
    assert Props(c) == Props(c.(extra := [])) + c.extra;
  }

  lemma FixedProps(placed: Comp, c: Comp)
    ensures SetProps(placed, Props(c.(extra := []))).reference == Strip(c.reference)
  {
    FixedKeys();
    hide Strip, SetExtra;
    var props := Props(c.(extra := []));
    assert props[..1] == [("Reference", c.reference)] && props[..1][..0] == [];
    assert SetProps(placed, props[..1]).reference == Strip(c.reference);
    assert props[..2][..1] == props[..1] && props[..3][..2] == props[..2];
    assert props[1].0 == "Value" && props[2].0 == "Footprint";
    assert SetProps(placed, props[..2]).reference == SetProps(placed, props[..1]).reference;
    assert SetProps(placed, props[..3]).reference == SetProps(placed, props[..2]).reference;
    if c.lcsc == "" {
      assert props == props[..3];
    } else {
      assert props[..|props| - 1] == props[..3] && props[3].0 == "LCSC";
    }
  }

  /** Exactly when a part comes back under its own reference: no extra property prints as a reference, or the last
      one that does has a value that prints the same. */
  lemma ReferenceSurvives(c: Comp)
    ensures BackComp(c).reference == Strip(c.reference) <==>
            forall i :: LastReference(c.extra, i) ==> Strip(c.extra[i].1) == Strip(c.reference)
  {
    BackReference(c);
    PrevailingIsLast(c.reference, c.extra);
    hide Strip, Prevailing, BackComp, LastReference;
  }

  lemma CompPart(c: Comp, defaults: DefaultPins)
    requires c.pins != [] && Strip(Kept(c)) != ""
    ensures ReadPart(CompNode(c), defaults) == Model([BackComp(c)], [], [])
  {
    CompReads(c, defaults);
    BackReference(c);
    hide ReadComp, BackComp, PropNodes, PinNodes, Strip, FmtMm, AtNode, Kept;
  }

  lemma {:induction false} CompParts(comps: seq<Comp>, defaults: DefaultPins)
    requires forall i :: 0 <= i < |comps| ==> comps[i].pins != [] && Strip(Kept(comps[i])) != ""
    ensures ReadParts(CompNodes(comps), defaults) == Model(BackComps(comps), [], [])
  {
    hide ReadPart, CompNode, BackComp, Kept, Strip;
    if comps != [] {
      var n := |comps| - 1;
      CompParts(comps[..n], defaults);
      CompPart(comps[n], defaults);
      assert CompNodes(comps)[..|CompNodes(comps)| - 1] == CompNodes(comps[..n]);
    }
  }

  lemma LabelPart(h: string, l: Label, defaults: DefaultPins)
    requires h == "label" || h == "power_port"
    ensures ReadPart(LabelNode(h, l), defaults) ==
            Model([], [], [Label(Strip(l.name), l.x, l.y, l.angle, h == "power_port")])
  {
    hide Strip, FmtMm, ToUnits, AtNode, Coordinate;
    LabelAt(h, Strip(l.name), l.x, l.y, [Atom(FmtMm(l.angle))]);
    AtReads(l.x, l.y, [Atom(FmtMm(l.angle))]);
    AtAngleReads(l.x, l.y, l.angle);
    hide WithHead;
  }

  lemma LabelAt(h: string, name: string, x: int, y: int, rest: seq<Node>)
    ensures Child([Atom(h), Atom(name), AtNode(x, y, rest)], "at") == Found(AtNode(x, y, rest).children)
  {
    AtReads(x, y, rest);
    hide AtNode, FmtMm;
    var at := AtNode(x, y, rest);
    WithHeadConcat([Atom(h)], [Atom(name)], "at");
    WithHeadConcat([Atom(h)] + [Atom(name)], [at], "at");
    WithHeadOne(Atom(h), "at");
    WithHeadOne(Atom(name), "at");
    WithHeadOne(at, "at");
    hide WithHead;
    assert [Atom(h)] + [Atom(name)] + [at] == [Atom(h), Atom(name), at];
  }

  lemma {:induction false} LabelParts(labels: seq<Label>, defaults: DefaultPins)
    ensures ReadParts(LabelNodes(labels), defaults) == Model([], [], BackLabels(labels))
  {
    hide ReadPart, LabelNode, Strip;
    if labels != [] {
      var n := |labels| - 1;
      var l := labels[n];
      LabelParts(labels[..n], defaults);
      LabelPart("label", l, defaults);
      LabelPart("power_port", l, defaults);
      ReadOne(LabelNode("label", l), defaults);
      ReadOne(LabelNode("power_port", l), defaults);
      ReadConcat([LabelNode("power_port", l)], [LabelNode("label", l)], defaults);
      ReadConcat(LabelNodes(labels[..n]), LabelNodesOf(l), defaults);
      hide ReadParts;
      assert [] + [LabelNode("label", l)] == [LabelNode("label", l)];
    }
  }

  lemma WirePart(w: Wire, defaults: DefaultPins)
    ensures ReadPart(WireNode(w), defaults) == Model([], [Wire(w.x1, w.y1, w.x2, w.y2, "")], [])
  {
    PrintedLengthReads(w.x1);
    PrintedLengthReads(w.y1);
    PrintedLengthReads(w.x2);
    PrintedLengthReads(w.y2);
    hide FmtMm, ToUnits;
    var a, b := XyNode(w.x1, w.y1), XyNode(w.x2, w.y2);
    var pts := List([Atom("pts"), a, b]);
    WithHeadConcat([Atom("wire")], [pts], "pts");
    WithHeadOne(Atom("wire"), "pts");
    WithHeadOne(pts, "pts");
    WithHeadConcat([Atom("pts")], [a], "xy");
    WithHeadConcat([Atom("pts")] + [a], [b], "xy");
    WithHeadOne(Atom("pts"), "xy");
    WithHeadOne(a, "xy");
    WithHeadOne(b, "xy");
    hide WithHead;
    assert [Atom("wire")] + [pts] == [Atom("wire"), pts];
    assert [Atom("pts")] + [a] + [b] == [Atom("pts"), a, b];
  }

  lemma NetLabelPart(w: Wire, defaults: DefaultPins)
    ensures ReadPart(List([Atom("label"), Atom(Strip(w.net)), AtNode(w.x1, w.y1, [Atom("0")])]), defaults)
         == Model([], [], [Label(Strip(w.net), w.x1, w.y1, 0, false)])
  {
    hide Strip, FmtMm, ToUnits, AtNode, Coordinate;
    LabelAt("label", Strip(w.net), w.x1, w.y1, [Atom("0")]);
    AtReads(w.x1, w.y1, [Atom("0")]);
    ZeroReads(w.x1, w.y1);
    hide WithHead;
  }

  lemma {:induction false} WireParts(wires: seq<Wire>, defaults: DefaultPins)
    ensures ReadParts(WireNodes(wires), defaults) == Model([], BackWires(wires), NetLabels(wires))
  {
    hide ReadPart, WireNode, Strip, AtNode;
    if wires != [] {
      var n := |wires| - 1;
      var w := wires[n];
      var l := List([Atom("label"), Atom(Strip(w.net)), AtNode(w.x1, w.y1, [Atom("0")])]);
      WireParts(wires[..n], defaults);
      WirePart(w, defaults);
      NetLabelPart(w, defaults);
      ReadOne(WireNode(w), defaults);
      ReadOne(l, defaults);
      ReadConcat([WireNode(w)], [l], defaults);
      ReadConcat(WireNodes(wires[..n]), WireNodesOf(w), defaults);
      hide ReadParts;
      assert [WireNode(w)] + [] == [WireNode(w)];
    }
  }

  lemma PreambleParts(lib: seq<Node>, defaults: DefaultPins)
    ensures ReadParts([Atom("kicad_sch")] + PreambleNodes(lib), defaults) == Model([], [], [])
  {
    hide Strip;
    var p := PreambleNodes(lib);
    ReadOne(Atom("kicad_sch"), defaults);
    ReadOne(p[0], defaults);
    ReadOne(p[1], defaults);
    ReadOne(p[2], defaults);
    ReadOne(p[3], defaults);
    ReadConcat([Atom("kicad_sch")], [p[0]], defaults);
    ReadConcat([Atom("kicad_sch")] + [p[0]], [p[1]], defaults);
    ReadConcat([Atom("kicad_sch")] + [p[0]] + [p[1]], [p[2]], defaults);
    ReadConcat([Atom("kicad_sch")] + [p[0]] + [p[1]] + [p[2]], [p[3]], defaults);
    PartOf(p[0], defaults);
    PartOf(p[1], defaults);
    PartOf(p[2], defaults);
    PartOf(p[3], defaults);
    hide ReadParts, ReadPart;
    assert [Atom("kicad_sch")] + [p[0]] + [p[1]] + [p[2]] + [p[3]] == [Atom("kicad_sch")] + p;
  }

  lemma PartOf(n: Node, defaults: DefaultPins)
    requires HeadOf(n) in {"version", "generator", "paper", "lib_symbols"}
    ensures ReadPart(n, defaults) == Model([], [], [])
  {
    hide ReadComp, ReadWire, ReadLabel;
  }

  /** What can be printed and read back without losing any part of the circuit; parts may come back under
      another reference. */
  predicate Storable(m: Model) {
    && (forall i :: 0 <= i < |m.comps| ==> StorablePart(m.comps[i]))
    && (forall i :: 0 <= i < |m.wires| ==> Printable(m.wires[i].net))
    && (forall i :: 0 <= i < |m.labels| ==> Printable(m.labels[i].name))
  }

  predicate StorablePart(c: Comp) {
    && Kept(c) != "" && Printable(Kept(c)) && c.pins != [] && KindsAreWords(c)
    && forall i :: 0 <= i < |c.pins| ==> Printable(c.pins[i].number) && Printable(c.pins[i].net)
  }

  lemma ReadsBack(m: Model, defaults: DefaultPins)
    requires Storable(m)
    ensures Read(SchematicNode(m), defaults) == ReadBack(m)
  {
    hide ReadPart, PreambleNodes, CompNodes, LabelNodes, WireNodes, Printable, Kept, KindsAreWords, Strip, WithHead,
      LibItems, LibNodes;
    var lib := LibNodes(m.comps);
    var p, c, l, w := PreambleNodes(lib), CompNodes(m.comps), LabelNodes(m.labels), WireNodes(m.wires);
    forall i | 0 <= i < |m.comps|
      ensures Strip(Kept(m.comps[i])) != ""
    {
      StripKeeps(Kept(m.comps[i]));
    }
    PreambleParts(lib, defaults);
    CompParts(m.comps, defaults);
    LabelParts(m.labels, defaults);
    WireParts(m.wires, defaults);
    RootReads(m, defaults);
    hide ReadParts, Join, SchematicNode, Read;
    var k := [Atom("kicad_sch")];
    JoinAll(BackComps(m.comps), BackWires(m.wires), BackLabels(m.labels), NetLabels(m.wires));
    ReadConcat(k + p, c, defaults);
    ReadConcat(k + p + c, l, defaults);
    ReadConcat(k + p + c + l, w, defaults);
    Regroup(k, p, c, l, w);
  }

  lemma Regroup(k: seq<Node>, p: seq<Node>, c: seq<Node>, l: seq<Node>, w: seq<Node>)
    ensures k + p + c + l + w == k + (p + c + l + w)
  {
  }

  lemma RootReads(m: Model, defaults: DefaultPins)
    ensures Read(SchematicNode(m), defaults) == ReadParts(
              [Atom("kicad_sch")] +
                (PreambleNodes(LibNodes(m.comps)) + CompNodes(m.comps) + LabelNodes(m.labels) +
                 WireNodes(m.wires)), defaults)
  {
    hide ReadParts, PreambleNodes, CompNodes, LabelNodes, WireNodes, LibItems, LibNodes;
  }
}

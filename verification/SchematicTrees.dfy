/** The documents a schematic is printed as are well-formed and shallow, and the trees they stand for. */
module SchematicTrees {
  import opened Basics
  import opened Sexp
  import opened SexpPrinting
  import opened Decimals
  import opened Schematic
  import opened SchematicText

  // ---- Trees ---------------------------------------------------------------------------------

  function AtNode(x: int, y: int, rest: seq<Node>): Node {
    List([Atom("at"), Atom(FmtMm(x)), Atom(FmtMm(y))] + rest)
  }

  function PropNode(p: (string, string), x: int, y: int): Node {
    List([Atom("property"), Atom(Strip(p.0)), Atom(Strip(p.1)), AtNode(x, y, [Atom("0")])])
  }

  function PropNodes(props: seq<(string, string)>, x: int, y: int): seq<Node> {
    if props == [] then [] else PropNodes(props[..|props| - 1], x, y) + [PropNode(props[|props| - 1], x, y)]
  }

  function NetNodes(net: string): seq<Node> {
    if net == "" then [] else [List([Atom("net"), Atom(Strip(net))])]
  }

  function PinNode(p: Pin): Node {
    List([Atom("pin"), Atom(Strip(p.number)), AtNode(p.x, p.y, [])] + NetNodes(p.net))
  }

  function PinNodes(pins: seq<Pin>): seq<Node> {
    if pins == [] then [] else PinNodes(pins[..|pins| - 1]) + [PinNode(pins[|pins| - 1])]
  }

  function CompHeaderNodes(c: Comp): seq<Node> {
    [Atom("symbol"), List([Atom("lib_id"), Atom(Strip(c.libId))]), AtNode(c.x, c.y, [Atom(FmtMm(c.rotation))]),
     List([Atom("unit"), Atom("1")])]
  }

  function CompNode(c: Comp): Node {
    List(CompHeaderNodes(c) + PropNodes(Props(c), c.x, c.y) + PinNodes(c.pins))
  }

  function CompNodes(comps: seq<Comp>): seq<Node> {
    if comps == [] then [] else CompNodes(comps[..|comps| - 1]) + [CompNode(comps[|comps| - 1])]
  }

  function LabelNode(h: string, l: Label): Node {
    List([Atom(h), Atom(Strip(l.name)), AtNode(l.x, l.y, [Atom(FmtMm(l.angle))])])
  }

  function LabelNodesOf(l: Label): seq<Node> {
    (if l.isPower then [LabelNode("power_port", l)] else []) + [LabelNode("label", l)]
  }

  function LabelNodes(labels: seq<Label>): seq<Node> {
    if labels == [] then [] else LabelNodes(labels[..|labels| - 1]) + LabelNodesOf(labels[|labels| - 1])
  }

  function XyNode(x: int, y: int): Node {
    List([Atom("xy"), Atom(FmtMm(x)), Atom(FmtMm(y))])
  }

  function WireNode(w: Wire): Node {
    List([Atom("wire"), List([Atom("pts"), XyNode(w.x1, w.y1), XyNode(w.x2, w.y2)])])
  }

  function WireNodesOf(w: Wire): seq<Node> {
    [WireNode(w)] +
      (if w.net == "" then [] else [List([Atom("label"), Atom(Strip(w.net)), AtNode(w.x1, w.y1, [Atom("0")])])])
  }

  function WireNodes(wires: seq<Wire>): seq<Node> {
    if wires == [] then [] else WireNodes(wires[..|wires| - 1]) + WireNodesOf(wires[|wires| - 1])
  }

  // ---- Documents and their trees -------------------------------------------------------------

  ghost predicate Fine(d: Doc, depth: nat, t: Node) {
    WellFormed(d) && Depth(d) <= depth && Tree(d) == t
  }

  ghost predicate FineItems(items: seq<Item>, depth: nat, ts: seq<Node>) {
    Apart(items, depth) && Trees(items) == ts
  }

  lemma Plain1(h: string, a: Doc, d: nat, ta: Node)
    requires IsWord(h) && Fine(a, d, ta)
    ensures Fine(Plain(h, [a]), d + 1, List([Atom(h), ta]))
  {
    hide IsWord, WellFormed, Depth, Tree;
    PlainIsFine(h, [a], d);
    assert [Atom(h)] + TreesOf([a]) == [Atom(h), ta];
  }

  lemma Plain2(h: string, a: Doc, b: Doc, d: nat, ta: Node, tb: Node)
    requires IsWord(h) && Fine(a, d, ta) && Fine(b, d, tb)
    ensures Fine(Plain(h, [a, b]), d + 1, List([Atom(h), ta, tb]))
  {
    hide IsWord, WellFormed, Depth, Tree;
    PlainIsFine(h, [a, b], d);
    assert [Atom(h)] + TreesOf([a, b]) == [Atom(h), ta, tb];
  }

  lemma Plain3(h: string, a: Doc, b: Doc, c: Doc, d: nat, ta: Node, tb: Node, tc: Node)
    requires IsWord(h) && Fine(a, d, ta) && Fine(b, d, tb) && Fine(c, d, tc)
    ensures Fine(Plain(h, [a, b, c]), d + 1, List([Atom(h), ta, tb, tc]))
  {
    hide IsWord, WellFormed, Depth, Tree;
    PlainIsFine(h, [a, b, c], d);
    assert [Atom(h)] + TreesOf([a, b, c]) == [Atom(h), ta, tb, tc];
  }

  lemma Leaves(v: int, word: string, text: string)
    requires IsWord(word)
    ensures Fine(Num(v), 0, Atom(FmtMm(v))) && Fine(Word(word), 0, Atom(word)) && Fine(Text(text), 0, Atom(Strip(text)))
  {
    NumIsFine(v);
  }

  lemma Deeper(d: Doc, k: nat, depth: nat, t: Node)
    requires Fine(d, k, t) && k <= depth
    ensures Fine(d, depth, t)
  {
    hide WellFormed, Depth, Tree;
  }

  lemma At2Fine(x: int, y: int)
    ensures Fine(At2(x, y), 1, AtNode(x, y, []))
  {
    CommonWords();
    hide Fine, IsWord, FmtMm;
    Leaves(x, "at", "");
    Leaves(y, "at", "");
    Plain2("at", Num(x), Num(y), 0, Atom(FmtMm(x)), Atom(FmtMm(y)));
    assert [Atom("at"), Atom(FmtMm(x)), Atom(FmtMm(y))] + [] == [Atom("at"), Atom(FmtMm(x)), Atom(FmtMm(y))];
  }

  lemma At3Fine(x: int, y: int, angle: int)
    ensures Fine(At3(x, y, angle), 1, AtNode(x, y, [Atom(FmtMm(angle))]))
  {
    CommonWords();
    hide Fine, IsWord, FmtMm;
    Leaves(x, "at", "");
    Leaves(y, "at", "");
    Leaves(angle, "at", "");
    Plain3("at", Num(x), Num(y), Num(angle), 0, Atom(FmtMm(x)), Atom(FmtMm(y)), Atom(FmtMm(angle)));
    assert [Atom("at"), Atom(FmtMm(x)), Atom(FmtMm(y))] + [Atom(FmtMm(angle))]
        == [Atom("at"), Atom(FmtMm(x)), Atom(FmtMm(y)), Atom(FmtMm(angle))];
  }

  lemma AtZeroFine(x: int, y: int)
    ensures Fine(AtZero(x, y), 1, AtNode(x, y, [Atom("0")]))
  {
    CommonWords();
    hide Fine, IsWord, FmtMm;
    Leaves(x, "0", "");
    Leaves(y, "at", "");
    Plain3("at", Num(x), Num(y), Word("0"), 0, Atom(FmtMm(x)), Atom(FmtMm(y)), Atom("0"));
    assert [Atom("at"), Atom(FmtMm(x)), Atom(FmtMm(y))] + [Atom("0")]
        == [Atom("at"), Atom(FmtMm(x)), Atom(FmtMm(y)), Atom("0")];
  }

  lemma PropFine(p: (string, string), x: int, y: int)
    ensures Fine(PropDoc(p.0, p.1, x, y), 2, PropNode(p, x, y))
  {
    LongerWords();
    hide Fine, IsWord, AtZero, AtNode;
    Leaves(0, "property", p.0);
    Leaves(0, "property", p.1);
    Deeper(Text(p.0), 0, 1, Atom(Strip(p.0)));
    Deeper(Text(p.1), 0, 1, Atom(Strip(p.1)));
    AtZeroFine(x, y);
    Plain3("property", Text(p.0), Text(p.1), AtZero(x, y), 1, Atom(Strip(p.0)), Atom(Strip(p.1)),
           AtNode(x, y, [Atom("0")]));
  }

  lemma PinFine(p: Pin)
    ensures Fine(PinDoc(p), 2, PinNode(p))
  {
    CommonWords();
    hide Fine, IsWord, At2, AtNode, Plain, Strip;
    Leaves(0, "pin", p.number);
    Deeper(Text(p.number), 0, 1, Atom(Strip(p.number)));
    At2Fine(p.x, p.y);
    var body := [Atom("pin"), Atom(Strip(p.number)), AtNode(p.x, p.y, [])];
    if p.net == "" {
      assert body + [] == body;
      Plain2("pin", Text(p.number), At2(p.x, p.y), 1, Atom(Strip(p.number)), AtNode(p.x, p.y, []));
      assert [Text(p.number), At2(p.x, p.y)] + [] == [Text(p.number), At2(p.x, p.y)];
    } else {
      Leaves(0, "net", p.net);
      var n := Plain("net", [Text(p.net)]);
      Plain1("net", Text(p.net), 0, Atom(Strip(p.net)));
      Plain3("pin", Text(p.number), At2(p.x, p.y), n, 1, Atom(Strip(p.number)), AtNode(p.x, p.y, []),
             List([Atom("net"), Atom(Strip(p.net))]));
      var tn := List([Atom("net"), Atom(Strip(p.net))]);
      assert [Text(p.number), At2(p.x, p.y)] + [n] == [Text(p.number), At2(p.x, p.y), n];
      assert body + [tn] == [Atom("pin"), Atom(Strip(p.number)), AtNode(p.x, p.y, []), tn];
    }
  }

  // ---- Runs of items -------------------------------------------------------------------------

  lemma OneFine(gap: string, d: Doc, depth: nat, t: Node)
    requires Blank(gap) && gap != "" && Fine(d, depth, t)
    ensures FineItems([Item(gap, d)], depth, [t])
  {
    var one := [Item(gap, d)];
    assert one[..0] == [];
  }

  lemma NoneFine(depth: nat)
    ensures FineItems([], depth, [])
  {
  }

  lemma JoinFine(a: seq<Item>, b: seq<Item>, depth: nat, ta: seq<Node>, tb: seq<Node>)
    requires FineItems(a, depth, ta) && FineItems(b, depth, tb)
    ensures FineItems(a + b, depth, ta + tb)
  {
    hide Apart;
    ApartConcat(a, b, depth);
    TreesConcat(a, b);
  }

  ghost predicate FineItem(item: Item, depth: nat, t: Node) {
    Blank(item.gap) && item.gap != "" && Fine(item.doc, depth, t)
  }

  lemma FourFine(a: Item, b: Item, c: Item, d: Item, depth: nat, ta: Node, tb: Node, tc: Node, td: Node)
    requires FineItem(a, depth, ta) && FineItem(b, depth, tb) && FineItem(c, depth, tc) && FineItem(d, depth, td)
    ensures FineItems([a, b, c, d], depth, [ta, tb, tc, td])
  {
    hide Fine, FineItems, Blank;
    OneFine(a.gap, a.doc, depth, ta);
    OneFine(b.gap, b.doc, depth, tb);
    OneFine(c.gap, c.doc, depth, tc);
    OneFine(d.gap, d.doc, depth, td);
    JoinFine([a], [b], depth, [ta], [tb]);
    JoinFine([a] + [b], [c], depth, [ta] + [tb], [tc]);
    JoinFine([a] + [b] + [c], [d], depth, [ta] + [tb] + [tc], [td]);
    assert [a] + [b] + [c] + [d] == [a, b, c, d] && [ta] + [tb] + [tc] + [td] == [ta, tb, tc, td];
  }

  lemma HeadFine(h: string, items: seq<Item>, last: string, depth: nat, ts: seq<Node>)
    requires IsWord(h) && FineItems(items, depth, ts) && Blank(last)
    ensures Fine(Head(h, items, last), depth + 1, List([Atom(h)] + ts))
  {
    hide IsWord, Blank, Apart, Head, Trees, WellFormed, Depth, Tree;
    HeadIsFine(h, items, last, depth);
  }

  /** The gaps between printed parts. */
  lemma Gaps()
    ensures Blank(" ") && Blank("\n  ") && Blank("\n    ") && Blank("\n") && Blank("\n      ") && Blank("\n        ")
    ensures Blank("\n          ")
  {
  }

  lemma {:induction false} PropsFine(props: seq<(string, string)>, x: int, y: int)
    ensures FineItems(PropItems(props, x, y), 2, PropNodes(props, x, y))
  {
    hide Fine, FineItems, Blank, PropDoc, PropNode;
    if props == [] {
      NoneFine(2);
    } else {
      var n := |props| - 1;
      PropsFine(props[..n], x, y);
      PropFine(props[n], x, y);
      Gaps();
      OneFine("\n    ", PropDoc(props[n].0, props[n].1, x, y), 2, PropNode(props[n], x, y));
      JoinFine(PropItems(props[..n], x, y), [Item("\n    ", PropDoc(props[n].0, props[n].1, x, y))], 2,
               PropNodes(props[..n], x, y), [PropNode(props[n], x, y)]);
    }
  }

  lemma {:induction false} PinsFine(pins: seq<Pin>)
    ensures FineItems(PinItems(pins), 2, PinNodes(pins))
  {
    hide Fine, FineItems, Blank, PinDoc, PinNode;
    if pins == [] {
      NoneFine(2);
    } else {
      var n := |pins| - 1;
      PinsFine(pins[..n]);
      PinFine(pins[n]);
      Gaps();
      OneFine("\n    ", PinDoc(pins[n]), 2, PinNode(pins[n]));
      JoinFine(PinItems(pins[..n]), [Item("\n    ", PinDoc(pins[n]))], 2, PinNodes(pins[..n]), [PinNode(pins[n])]);
    }
  }

  lemma CompHeaderFine(c: Comp)
    ensures FineItems(CompHeader(c), 2, CompHeaderNodes(c)[1..])
  {
    CommonWords();
    LongerWords();
    Gaps();
    hide Fine, FineItems, Blank, IsWord, Plain, At3, AtNode, Strip, FmtMm;
    Leaves(0, "1", c.libId);
    Plain1("lib_id", Text(c.libId), 0, Atom(Strip(c.libId)));
    Plain1("unit", Word("1"), 0, Atom("1"));
    At3Fine(c.x, c.y, c.rotation);
    var a, b, u := Plain("lib_id", [Text(c.libId)]), At3(c.x, c.y, c.rotation), Plain("unit", [Word("1")]);
    var ta, tb, tu := List([Atom("lib_id"), Atom(Strip(c.libId))]), AtNode(c.x, c.y, [Atom(FmtMm(c.rotation))]),
        List([Atom("unit"), Atom("1")]);
    Deeper(a, 1, 2, ta);
    Deeper(b, 1, 2, tb);
    Deeper(u, 1, 2, tu);
    OneFine(" ", a, 2, ta);
    OneFine(" ", b, 2, tb);
    OneFine(" ", u, 2, tu);
    JoinFine([Item(" ", a)], [Item(" ", b)], 2, [ta], [tb]);
    JoinFine([Item(" ", a)] + [Item(" ", b)], [Item(" ", u)], 2, [ta] + [tb], [tu]);
    assert [Item(" ", a)] + [Item(" ", b)] + [Item(" ", u)] == CompHeader(c);
    assert [ta] + [tb] + [tu] == CompHeaderNodes(c)[1..];
  }

  lemma CompFine(c: Comp)
    ensures Fine(CompDoc(c), 3, CompNode(c))
  {
    LongerWords();
    Gaps();
    hide Fine, FineItems, Blank, IsWord, CompHeader, Props, PropItems, PropNodes, PinItems, PinNodes, Head;
    CompHeaderFine(c);
    PropsFine(Props(c), c.x, c.y);
    PinsFine(c.pins);
    var a, p, q := CompHeader(c), PropItems(Props(c), c.x, c.y), PinItems(c.pins);
    var ta, tp, tq := CompHeaderNodes(c)[1..], PropNodes(Props(c), c.x, c.y), PinNodes(c.pins);
    JoinFine(a, p, 2, ta, tp);
    JoinFine(a + p, q, 2, ta + tp, tq);
    HeadFine("symbol", a + p + q, "\n  ", 2, ta + tp + tq);
    assert [Atom("symbol")] + (ta + tp + tq) == CompHeaderNodes(c) + tp + tq;
  }

  lemma {:induction false} CompsFine(comps: seq<Comp>)
    ensures FineItems(CompItems(comps), 5, CompNodes(comps))
  {
    hide Fine, FineItems, Blank, CompDoc, CompNode;
    if comps == [] {
      NoneFine(5);
    } else {
      var n := |comps| - 1;
      CompsFine(comps[..n]);
      CompFine(comps[n]);
      Deeper(CompDoc(comps[n]), 3, 5, CompNode(comps[n]));
      Gaps();
      OneFine("\n  ", CompDoc(comps[n]), 5, CompNode(comps[n]));
      JoinFine(CompItems(comps[..n]), [Item("\n  ", CompDoc(comps[n]))], 5, CompNodes(comps[..n]),
               [CompNode(comps[n])]);
    }
  }

  lemma LabelFine(h: string, l: Label)
    requires IsWord(h)
    ensures Fine(LabelDoc(h, l), 5, LabelNode(h, l))
  {
    hide Fine, IsWord, Plain, At3, AtNode, Strip, FmtMm;
    Leaves(0, h, l.name);
    Deeper(Text(l.name), 0, 1, Atom(Strip(l.name)));
    At3Fine(l.x, l.y, l.angle);
    Plain2(h, Text(l.name), At3(l.x, l.y, l.angle), 1, Atom(Strip(l.name)), AtNode(l.x, l.y, [Atom(FmtMm(l.angle))]));
    Deeper(LabelDoc(h, l), 2, 5, LabelNode(h, l));
  }

  lemma LabelItemFine(l: Label)
    ensures FineItems(LabelItem(l), 5, LabelNodesOf(l))
  {
    CommonWords();
    LongestWords();
    Gaps();
    hide Fine, FineItems, IsWord, Blank, LabelDoc, LabelNode;
    LabelFine("label", l);
    OneFine("\n  ", LabelDoc("label", l), 5, LabelNode("label", l));
    LabelFine("power_port", l);
    OneFine("\n  ", LabelDoc("power_port", l), 5, LabelNode("power_port", l));
    var a, ta := [Item("\n  ", LabelDoc("label", l))], [LabelNode("label", l)];
    JoinFine([Item("\n  ", LabelDoc("power_port", l))], a, 5, [LabelNode("power_port", l)], ta);
    assert [] + a == a && [] + ta == ta;
  }

  lemma {:induction false} LabelsFine(labels: seq<Label>)
    ensures FineItems(LabelItems(labels), 5, LabelNodes(labels))
  {
    hide FineItems, LabelItem, LabelNodesOf;
    if labels == [] {
      NoneFine(5);
    } else {
      var n := |labels| - 1;
      LabelsFine(labels[..n]);
      LabelItemFine(labels[n]);
      JoinFine(LabelItems(labels[..n]), LabelItem(labels[n]), 5, LabelNodes(labels[..n]), LabelNodesOf(labels[n]));
    }
  }

  lemma XyFine(x: int, y: int)
    ensures Fine(Xy(x, y), 1, XyNode(x, y))
  {
    CommonWords();
    hide Fine, IsWord, FmtMm, Plain;
    Leaves(x, "xy", "");
    Leaves(y, "xy", "");
    Plain2("xy", Num(x), Num(y), 0, Atom(FmtMm(x)), Atom(FmtMm(y)));
  }

  lemma WireItemFine(w: Wire)
    ensures FineItems(WireItem(w), 5, WireNodesOf(w))
  {
    CommonWords();
    Gaps();
    hide Fine, FineItems, IsWord, Blank, Plain, Xy, XyNode, AtZero, AtNode, Strip;
    XyFine(w.x1, w.y1);
    XyFine(w.x2, w.y2);
    var pts, tpts := Plain("pts", [Xy(w.x1, w.y1), Xy(w.x2, w.y2)]),
        List([Atom("pts"), XyNode(w.x1, w.y1), XyNode(w.x2, w.y2)]);
    Plain2("pts", Xy(w.x1, w.y1), Xy(w.x2, w.y2), 1, XyNode(w.x1, w.y1), XyNode(w.x2, w.y2));
    Plain1("wire", pts, 2, tpts);
    Deeper(WireDoc(w), 3, 5, WireNode(w));
    OneFine("\n  ", WireDoc(w), 5, WireNode(w));
    Leaves(0, "label", w.net);
    Deeper(Text(w.net), 0, 1, Atom(Strip(w.net)));
    AtZeroFine(w.x1, w.y1);
    var l, tl := Plain("label", [Text(w.net), AtZero(w.x1, w.y1)]),
        List([Atom("label"), Atom(Strip(w.net)), AtNode(w.x1, w.y1, [Atom("0")])]);
    Plain2("label", Text(w.net), AtZero(w.x1, w.y1), 1, Atom(Strip(w.net)), AtNode(w.x1, w.y1, [Atom("0")]));
    Deeper(l, 2, 5, tl);
    OneFine("\n  ", l, 5, tl);
    JoinFine([Item("\n  ", WireDoc(w))], [Item("\n  ", l)], 5, [WireNode(w)], [tl]);
    var a, ta := [Item("\n  ", WireDoc(w))], [WireNode(w)];
    assert a + [] == a && ta + [] == ta;
  }

  lemma {:induction false} WiresFine(wires: seq<Wire>)
    ensures FineItems(WireItems(wires), 5, WireNodes(wires))
  {
    hide FineItems, WireItem, WireNodesOf;
    if wires == [] {
      NoneFine(5);
    } else {
      var n := |wires| - 1;
      WiresFine(wires[..n]);
      WireItemFine(wires[n]);
      JoinFine(WireItems(wires[..n]), WireItem(wires[n]), 5, WireNodes(wires[..n]), WireNodesOf(wires[n]));
    }
  }

  // ---- The library section -------------------------------------------------------------------

  function LibName(c: Comp): string {
    if c.libId != "" then c.libId else "Custom:" + c.reference
  }

  /** The kind of a pin stands unquoted, as it is escaped; pins lie on the grid relative to their part. */
  function LibPinNode(c: Comp, p: Pin): Node {
    List([Atom("pin"), Atom(Escape(if p.kind != "" then p.kind else "passive")), Atom("line"),
          AtNode(SnapToGrid(p.x - c.x), SnapToGrid(p.y - c.y), [Atom("0")]), List([Atom("length"), Atom("2.54")]),
          List([Atom("name"), Atom(Strip(p.name))]), List([Atom("number"), Atom(Strip(p.number))])])
  }

  function LibPinNodes(c: Comp, pins: seq<Pin>): seq<Node> {
    if pins == [] then [] else LibPinNodes(c, pins[..|pins| - 1]) + [LibPinNode(c, pins[|pins| - 1])]
  }

  function LibSymbolNode(c: Comp): Node {
    List([Atom("symbol"), Atom(Strip(LibName(c))), List([Atom("in_bom"), Atom("yes")]),
          List([Atom("on_board"), Atom("yes")]),
          List([Atom("symbol"), Atom(Strip(c.reference + "_1_1"))] + LibPinNodes(c, c.pins))])
  }

  /** Each library symbol once, with the pins of the first part that uses it. */
  function LibNodes(comps: seq<Comp>): seq<Node> {
    if comps == [] then []
    else
      var n := |comps| - 1;
      LibNodes(comps[..n]) +
      (if exists j :: 0 <= j < n && LibName(comps[j]) == LibName(comps[n]) then [] else [LibSymbolNode(comps[n])])
  }

  /** Snapping goes to the nearest point of the 1.27 mm grid, the same way on both sides of zero. */
  lemma SnapsToNearest(v: int)
    ensures SnapToGrid(v) % 12700 == 0 && Abs(SnapToGrid(v) - v) <= 6350 && SnapToGrid(-v) == -SnapToGrid(v)
  {
  }

  lemma {:induction false} LibIdsAre(comps: seq<Comp>, id: string)
    ensures id in LibIds(comps) <==> exists j :: 0 <= j < |comps| && LibName(comps[j]) == id
  {
    if comps != [] {
      var n := |comps| - 1;
      LibIdsAre(comps[..n], id);
      assert LibId(comps[n]) == LibName(comps[n]);
      if j :| 0 <= j < n && LibName(comps[j]) == id {
        assert comps[..n][j] == comps[j];
      }
    }
  }

  /** Pin kinds are printed unquoted, so they must be single words. */
  predicate KindsAreWords(c: Comp) {
    forall i :: 0 <= i < |c.pins| ==> IsWord(Escape(KindOf(c.pins[i])))
  }

  lemma LibPinFine(c: Comp, p: Pin)
    requires IsWord(Escape(KindOf(p)))
    ensures Fine(LibPinDoc(c, p), 2, LibPinNode(c, p))
  {
    CommonWords();
    LongerWords();
    Gaps();
    hide Fine, FineItems, IsWord, Blank, Plain, AtZero, AtNode, Strip, SnapToGrid, Escape, KindOf, Head,
      LibPinNode;
    var kind := Escape(KindOf(p));
    var x, y := SnapToGrid(p.x - c.x), SnapToGrid(p.y - c.y);
    Leaves(0, kind, p.name);
    Leaves(0, "line", p.number);
    Leaves(0, "2.54", "");
    AtZeroFine(x, y);
    Plain1("length", Word("2.54"), 0, Atom("2.54"));
    Plain1("name", Text(p.name), 0, Atom(Strip(p.name)));
    Plain1("number", Text(p.number), 0, Atom(Strip(p.number)));
    var l, n, m := Plain("length", [Word("2.54")]), Plain("name", [Text(p.name)]), Plain("number", [Text(p.number)]);
    var tl, tn, tm := List([Atom("length"), Atom("2.54")]), List([Atom("name"), Atom(Strip(p.name))]),
        List([Atom("number"), Atom(Strip(p.number))]);
    Deeper(Word(kind), 0, 1, Atom(kind));
    Deeper(Word("line"), 0, 1, Atom("line"));
    OneFine("\n          ", n, 1, tn);
    OneFine("\n          ", m, 1, tm);
    var i4 := [Item(" ", Word(kind)), Item(" ", Word("line")), Item(" ", AtZero(x, y)), Item(" ", l)];
    var t4 := [Atom(kind), Atom("line"), AtNode(x, y, [Atom("0")]), tl];
    FourFine(i4[0], i4[1], i4[2], i4[3], 1, t4[0], t4[1], t4[2], t4[3]);
    JoinFine(i4, [Item("\n          ", n)], 1, t4, [tn]);
    JoinFine(i4 + [Item("\n          ", n)], [Item("\n          ", m)], 1, t4 + [tn], [tm]);
    HeadFine("pin", i4 + [Item("\n          ", n)] + [Item("\n          ", m)], "\n        ", 1, t4 + [tn] + [tm]);
    assert i4 + [Item("\n          ", n)] + [Item("\n          ", m)] ==
      [Item(" ", Word(kind)), Item(" ", Word("line")), Item(" ", AtZero(x, y)), Item(" ", l), Item("\n          ", n),
       Item("\n          ", m)];
    assert LibPinNode(c, p) == List([Atom("pin")] + (t4 + [tn] + [tm])) by { LibPinParts(c, p); }
  }

  lemma LibPinParts(c: Comp, p: Pin)
    ensures LibPinNode(c, p) ==
            List([Atom("pin")] +
                 ([Atom(Escape(KindOf(p))), Atom("line"),
                   AtNode(SnapToGrid(p.x - c.x), SnapToGrid(p.y - c.y), [Atom("0")]),
                   List([Atom("length"), Atom("2.54")])] +
                  [List([Atom("name"), Atom(Strip(p.name))])] + [List([Atom("number"), Atom(Strip(p.number))])]))
  {
    hide AtNode, Strip, SnapToGrid, Escape;
  }

  lemma LibSymbolParts(c: Comp)
    ensures var inner := List([Atom("symbol")] + ([Atom(Strip(c.reference + "_1_1"))] + LibPinNodes(c, c.pins)));
            LibSymbolNode(c) ==
            List([Atom("symbol")] + [Atom(Strip(LibId(c))), List([Atom("in_bom"), Atom("yes")]),
                                     List([Atom("on_board"), Atom("yes")]), inner])
  {
    hide Strip, LibPinNodes;
    assert LibId(c) == LibName(c);
    var unit, pins := Atom(Strip(c.reference + "_1_1")), LibPinNodes(c, c.pins);
    assert [Atom("symbol"), unit] + pins == [Atom("symbol")] + ([unit] + pins);
  }

  lemma {:induction false} LibPinsFine(c: Comp, pins: seq<Pin>)
    requires forall i :: 0 <= i < |pins| ==> IsWord(Escape(KindOf(pins[i])))
    ensures FineItems(LibPinItems(c, pins), 2, LibPinNodes(c, pins))
  {
    hide Fine, FineItems, IsWord, Blank, LibPinDoc, LibPinNode;
    if pins == [] {
      NoneFine(2);
    } else {
      var n := |pins| - 1;
      LibPinsFine(c, pins[..n]);
      LibPinFine(c, pins[n]);
      Gaps();
      var d := LibPinDoc(c, pins[n]);
      OneFine("\n        ", d, 2, LibPinNode(c, pins[n]));
      JoinFine(LibPinItems(c, pins[..n]), [Item("\n        ", d)], 2, LibPinNodes(c, pins[..n]),
               [LibPinNode(c, pins[n])]);
    }
  }

  lemma LibSymbolFine(c: Comp)
    requires KindsAreWords(c)
    ensures Fine(LibSymbolDoc(c), 4, LibSymbolNode(c))
  {
    CommonWords();
    LongerWords();
    Gaps();
    LibPinsFine(c, c.pins);
    hide Fine, FineItems, IsWord, Blank, Plain, Strip, Head, LibPinItems, LibId, LibName, LibPinNodes, KindsAreWords,
      LibSymbolNode;
    var unit, id := c.reference + "_1_1", LibId(c);
    Leaves(0, "yes", unit);
    Leaves(0, "yes", id);
    Deeper(Text(unit), 0, 2, Atom(Strip(unit)));
    OneFine(" ", Text(unit), 2, Atom(Strip(unit)));
    var pins := LibPinItems(c, c.pins);
    JoinFine([Item(" ", Text(unit))], pins, 2, [Atom(Strip(unit))], LibPinNodes(c, c.pins));
    var inner := Head("symbol", [Item(" ", Text(unit))] + pins, "\n      ");
    HeadFine("symbol", [Item(" ", Text(unit))] + pins, "\n      ", 2, [Atom(Strip(unit))] + LibPinNodes(c, c.pins));
    var tinner := List([Atom("symbol")] + ([Atom(Strip(unit))] + LibPinNodes(c, c.pins)));
    Plain1("in_bom", Word("yes"), 0, Atom("yes"));
    Plain1("on_board", Word("yes"), 0, Atom("yes"));
    var a, b := Plain("in_bom", [Word("yes")]), Plain("on_board", [Word("yes")]);
    var ta, tb := List([Atom("in_bom"), Atom("yes")]), List([Atom("on_board"), Atom("yes")]);
    Deeper(Text(id), 0, 3, Atom(Strip(id)));
    Deeper(a, 1, 3, ta);
    Deeper(b, 1, 3, tb);
    FourFine(Item(" ", Text(id)), Item(" ", a), Item(" ", b), Item("\n      ", inner), 3, Atom(Strip(id)), ta, tb,
             tinner);
    HeadFine("symbol", [Item(" ", Text(id)), Item(" ", a), Item(" ", b), Item("\n      ", inner)], "\n    ", 3,
             [Atom(Strip(id)), ta, tb, tinner]);
    assert LibSymbolNode(c) == List([Atom("symbol")] + [Atom(Strip(id)), ta, tb, tinner]) by { LibSymbolParts(c); }
  }

  lemma {:induction false} LibFine(comps: seq<Comp>)
    requires forall i :: 0 <= i < |comps| ==> KindsAreWords(comps[i])
    ensures FineItems(LibItems(comps), 4, LibNodes(comps))
  {
    hide Fine, FineItems, KindsAreWords, Blank, LibSymbolDoc, LibSymbolNode, LibIds;
    if comps == [] {
      NoneFine(4);
    } else {
      var n := |comps| - 1;
      var rest, nodes := LibItems(comps[..n]), LibNodes(comps[..n]);
      LibFine(comps[..n]);
      LibSymbolFine(comps[n]);
      Gaps();
      var d := LibSymbolDoc(comps[n]);
      OneFine("\n    ", d, 4, LibSymbolNode(comps[n]));
      JoinFine(rest, [Item("\n    ", d)], 4, nodes, [LibSymbolNode(comps[n])]);
      LibSeen(comps);
      assert rest + [] == rest && nodes + [] == nodes;
    }
  }

  lemma LibSeen(comps: seq<Comp>)
    requires comps != []
    ensures var n := |comps| - 1;
            LibId(comps[n]) in LibIds(comps[..n]) <==> exists j :: 0 <= j < n && LibName(comps[j]) == LibName(comps[n])
  {
    var n := |comps| - 1;
    LibIdsAre(comps[..n], LibId(comps[n]));
    assert LibId(comps[n]) == LibName(comps[n]);
    hide LibName, LibId, LibIds;
    if j :| 0 <= j < n && LibName(comps[j]) == LibName(comps[n]) {
      assert comps[..n][j] == comps[j];
    }
  }

  // ---- The whole document --------------------------------------------------------------------

  function VersionNode(): Node { List([Atom("version"), Atom("20231120")]) }
  function GeneratorNode(): Node { List([Atom("generator"), Atom(Strip("aimon-kicad-editor"))]) }
  function PaperNode(): Node { List([Atom("paper"), Atom(Strip("A4"))]) }
  function LibNode(lib: seq<Node>): Node { List([Atom("lib_symbols")] + lib) }

  function PreambleNodes(lib: seq<Node>): seq<Node> {
    [VersionNode(), GeneratorNode(), PaperNode(), LibNode(lib)]
  }

  function SchematicNode(m: Model): Node {
    List([Atom("kicad_sch")] +
         (PreambleNodes(LibNodes(m.comps)) + CompNodes(m.comps) + LabelNodes(m.labels) + WireNodes(m.wires)))
  }

  lemma VersionFine()
    ensures Fine(VersionDoc(), 5, VersionNode())
  {
    LongerWords();
    hide Fine, IsWord, Plain;
    Leaves(0, "20231120", "");
    Plain1("version", Word("20231120"), 0, Atom("20231120"));
    Deeper(VersionDoc(), 1, 5, VersionNode());
  }

  lemma GeneratorFine()
    ensures Fine(GeneratorDoc(), 5, GeneratorNode())
  {
    LongestWords();
    CommonWords();
    hide Fine, IsWord, Plain, Strip;
    Leaves(0, "at", "aimon-kicad-editor");
    Plain1("generator", Text("aimon-kicad-editor"), 0, Atom(Strip("aimon-kicad-editor")));
    Deeper(GeneratorDoc(), 1, 5, GeneratorNode());
  }

  lemma PaperFine()
    ensures Fine(PaperDoc(), 5, PaperNode())
  {
    LongerWords();
    CommonWords();
    hide Fine, IsWord, Plain, Strip;
    Leaves(0, "at", "A4");
    Plain1("paper", Text("A4"), 0, Atom(Strip("A4")));
    Deeper(PaperDoc(), 1, 5, PaperNode());
  }

  lemma LibDocFine(comps: seq<Comp>)
    requires forall i :: 0 <= i < |comps| ==> KindsAreWords(comps[i])
    ensures Fine(LibDoc(comps), 5, LibNode(LibNodes(comps)))
  {
    LongestWords();
    Gaps();
    LibFine(comps);
    hide Fine, FineItems, IsWord, Blank, Head, LibItems, LibNodes, KindsAreWords;
    HeadFine("lib_symbols", LibItems(comps), "\n  ", 4, LibNodes(comps));
  }

  lemma PreambleFine(comps: seq<Comp>)
    requires forall i :: 0 <= i < |comps| ==> KindsAreWords(comps[i])
    ensures FineItems(Preamble(comps), 5, PreambleNodes(LibNodes(comps)))
  {
    VersionFine();
    GeneratorFine();
    PaperFine();
    LibDocFine(comps);
    Gaps();
    hide Fine, FineItems, Blank, VersionDoc, GeneratorDoc, PaperDoc, LibDoc, VersionNode, GeneratorNode, PaperNode,
      LibNode, LibItems, LibNodes;
    FourFine(Item(" ", VersionDoc()), Item(" ", GeneratorDoc()), Item("\n  ", PaperDoc()), Item("\n  ", LibDoc(comps)),
             5,
             VersionNode(), GeneratorNode(), PaperNode(), LibNode(LibNodes(comps)));
  }

  lemma SchematicFine(m: Model)
    requires forall i :: 0 <= i < |m.comps| ==> KindsAreWords(m.comps[i])
    ensures Fine(SchematicDoc(m), 6, SchematicNode(m))
  {
    LongestWords();
    Gaps();
    PreambleFine(m.comps);
    CompsFine(m.comps);
    LabelsFine(m.labels);
    WiresFine(m.wires);
    hide Fine, FineItems, IsWord, Blank, Head, Preamble, CompItems, LabelItems, WireItems, PreambleNodes, CompNodes,
      LabelNodes, WireNodes, KindsAreWords;
    var p, c, l, w := Preamble(m.comps), CompItems(m.comps), LabelItems(m.labels), WireItems(m.wires);
    var tp, tc, tl, tw := PreambleNodes(LibNodes(m.comps)), CompNodes(m.comps), LabelNodes(m.labels),
        WireNodes(m.wires);
    JoinFine(p, c, 5, tp, tc);
    JoinFine(p + c, l, 5, tp + tc, tl);
    JoinFine(p + c + l, w, 5, tp + tc + tl, tw);
    HeadFine("kicad_sch", p + c + l + w, "\n", 5, tp + tc + tl + tw);
  }

  /** Reading a printed schematic gives its tree. */
  lemma PrintedSchematicReads(m: Model)
    requires forall i :: 0 <= i < |m.comps| ==> KindsAreWords(m.comps[i])
    ensures Meaning(Render(SchematicDoc(m)) + "\n") == Ok(SchematicNode(m))
  {
    hide Meaning, SchematicDoc, SchematicNode, Tree, WellFormed, Depth, Render, KindsAreWords;
    SchematicFine(m);
    Gaps();
    RoundTrip("", SchematicDoc(m), "\n");
    assert "" + Render(SchematicDoc(m)) == Render(SchematicDoc(m));
  }
}

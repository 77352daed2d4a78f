/** Printing a schematic as an S-expression document. */
module SchematicText {
  import opened Basics
  import opened Sexp
  import opened SexpPrinting
  import opened Decimals
  import opened Schematic

  // ---- Building documents --------------------------------------------------------------------

  /** A list with a head word; the other items bring the blanks before them. */
  function Head(h: string, items: seq<Item>, last: string): Doc {
    Parens([Item("", Word(h))] + items, last)
  }

  /** Items that stand apart from what is before them, nested at most `d` lists deep. */
  ghost predicate Apart(items: seq<Item>, d: nat) {
    forall i :: 0 <= i < |items| ==>
      Blank(items[i].gap) && items[i].gap != "" && WellFormed(items[i].doc) && Depth(items[i].doc) <= d
  }

  lemma {:induction false} ApartIsWellFormed(h: string, items: seq<Item>, d: nat)
    requires IsWord(h) && Apart(items, d)
    ensures WellFormedItems([Item("", Word(h))] + items) && DepthOf([Item("", Word(h))] + items) <= d
  {
    var first := Item("", Word(h));
    if items == [] {
      OnlyHead(h);
      assert [first] + items == [first];
    } else {
      var n := |items| - 1;
      ApartIsWellFormed(h, items[..n], d);
      hide IsWord, Blank, WellFormed, Depth;
      var all := [first] + items;
      assert all[..|all| - 1] == [first] + items[..n];
      assert all[|all| - 1] == items[n];
    }
  }

  lemma OnlyHead(h: string)
    requires IsWord(h)
    ensures WellFormedItems([Item("", Word(h))]) && DepthOf([Item("", Word(h))]) == 0
  {
    var one := [Item("", Word(h))];
    assert one[..0] == [];
  }

  lemma HeadIsFine(h: string, items: seq<Item>, last: string, d: nat)
    requires IsWord(h) && Apart(items, d) && Blank(last)
    ensures WellFormed(Head(h, items, last)) && Depth(Head(h, items, last)) <= d + 1
    ensures Tree(Head(h, items, last)) == Node.List([Atom(h)] + Trees(items))
  {
    ApartIsWellFormed(h, items, d);
    TreesConcat([Item("", Word(h))], items);
    HeadTree(h);
    hide WellFormedItems, DepthOf, Trees, IsWord, Blank, Apart;
  }

  lemma HeadTree(h: string)
    ensures Trees([Item("", Word(h))]) == [Atom(h)]
  {
    var one := [Item("", Word(h))];
    assert one[..0] == [];
  }

  lemma {:induction false} TreesConcat(a: seq<Item>, b: seq<Item>)
    ensures Trees(a + b) == Trees(a) + Trees(b)
  {
    if b == [] {
      assert a + b == a;
    } else {
      hide Tree;
      var n := |b| - 1;
      assert (a + b)[..|a| + n] == a + b[..n] && (a + b)[|a| + n] == b[n];
      TreesConcat(a, b[..n]);
    }
  }

  lemma ApartConcat(a: seq<Item>, b: seq<Item>, d: nat)
    requires Apart(a, d) && Apart(b, d)
    ensures Apart(a + b, d)
  {
    hide Blank, WellFormed, Depth;
  }

  /** Items separated by one space. */
  function Row(docs: seq<Doc>): seq<Item> {
    if docs == [] then [] else Row(docs[..|docs| - 1]) + [Item(" ", docs[|docs| - 1])]
  }

  ghost predicate Flat(docs: seq<Doc>, d: nat) {
    forall i :: 0 <= i < |docs| ==> WellFormed(docs[i]) && Depth(docs[i]) <= d
  }

  function TreesOf(docs: seq<Doc>): seq<Node> {
    seq(|docs|, i requires 0 <= i < |docs| => Tree(docs[i]))
  }

  lemma {:induction false} RowIsApart(docs: seq<Doc>, d: nat)
    requires Flat(docs, d)
    ensures Apart(Row(docs), d) && Trees(Row(docs)) == TreesOf(docs)
  {
    hide WellFormed, Depth, Tree;
    if docs != [] {
      var n := |docs| - 1;
      RowIsApart(docs[..n], d);
      var one := [Item(" ", docs[n])];
      hide Row, Trees;
      RowLast(docs);
      OneTree(one);
      TreesConcat(Row(docs[..n]), one);
      ApartConcat(Row(docs[..n]), one, d);
      hide Apart;
      assert TreesOf(docs[..n]) + [Tree(docs[n])] == TreesOf(docs);
    }
  }

  lemma RowLast(docs: seq<Doc>)
    requires docs != []
    ensures Row(docs) == Row(docs[..|docs| - 1]) + [Item(" ", docs[|docs| - 1])]
  {
  }

  lemma OneTree(items: seq<Item>)
    requires |items| == 1
    ensures Trees(items) == [Tree(items[0].doc)]
  {
    assert items[..0] == [];
  }

  function Plain(h: string, docs: seq<Doc>): Doc {
    Head(h, Row(docs), "")
  }

  lemma PlainIsFine(h: string, docs: seq<Doc>, d: nat)
    requires IsWord(h) && Flat(docs, d)
    ensures WellFormed(Plain(h, docs)) && Depth(Plain(h, docs)) <= d + 1
    ensures Tree(Plain(h, docs)) == Node.List([Atom(h)] + TreesOf(docs))
  {
    hide IsWord;
    RowIsApart(docs, d);
    HeadIsFine(h, Row(docs), "", d);
  }

  // ---- Words ---------------------------------------------------------------------------------

  function Num(v: int): Doc {
    Word(FmtMm(v))
  }

  lemma {:induction false} DigitsAreWords(s: string)
    requires AllDigits(s)
    ensures forall i :: 0 <= i < |s| ==> !Delimiter(s[i])
  {
  }

  lemma NumIsFine(v: int)
    ensures WellFormed(Num(v)) && Depth(Num(v)) == 0 && Tree(Num(v)) == Atom(FmtMm(v))
  {
    hide Decimal, Padded, TrimZeros;
    var a := Abs(v);
    DigitsAreWords(Decimal(a / UNITS_PER_MM));
    DigitsAreWords(TrimZeros(Padded(a % UNITS_PER_MM, 4)));
  }

  lemma CommonWords()
    ensures IsWord("at") && IsWord("0") && IsWord("xy") && IsWord("pts") && IsWord("pin") && IsWord("net")
    ensures IsWord("1")
    ensures IsWord("yes") && IsWord("line") && IsWord("2.54") && IsWord("name") && IsWord("unit") && IsWord("wire")
    ensures IsWord("label")
  {
  }

  lemma LongerWords()
    ensures IsWord("symbol") && IsWord("length") && IsWord("number") && IsWord("lib_id") && IsWord("in_bom")
    ensures IsWord("paper")
    ensures IsWord("version") && IsWord("20231120") && IsWord("property") && IsWord("on_board")
  {
  }

  lemma LongestWords()
    ensures IsWord("generator") && IsWord("kicad_sch") && IsWord("power_port") && IsWord("lib_symbols")
  {
  }

  // ---- The parts of a schematic --------------------------------------------------------------

  /** Where something is; with an angle, or a plain `0` for one. */
  function At2(x: int, y: int): Doc { Plain("at", [Num(x), Num(y)]) }
  function At3(x: int, y: int, angle: int): Doc { Plain("at", [Num(x), Num(y), Num(angle)]) }
  function AtZero(x: int, y: int): Doc { Plain("at", [Num(x), Num(y), Word("0")]) }

  function PropDoc(k: string, v: string, x: int, y: int): Doc {
    Plain("property", [Text(k), Text(v), AtZero(x, y)])
  }

  function PropItems(props: seq<(string, string)>, x: int, y: int): seq<Item> {
    if props == [] then []
    else
      var p := props[|props| - 1];
      PropItems(props[..|props| - 1], x, y) + [Item("\n    ", PropDoc(p.0, p.1, x, y))]
  }

  function NetDocs(net: string): seq<Doc> {
    if net == "" then [] else [Plain("net", [Text(net)])]
  }

  function PinDoc(p: Pin): Doc {
    Plain("pin", [Text(p.number), At2(p.x, p.y)] + NetDocs(p.net))
  }

  function PinItems(pins: seq<Pin>): seq<Item> {
    if pins == [] then [] else PinItems(pins[..|pins| - 1]) + [Item("\n    ", PinDoc(pins[|pins| - 1]))]
  }

  /** The properties of a part, in the order they are printed. */
  function Props(c: Comp): seq<(string, string)> {
    [("Reference", c.reference), ("Value", c.value), ("Footprint", c.footprint)] +
    (if c.lcsc == "" then [] else [("LCSC", c.lcsc)]) + c.extra
  }

  function CompHeader(c: Comp): seq<Item> {
    [Item(" ", Plain("lib_id", [Text(c.libId)])), Item(" ", At3(c.x, c.y, c.rotation)),
     Item(" ", Plain("unit", [Word("1")]))]
  }

  function CompDoc(c: Comp): Doc {
    Head("symbol", CompHeader(c) + PropItems(Props(c), c.x, c.y) + PinItems(c.pins), "\n  ")
  }

  function CompItems(comps: seq<Comp>): seq<Item> {
    if comps == [] then [] else CompItems(comps[..|comps| - 1]) + [Item("\n  ", CompDoc(comps[|comps| - 1]))]
  }

  function LabelDoc(h: string, l: Label): Doc {
    Plain(h, [Text(l.name), At3(l.x, l.y, l.angle)])
  }

  /** A power label is printed twice: as a power port and as a label. */
  function LabelItem(l: Label): seq<Item> {
    (if l.isPower then [Item("\n  ", LabelDoc("power_port", l))] else []) + [Item("\n  ", LabelDoc("label", l))]
  }

  function LabelItems(labels: seq<Label>): seq<Item> {
    if labels == [] then [] else LabelItems(labels[..|labels| - 1]) + LabelItem(labels[|labels| - 1])
  }

  function Xy(x: int, y: int): Doc { Plain("xy", [Num(x), Num(y)]) }

  function WireDoc(w: Wire): Doc {
    Plain("wire", [Plain("pts", [Xy(w.x1, w.y1), Xy(w.x2, w.y2)])])
  }

  /** The net of a wire becomes a label at its first end. */
  function WireItem(w: Wire): seq<Item> {
    [Item("\n  ", WireDoc(w))] +
    (if w.net == "" then [] else [Item("\n  ", Plain("label", [Text(w.net), AtZero(w.x1, w.y1)]))])
  }

  function WireItems(wires: seq<Wire>): seq<Item> {
    if wires == [] then [] else WireItems(wires[..|wires| - 1]) + WireItem(wires[|wires| - 1])
  }

  // ---- The library section -------------------------------------------------------------------

  /** Rounds to the 1.27 mm grid, halves away from zero. */
  function SnapToGrid(v: int): int {
    if v >= 0 then (v + 6350) / 12700 * 12700 else -((-v + 6350) / 12700 * 12700)
  }

  function KindOf(p: Pin): string {
    if p.kind == "" then "passive" else p.kind
  }

  function LibPinDoc(c: Comp, p: Pin): Doc {
    Head("pin",
         [Item(" ", Word(Escape(KindOf(p)))), Item(" ", Word("line")),
          Item(" ", AtZero(SnapToGrid(p.x - c.x), SnapToGrid(p.y - c.y))), Item(" ", Plain("length", [Word("2.54")])),
          Item("\n          ", Plain("name", [Text(p.name)])), Item("\n          ", Plain("number", [Text(p.number)]))],
         "\n        ")
  }

  function LibPinItems(c: Comp, pins: seq<Pin>): seq<Item> {
    if pins == [] then []
    else LibPinItems(c, pins[..|pins| - 1]) + [Item("\n        ", LibPinDoc(c, pins[|pins| - 1]))]
  }

  function LibId(c: Comp): string {
    if c.libId == "" then "Custom:" + c.reference else c.libId
  }

  function LibSymbolDoc(c: Comp): Doc {
    Head("symbol",
         [Item(" ", Text(LibId(c))), Item(" ", Plain("in_bom", [Word("yes")])),
          Item(" ", Plain("on_board", [Word("yes")])),
          Item("\n      ",
               Head("symbol", [Item(" ", Text(c.reference + "_1_1"))] + LibPinItems(c, c.pins), "\n      "))],
         "\n    ")
  }

  function LibIds(comps: seq<Comp>): set<string> {
    if comps == [] then {} else LibIds(comps[..|comps| - 1]) + {LibId(comps[|comps| - 1])}
  }

  /** Each library symbol once, drawn from the first part that uses it. */
  function LibItems(comps: seq<Comp>): seq<Item> {
    if comps == [] then []
    else
      var rest, c := comps[..|comps| - 1], comps[|comps| - 1];
      LibItems(rest) + (if LibId(c) in LibIds(rest) then [] else [Item("\n    ", LibSymbolDoc(c))])
  }

  function VersionDoc(): Doc { Plain("version", [Word("20231120")]) }
  function GeneratorDoc(): Doc { Plain("generator", [Text("aimon-kicad-editor")]) }
  function PaperDoc(): Doc { Plain("paper", [Text("A4")]) }
  function LibDoc(comps: seq<Comp>): Doc { Head("lib_symbols", LibItems(comps), "\n  ") }

  function Preamble(comps: seq<Comp>): seq<Item> {
    [Item(" ", VersionDoc()), Item(" ", GeneratorDoc()), Item("\n  ", PaperDoc()), Item("\n  ", LibDoc(comps))]
  }

  function SchematicDoc(m: Model): Doc {
    Head("kicad_sch", Preamble(m.comps) + CompItems(m.comps) + LabelItems(m.labels) + WireItems(m.wires), "\n")
  }

  // ---- The printer ---------------------------------------------------------------------------

  lemma RenderSnoc(items: seq<Item>, item: Item)
    ensures RenderItems(items + [item]) == RenderItems(items) + (item.gap + Render(item.doc))
  {
    assert (items + [item])[..|items|] == items;
  }

  lemma {:induction false} RenderConcat(a: seq<Item>, b: seq<Item>)
    ensures RenderItems(a + b) == RenderItems(a) + RenderItems(b)
  {
    if b == [] {
      assert a + b == a;
      assert RenderItems(a) + "" == RenderItems(a);
    } else {
      hide Render, RenderItems;
      var n := |b| - 1;
      assert b == b[..n] + [b[n]] && a + b == (a + b[..n]) + [b[n]];
      RenderConcat(a, b[..n]);
      RenderSnoc(b[..n], b[n]);
      RenderSnoc(a + b[..n], b[n]);
      var p, q, r := RenderItems(a), RenderItems(b[..n]), b[n].gap + Render(b[n].doc);
      assert (p + q) + r == p + (q + r);
    }
  }

  /** Prints the document part by part. */
  method SerializeSchematic(m: Model) returns (out: string)
    ensures out == Render(SchematicDoc(m)) + "\n"
  {
    hide RenderItems, Preamble, CompDoc, LabelItem, WireItem, Render;
    ghost var items := [Item("", Word("kicad_sch"))] + Preamble(m.comps);
    out := "(" + RenderItems([Item("", Word("kicad_sch"))] + Preamble(m.comps));
    for i := 0 to |m.comps|
      invariant items == [Item("", Word("kicad_sch"))] + Preamble(m.comps) + CompItems(m.comps[..i])
      invariant out == "(" + RenderItems(items)
    {
      var next := [Item("\n  ", CompDoc(m.comps[i]))];
      assert m.comps[..i + 1][..i] == m.comps[..i];
      out := Emit(out, items, next);
      items := items + next;
    }
    assert m.comps[..|m.comps|] == m.comps;
    ghost var before := items;
    for i := 0 to |m.labels|
      invariant items == before + LabelItems(m.labels[..i]) && out == "(" + RenderItems(items)
    {
      assert m.labels[..i + 1][..i] == m.labels[..i];
      out := Emit(out, items, LabelItem(m.labels[i]));
      items := items + LabelItem(m.labels[i]);
    }
    assert m.labels[..|m.labels|] == m.labels;
    before := items;
    for i := 0 to |m.wires|
      invariant items == before + WireItems(m.wires[..i]) && out == "(" + RenderItems(items)
    {
      assert m.wires[..i + 1][..i] == m.wires[..i];
      out := Emit(out, items, WireItem(m.wires[i]));
      items := items + WireItem(m.wires[i]);
    }
    assert m.wires[..|m.wires|] == m.wires;
    ghost var all := Preamble(m.comps) + CompItems(m.comps) + LabelItems(m.labels) + WireItems(m.wires);
    assert items == [Item("", Word("kicad_sch"))] + all;
    RenderHead("kicad_sch", all, "\n");
    out := out + ("\n" + ")") + "\n";
  }

  method Emit(out: string, ghost done: seq<Item>, next: seq<Item>) returns (out': string)
    requires out == "(" + RenderItems(done)
    ensures out' == "(" + RenderItems(done + next)
  {
    hide RenderItems;
    RenderConcat(done, next);
    out' := out + RenderItems(next);
  }

  lemma RenderHead(h: string, items: seq<Item>, last: string)
    ensures Render(Head(h, items, last)) == "(" + RenderItems([Item("", Word(h))] + items) + (last + ")")
  {
    hide RenderItems;
  }
}

/** The texts printed for the S-expression reader, and what reading them back gives. */
module SexpPrinting {
  import opened Sexp

  // ---- Quoting -------------------------------------------------------------------------------

  predicate Dropped(c: char) {
    c == '\n' || c == '\r' || c == '\0'
  }

  predicate NeedsBackslash(c: char) {
    c == '"' || c == '\\'
  }

  function EscapeChar(c: char): string {
    (if NeedsBackslash(c) then ['\\'] else []) + (if Dropped(c) then [] else [c])
  }

  function Escape(s: string): string {
    if s == "" then "" else Escape(s[..|s| - 1]) + EscapeChar(s[|s| - 1])
  }

  /** What is left of a string once printed. */
  function Strip(s: string): string {
    if s == "" then "" else Strip(s[..|s| - 1]) + (if Dropped(s[|s| - 1]) then [] else [s[|s| - 1]])
  }

  predicate Printable(s: string) {
    forall i :: 0 <= i < |s| ==> !Dropped(s[i])
  }

  method EscapeSexp(s: string) returns (out: string)
    ensures out == Escape(s)
  {
    out := "";
    for i := 0 to |s|
      invariant out == Escape(s[..i])
    {
      ghost var before := out;
      assert s[..i + 1][..i] == s[..i];
      if s[i] == '"' || s[i] == '\\' {
        out := out + ['\\'];
      }
      if s[i] != '\n' && s[i] != '\r' && s[i] != '\0' {
        out := out + [s[i]];
      }
      assert out == before + EscapeChar(s[i]);
    }
    assert s[..|s|] == s;
  }

  lemma PrintableSnoc(s: string, c: char)
    ensures Printable(s + [c]) <==> Printable(s) && !Dropped(c)
  {
    var all := s + [c];
    assert forall i :: 0 <= i < |s| ==> all[i] == s[i];
    assert all[|s|] == c;
  }

  /** Stripping loses something exactly when a line break or a zero character is present. */
  lemma {:induction false} StripKeeps(s: string)
    ensures |Strip(s)| <= |s|
    ensures Strip(s) == s <==> Printable(s)
  {
    if s != "" {
      var n := |s| - 1;
      StripKeeps(s[..n]);
      assert s == s[..n] + [s[n]];
      PrintableSnoc(s[..n], s[n]);
      hide Printable, Dropped;
      if Dropped(s[n]) {
        assert |Strip(s)| < |s|;
      } else {
        assert Strip(s)[..|Strip(s)| - 1] == Strip(s[..n]);
      }
    }
  }

  // ---- Documents -----------------------------------------------------------------------------

  /** A printed expression: a bare word, a quoted string, or a list with the blanks before each item and before
      its closing parenthesis. */
  datatype Doc = Word(token: string) | Text(text: string) | Parens(items: seq<Item>, last: string)

  datatype Item = Item(gap: string, doc: Doc)

  function Render(d: Doc): string {
    match d
    case Word(token) => token
    case Text(text) => ['"'] + Escape(text) + ['"']
    case Parens(items, last) => ['('] + RenderItems(items) + (last + [')'])
  }

  function RenderItems(items: seq<Item>): string {
    if items == [] then ""
    else
      var n := |items| - 1;
      RenderItems(items[..n]) + (items[n].gap + Render(items[n].doc))
  }

  /** The tree a document stands for. */
  function Tree(d: Doc): Node {
    match d
    case Word(token) => Atom(token)
    case Text(text) => Atom(Strip(text))
    case Parens(items, _) => List(Trees(items))
  }

  function Trees(items: seq<Item>): seq<Node> {
    if items == [] then [] else Trees(items[..|items| - 1]) + [Tree(items[|items| - 1].doc)]
  }

  function Depth(d: Doc): nat {
    match d
    case Parens(items, _) => 1 + DepthOf(items)
    case _ => 0
  }

  function DepthOf(items: seq<Item>): nat {
    if items == [] then 0
    else
      var rest, d := DepthOf(items[..|items| - 1]), Depth(items[|items| - 1].doc);
      if rest < d then d else rest
  }

  predicate Blank(gap: string) {
    forall i :: 0 <= i < |gap| ==> IsSpace(gap[i])
  }

  predicate IsWord(token: string) {
    token != "" && forall i :: 0 <= i < |token| ==> !Delimiter(token[i])
  }

  /** Words contain no delimiter, gaps are blank, and two neighbouring words are apart. */
  predicate WellFormed(d: Doc) {
    match d
    case Word(token) => IsWord(token)
    case Text(_) => true
    case Parens(items, last) => Blank(last) && WellFormedItems(items)
  }

  predicate WellFormedItems(items: seq<Item>) {
    items != [] ==>
      var n := |items| - 1;
      && WellFormedItems(items[..n]) && Blank(items[n].gap) && WellFormed(items[n].doc)
      && (n > 0 && items[n - 1].doc.Word? && items[n].doc.Word? ==> items[n].gap != "")
  }

  // ---- Reading a document back ---------------------------------------------------------------

  lemma {:induction false} ReadsEscaped(stack: seq<seq<Node>>, s: string)
    requires stack != []
    ensures FeedAll(Reading(stack, Quoted("")), Escape(s)) == Reading(stack, Quoted(Strip(s)))
  {
    if s != "" {
      var n := |s| - 1;
      ReadsEscaped(stack, s[..n]);
      FeedConcat(Reading(stack, Quoted("")), Escape(s[..n]), EscapeChar(s[n]));
      ReadsEscapedChar(stack, Strip(s[..n]), s[n]);
    }
  }

  lemma ReadsEscapedChar(stack: seq<seq<Node>>, t: string, c: char)
    requires stack != []
    ensures FeedAll(Reading(stack, Quoted(t)), EscapeChar(c)) ==
            Reading(stack, Quoted(t + if Dropped(c) then [] else [c]))
  {
    hide FeedAll;
    var s := Reading(stack, Quoted(t));
    FeedNone(s);
    FeedOne(s, c);
    FeedOne(s, '\\');
    FeedSnoc(s, ['\\'], c);
    assert t + [] == t;
    assert EscapeChar(c) == if NeedsBackslash(c) then ['\\'] + [c] else if Dropped(c) then "" else [c];
  }

  lemma FeedNone(s: State)
    requires Sound(s)
    ensures FeedAll(s, "") == s
  {
  }

  lemma FeedOne(s: State, c: char)
    requires Sound(s)
    ensures FeedAll(s, [c]) == Feed(s, c)
  {
    FeedNone(s);
    hide FeedAll;
    FeedSnoc(s, "", c);
    assert "" + [c] == [c];
  }

  lemma {:induction false} ReadsBlank(s: State, stack: seq<seq<Node>>, gap: string)
    requires Ready(s, stack) && Sound(s) && Blank(gap)
    ensures stack != [] && Ready(FeedAll(s, gap), stack)
    ensures FeedAll(s, gap) == if gap == "" then s else Reading(stack, Between)
  {
    if gap != "" {
      var n := |gap| - 1;
      ReadsBlank(s, stack, gap[..n]);
      hide FeedAll;
      FeedSnoc(s, gap[..n], gap[n]);
      assert gap[..n] + [gap[n]] == gap;
    }
  }

  lemma {:induction false} ReadsWord(stack: seq<seq<Node>>, token: string)
    requires stack != [] && IsWord(token)
    ensures FeedAll(Reading(stack, Between), token) == Reading(stack, Bare(token))
  {
    var n := |token| - 1;
    var s := Reading(stack, Between);
    assert token[..n] + [token[n]] == token;
    if n == 0 {
      hide FeedAll;
      FeedOne(s, token[0]);
      assert token == [token[0]];
    } else {
      ReadsWord(stack, token[..n]);
      hide FeedAll;
      FeedSnoc(s, token[..n], token[n]);
    }
  }

  /** What reading a document does: it becomes one more child, unless it is nested too deeply. */
  ghost predicate Reads(s: State, stack: seq<seq<Node>>, d: Doc) {
    && Sound(s) && stack != []
    && var s' := FeedAll(s, Render(d));
       if |stack| + Depth(d) <= MAX_DEPTH + 1 then Ready(s', AddChild(stack, Tree(d))) && (s'.mode.Bare? ==> d.Word?)
       else s' == Failed(TooDeep)
  }

  lemma {:induction false} DocReads(s: State, stack: seq<seq<Node>>, d: Doc)
    requires Sound(s) && Ready(s, stack) && stack != [] && |stack| <= MAX_DEPTH + 1
    requires WellFormed(d) && (s.mode.Bare? ==> !d.Word?)
    ensures Reads(s, stack, d)
    decreases d
  {
    match d
    case Word(token) => {
      ReadsWord(stack, token);
    }
    case Text(text) => {
      TextReads(s, stack, text);
    }
    case Parens(items, last) => {
      hide FeedAll, Ready, FeedBetween;
      var inner := stack + [[]];
      Opens(s, stack);
      var s1 := FeedAll(s, ['(']);
      FeedConcat(s, ['('], RenderItems(items));
      FeedConcat(s, ['('] + RenderItems(items), last + [')']);
      if |stack| > MAX_DEPTH {
        FailedStays(s1, RenderItems(items));
        FailedStays(s1, last + [')']);
      } else {
        var s2 := FeedAll(s1, RenderItems(items));
        ItemsRead(s1, inner, items);
        if |stack| + Depth(d) <= MAX_DEPTH + 1 {
          Closes(s2, stack, Trees(items), last);
        } else {
          FailedStays(s2, last + [')']);
        }
      }
    }
  }

  lemma TextReads(s: State, stack: seq<seq<Node>>, text: string)
    requires Sound(s) && Ready(s, stack) && stack != []
    ensures FeedAll(s, Render(Text(text))) == Reading(AddChild(stack, Atom(Strip(text))), Between)
  {
    hide FeedAll;
    FeedOne(s, '"');
    FeedConcat(s, ['"'], Escape(text));
    ReadsEscaped(stack, text);
    FeedSnoc(s, ['"'] + Escape(text), '"');
  }

  lemma Opens(s: State, stack: seq<seq<Node>>)
    requires Sound(s) && Ready(s, stack) && stack != []
    ensures var s1 := FeedAll(s, ['(']);
            if |stack| > MAX_DEPTH then s1 == Failed(TooDeep)
            else s1 == Reading(stack + [[]], Between) && Ready(s1, stack + [[]])
  {
    hide FeedAll;
    FeedOne(s, '(');
  }

  lemma Closes(s: State, stack: seq<seq<Node>>, children: seq<Node>, last: string)
    requires Sound(s) && stack != [] && Ready(s, stack + [children]) && Blank(last)
    ensures FeedAll(s, last + [')']) == Reading(AddChild(stack, List(children)), Between)
    ensures Ready(FeedAll(s, last + [')']), AddChild(stack, List(children)))
  {
    hide FeedAll;
    ReadsBlank(s, stack + [children], last);
    FeedSnoc(s, last, ')');
    assert (stack + [children])[..|stack|] == stack;
  }

  lemma AddsTo(outer: seq<seq<Node>>, children: seq<Node>, child: Node)
    ensures AddChild(outer + [children], child) == outer + [children + [child]]
  {
  }

  lemma LastItem(items: seq<Item>)
    requires items != []
    ensures var n := |items| - 1; var d := items[n].doc;
            && RenderItems(items) == RenderItems(items[..n]) + (items[n].gap + Render(d))
            && Trees(items) == Trees(items[..n]) + [Tree(d)]
            && DepthOf(items) == (if DepthOf(items[..n]) < Depth(d) then Depth(d) else DepthOf(items[..n]))
            && (WellFormedItems(items) ==> WellFormedItems(items[..n]) && Blank(items[n].gap) && WellFormed(d))
            && (WellFormedItems(items) && n > 0 && items[n - 1].doc.Word? && d.Word? ==> items[n].gap != "")
  {
  }

  /** Reading the items of a list whose own children are `[]` so far. */
  lemma {:induction false} ItemsRead(s: State, inner: seq<seq<Node>>, items: seq<Item>)
    requires |inner| > 1 && s == Reading(inner, Between) && inner[|inner| - 1] == [] && |inner| <= MAX_DEPTH + 1
    requires WellFormedItems(items)
    ensures var s' := FeedAll(s, RenderItems(items));
            if |inner| + DepthOf(items) <= MAX_DEPTH + 1
            then Ready(s', inner[..|inner| - 1] + [Trees(items)]) &&
            (s'.mode.Bare? ==> items != [] && items[|items| - 1].doc.Word?)
            else s' == Failed(TooDeep)
    decreases items
  {
    var top := |inner| - 1;
    if items == [] {
      FeedNone(s);
      assert inner[..top] + [[]] == inner;
    } else {
      var n := |items| - 1;
      var d, gap := items[n].doc, items[n].gap;
      ItemsRead(s, inner, items[..n]);
      LastItem(items);
      hide FeedAll, Ready, Feed, FeedBetween, RenderItems, Trees, DepthOf, WellFormedItems, WellFormed, Render, Tree,
        Depth, AddChild;
      FeedConcat(s, RenderItems(items[..n]), gap + Render(d));
      var s1 := FeedAll(s, RenderItems(items[..n]));
      if |inner| + DepthOf(items[..n]) <= MAX_DEPTH + 1 {
        var stack := inner[..top] + [Trees(items[..n])];
        FeedConcat(s1, gap, Render(d));
        ReadsBlank(s1, stack, gap);
        assert n > 0 ==> items[..n][n - 1] == items[n - 1];
        DocReads(FeedAll(s1, gap), stack, d);
        AddsTo(inner[..top], Trees(items[..n]), Tree(d));
      } else {
        FailedStays(s1, gap + Render(d));
      }
    }
  }

  // ---- The parser undoes the printer ---------------------------------------------------------

  /** A printed document, with blanks around it, reads as its tree when it nests at most 256 lists, and is refused
      as too deep otherwise. */
  lemma RoundTrip(pre: string, d: Doc, post: string)
    requires WellFormed(d) && Blank(pre) && Blank(post)
    ensures Meaning(pre + Render(d) + post) == if Depth(d) <= 256 then Ok(Tree(d)) else Err(TooDeep)
  {
    hide FeedAll, Render, Tree, Depth, WellFormed;
    FeedConcat(START, pre + Render(d), post);
    FeedConcat(START, pre, Render(d));
    ReadsBlank(START, [[]], pre);
    var s := FeedAll(START, pre);
    DocReads(s, [[]], d);
    var s' := FeedAll(s, Render(d));
    if Depth(d) <= MAX_DEPTH {
      var stack := AddChild([[]], Tree(d));
      ReadsBlank(s', stack, post);
      RenderNotEmpty(d);
    } else {
      FailedStays(s', post);
      RenderNotEmpty(d);
    }
  }

  lemma RenderNotEmpty(d: Doc)
    requires WellFormed(d)
    ensures Render(d) != ""
  {
  }
}

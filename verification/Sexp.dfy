/** Reading S-expressions with an explicit stack, and the texts that are printed for it to read. */
module Sexp {

  datatype Node = Atom(text: string) | List(children: seq<Node>)

  datatype Error = EmptyInput | TooDeep | UnmatchedClose | UnterminatedString | UnclosedList | NoRoot

  datatype Result = Ok(root: Node) | Err(error: Error)

  const MAX_DEPTH: nat := 256

  predicate IsSpace(c: char) {
    c in {' ', '\t', '\n', '\U{0B}', '\U{0C}', '\r'}
  }

  predicate Delimiter(c: char) {
    IsSpace(c) || c == '(' || c == ')' || c == '"'
  }

  // ---- Reading, one character at a time ------------------------------------------------------

  /** Where in the text a reader is: between atoms, in a bare atom, in a quoted one, or after its backslash. */
  datatype Mode = Between | Bare(token: string) | Quoted(text: string) | Escaped(text: string)

  /** `stack` holds the children read so far of every open list, the outermost container first. */
  datatype State = Reading(stack: seq<seq<Node>>, mode: Mode) | Failed(error: Error)

  function AddChild(stack: seq<seq<Node>>, child: Node): (r: seq<seq<Node>>)
    requires stack != []
    ensures |r| == |stack|
  {
    var top := |stack| - 1;
    stack[top := stack[top] + [child]]
  }

  function Close(stack: seq<seq<Node>>): (r: seq<seq<Node>>)
    requires |stack| > 1
    ensures |r| == |stack| - 1
  {
    AddChild(stack[..|stack| - 1], List(stack[|stack| - 1]))
  }

  predicate Sound(s: State) {
    s.Reading? ==> s.stack != []
  }

  function FeedBetween(stack: seq<seq<Node>>, c: char): (s: State)
    requires stack != []
    ensures Sound(s)
  {
    if IsSpace(c) then Reading(stack, Between)
    else if c == '(' then (if |stack| > MAX_DEPTH then Failed(TooDeep) else Reading(stack + [[]], Between))
    else if c == ')' then (if |stack| <= 1 then Failed(UnmatchedClose) else Reading(Close(stack), Between))
    else if c == '"' then Reading(stack, Quoted(""))
    else Reading(stack, Bare([c]))
  }

  function Feed(s: State, c: char): (r: State)
    requires Sound(s)
    ensures Sound(r)
  {
    match s
    case Failed(_) => s
    case Reading(stack, Between) => FeedBetween(stack, c)
    case Reading(stack, Bare(t)) =>
      if Delimiter(c) then FeedBetween(AddChild(stack, Atom(t)), c) else Reading(stack, Bare(t + [c]))
    case Reading(stack, Quoted(t)) =>
      if c == '\\' then Reading(stack, Escaped(t))
      else if c == '"' then Reading(AddChild(stack, Atom(t)), Between)
      else Reading(stack, Quoted(t + [c]))
    case Reading(stack, Escaped(t)) => Reading(stack, Quoted(t + [c]))
  }

  function FeedAll(s: State, text: string): (r: State)
    requires Sound(s)
    ensures Sound(r)
  {
    if text == "" then s else Feed(FeedAll(s, text[..|text| - 1]), text[|text| - 1])
  }

  const START := Reading([[]], Between)

  /** What a text means: its first root node, or the first thing wrong with it. */
  function Meaning(text: string): Result {
    if text == "" then Err(EmptyInput) else Finish(FeedAll(START, text))
  }

  function Finish(s: State): Result
    requires Sound(s)
  {
    match s
    case Failed(e) => Err(e)
    case Reading(_, Quoted(_)) => Err(UnterminatedString)
    case Reading(_, Escaped(_)) => Err(UnterminatedString)
    case Reading(stack, Bare(t)) => FinishBetween(AddChild(stack, Atom(t)))
    case Reading(stack, Between) => FinishBetween(stack)
  }

  function FinishBetween(stack: seq<seq<Node>>): Result
    requires stack != []
  {
    if |stack| != 1 then Err(UnclosedList)
    else if stack[0] == [] then Err(NoRoot)
    else Ok(stack[0][0])
  }

  lemma {:induction false} FeedConcat(s: State, a: string, b: string)
    requires Sound(s)
    ensures FeedAll(s, a + b) == FeedAll(FeedAll(s, a), b)
  {
    if b == "" {
      assert a + b == a;
    } else {
      hide Feed;
      var n := |b| - 1;
      assert (a + b)[..|a| + n] == a + b[..n] && (a + b)[|a| + n] == b[n];
      FeedConcat(s, a, b[..n]);
    }
  }

  lemma FeedSnoc(s: State, a: string, c: char)
    requires Sound(s)
    ensures FeedAll(s, a + [c]) == Feed(FeedAll(s, a), c)
  {
    assert (a + [c])[..|a|] == a;
  }

  lemma {:induction false} FailedStays(s: State, text: string)
    requires s.Failed?
    ensures FeedAll(s, text) == s
  {
    if text != "" {
      FailedStays(s, text[..|text| - 1]);
    }
  }

  // ---- The parser ----------------------------------------------------------------------------

  /** Ready to read the next item into `stack`: between atoms, or at the end of a bare one. */
  ghost predicate Ready(s: State, stack: seq<seq<Node>>) {
    && s.Reading? && s.stack != []
    && match s.mode
       case Between => s.stack == stack
       case Bare(t) => AddChild(s.stack, Atom(t)) == stack
       case _ => false
  }

  ghost predicate At(text: string, i: nat, stack: seq<seq<Node>>) {
    && i <= |text| && stack != []
    && Ready(FeedAll(START, text[..i]), stack)
    && (FeedAll(START, text[..i]).mode.Bare? ==> i == |text| || Delimiter(text[i]))
  }

  lemma ReadyFeed(s: State, stack: seq<seq<Node>>, c: char)
    requires Ready(s, stack) && Sound(s) && (s.mode.Bare? ==> Delimiter(c))
    ensures stack != [] && Feed(s, c) == FeedBetween(stack, c)
  {
  }

  lemma Step(text: string, i: nat, stack: seq<seq<Node>>)
    requires At(text, i, stack) && i < |text|
    ensures FeedAll(START, text[..i + 1]) == FeedBetween(stack, text[i])
  {
    hide FeedBetween, Feed, FeedAll, Delimiter;
    assert text[..i + 1] == text[..i] + [text[i]];
    FeedSnoc(START, text[..i], text[i]);
    ReadyFeed(FeedAll(START, text[..i]), stack, text[i]);
  }

  lemma Arrives(text: string, i: nat, stack: seq<seq<Node>>)
    requires i <= |text| && stack != [] && FeedAll(START, text[..i]) == Reading(stack, Between)
    ensures At(text, i, stack)
  {
  }

  lemma FailsAt(text: string, i: nat)
    requires i <= |text| && FeedAll(START, text[..i]).Failed? && text != ""
    ensures Meaning(text) == Err(FeedAll(START, text[..i]).error)
  {
    hide FeedAll;
    assert text == text[..i] + text[i..];
    FeedConcat(START, text[..i], text[i..]);
    FailedStays(FeedAll(START, text[..i]), text[i..]);
  }

  /** Reads a quoted atom whose opening quote is at `start - 1`. */
  method ReadQuoted(text: string, start: nat, ghost stack: seq<seq<Node>>) returns (str: string, closed: bool, i: nat)
    requires 0 < start <= |text| && stack != [] && FeedAll(START, text[..start]) == Reading(stack, Quoted(""))
    ensures start <= i <= |text|
    ensures closed ==> FeedAll(START, text[..i]) == Reading(AddChild(stack, Atom(str)), Between)
    ensures !closed ==> Meaning(text) == Err(UnterminatedString)
  {
    hide FeedAll, FeedBetween;
    str, closed, i := "", false, start;
    while i < |text|
      invariant start <= i <= |text| && !closed
      invariant FeedAll(START, text[..i]) == Reading(stack, Quoted(str))
                || (i == |text| && FeedAll(START, text[..i]).Reading? && FeedAll(START, text[..i]).mode.Escaped?)
    {
      assert text[..i + 1] == text[..i] + [text[i]];
      FeedSnoc(START, text[..i], text[i]);
      if text[i] == '\\' && i + 1 < |text| {
        assert text[..i + 2] == text[..i + 1] + [text[i + 1]];
        FeedSnoc(START, text[..i + 1], text[i + 1]);
        str := str + [text[i + 1]];
        i := i + 2;
      } else if text[i] == '"' {
        closed := true;
        i := i + 1;
        break;
      } else {
        str := str + [text[i]];
        i := i + 1;
      }
    }
    assert text[..|text|] == text;
  }

  /** Reads a bare atom that starts at `start`. */
  method ReadBare(text: string, start: nat, ghost stack: seq<seq<Node>>) returns (i: nat)
    requires At(text, start, stack) && start < |text| && !Delimiter(text[start])
    ensures start < i <= |text| && At(text, i, AddChild(stack, Atom(text[start..i])))
  {
    Step(text, start, stack);
    assert text[start..start + 1] == [text[start]];
    hide FeedAll, FeedBetween, At, Delimiter;
    DelimitersAre();
    i := start + 1;
    while i < |text| && !(text[i] == ' ' || 9 <= text[i] as int <= 13) && text[i] !in {'(', ')', '"'}
      invariant start < i <= |text|
      invariant FeedAll(START, text[..i]) == Reading(stack, Bare(text[start..i]))
    {
      assert text[..i + 1] == text[..i] + [text[i]];
      FeedSnoc(START, text[..i], text[i]);
      assert text[start..i + 1] == text[start..i] + [text[i]];
      i := i + 1;
    }
    BareArrives(text, i, stack, text[start..i]);
  }

  lemma DelimitersAre()
    ensures forall c :: Delimiter(c) <==> c == ' ' || 9 <= c as int <= 13 || c in {'(', ')', '"'}
  {
  }

  lemma BareArrives(text: string, i: nat, stack: seq<seq<Node>>, token: string)
    requires i <= |text| && stack != [] && FeedAll(START, text[..i]) == Reading(stack, Bare(token))
    requires i == |text| || Delimiter(text[i])
    ensures At(text, i, AddChild(stack, Atom(token)))
  {
  }

  method Parse(text: string) returns (r: Result)
    ensures r == Meaning(text)
  {
    if text == "" {
      return Err(EmptyInput);
    }
    hide FeedAll, Feed, At, Ready, Meaning;
    var stack: seq<seq<Node>> := [[]];
    var i := 0;
    StartsBetween(text);
    while i < |text|
      invariant At(text, i, stack) && stack != [] && i <= |text|
      decreases |text| - i
    {
      var c := text[i];
      Step(text, i, stack);
      if c == ' ' || 9 <= c as int <= 13 {
        i := i + 1;
        Arrives(text, i, stack);
      } else if c == '(' {
        if |stack| > MAX_DEPTH {
          FailsAt(text, i + 1);
          return Err(TooDeep);
        }
        stack := stack + [[]];
        i := i + 1;
        Arrives(text, i, stack);
      } else if c == ')' {
        if |stack| <= 1 {
          FailsAt(text, i + 1);
          return Err(UnmatchedClose);
        }
        stack := Close(stack);
        i := i + 1;
        Arrives(text, i, stack);
      } else if c == '"' {
        var str, closed, next := ReadQuoted(text, i + 1, stack);
        if !closed {
          return Err(UnterminatedString);
        }
        stack := AddChild(stack, Atom(str));
        i := next;
        Arrives(text, i, stack);
      } else {
        var next := ReadBare(text, i, stack);
        stack := AddChild(stack, Atom(text[i..next]));
        i := next;
      }
    }
    Arrived(text, stack);
    if |stack| != 1 {
      return Err(UnclosedList);
    }
    if stack[0] == [] {
      return Err(NoRoot);
    }
    r := Ok(stack[0][0]);
  }

  lemma StartsBetween(text: string)
    ensures At(text, 0, [[]])
  {
    assert text[..0] == "";
  }

  lemma Arrived(text: string, stack: seq<seq<Node>>)
    requires At(text, |text|, stack) && text != ""
    ensures Meaning(text) == FinishBetween(stack)
  {
    hide FeedAll;
    assert text[..|text|] == text;
  }
}

/** Reading new transcript bytes chunk by chunk into the usage store. */
module TranscriptScan {
  import opened UsageStore

  // ---- Lines ---------------------------------------------------------------------------------

  /** The complete lines of a text, without their newlines, and the unfinished line after them. */
  datatype Text = Text(lines: seq<string>, tail: string)

  function Split(s: string): Text {
    if s == "" then Text([], "")
    else
      var t := Split(s[..|s| - 1]);
      var c := s[|s| - 1];
      if c == '\n' then Text(t.lines + [t.tail], "") else Text(t.lines, t.tail + [c])
  }

  predicate NoNewline(s: string) {
    forall i :: 0 <= i < |s| ==> s[i] != '\n'
  }

  lemma SplitSnoc(s: string, c: char)
    requires c != '\n'
    ensures Split(s + [c]) == Text(Split(s).lines, Split(s).tail + [c])
  {
    assert (s + [c])[..|s|] == s;
  }

  lemma {:induction false} SplitPlain(s: string, seg: string)
    requires NoNewline(seg)
    ensures Split(s + seg) == Text(Split(s).lines, Split(s).tail + seg)
  {
    if seg == "" {
      assert s + seg == s;
      assert Split(s).tail + seg == Split(s).tail;
    } else {
      hide Split;
      var n := |seg| - 1;
      SplitPlain(s, seg[..n]);
      assert s + seg == (s + seg[..n]) + [seg[n]];
      SplitSnoc(s + seg[..n], seg[n]);
      var t := Split(s).tail;
      assert t + seg == t + seg[..n] + [seg[n]];
    }
  }

  lemma EmptySplit()
    ensures Split("") == Text([], "")
  {
  }

  lemma SplitNewline(s: string)
    ensures Split(s + ['\n']) == Text(Split(s).lines + [Split(s).tail], "")
  {
    assert (s + ['\n'])[..|s|] == s;
  }

  lemma {:induction false} SplitTail(s: string)
    ensures NoNewline(Split(s).tail) && |Split(s).tail| <= |s| && Split(s).tail == s[|s| - |Split(s).tail|..]
    ensures |Split(s).tail| < |s| ==> s[|s| - |Split(s).tail| - 1] == '\n'
  {
    hide Split;
    if s == "" {
      EmptySplit();
    } else {
      var n := |s| - 1;
      var t := s[..n];
      SplitTail(t);
      assert s == t + [s[n]];
      var w := Split(t).tail;
      if s[n] == '\n' {
        SplitNewline(t);
        assert s[|s|..] == "";
      } else {
        SplitSnoc(t, s[n]);
        assert s[n - |w|..] == t[n - |w|..] + [s[n]];
        assert |w| < n ==> s[n - |w| - 1] == t[n - |w| - 1];
      }
    }
  }

  /** Lines of a text cut at a line boundary are the lines of the two parts. */
  lemma {:induction false} SplitConcat(a: string, b: string)
    requires Split(a).tail == ""
    ensures Split(a + b) == Text(Split(a).lines + Split(b).lines, Split(b).tail)
  {
    if b == "" {
      assert a + b == a;
      assert Split(a).lines + [] == Split(a).lines;
    } else {
      var n := |b| - 1;
      SplitConcat(a, b[..n]);
      assert (a + b)[..|a| + n] == a + b[..n];
    }
  }

  // ---- What a line contributes ---------------------------------------------------------------

  datatype LineResult = Ignored | Skipped | Row(row: UsageRow)

  /** The fixed limits of a scan and the parser of one line for one account. */
  datatype Limits = Limits(maxLine: nat, chunkBytes: nat, bytesPerPoll: nat, batchRows: nat,
                           parse: string -> LineResult)
  {
    predicate Positive() {
      maxLine > 0 && chunkBytes > 0 && bytesPerPoll > 0 && batchRows > 0
    }

    function Chomp(line: string): string {
      if line != "" && line[|line| - 1] == '\r' then line[..|line| - 1] else line
    }

    function RowsOfLine(line: string): seq<UsageRow> {
      if |line| > maxLine then []
      else match parse(Chomp(line))
           case Row(r) => [r]
           case _ => []
    }

    function SkipsOfLine(line: string): nat {
      if |line| > maxLine || parse(Chomp(line)).Skipped? then 1 else 0
    }

    function Rows(lines: seq<string>): seq<UsageRow> {
      if lines == [] then [] else Rows(lines[..|lines| - 1]) + RowsOfLine(lines[|lines| - 1])
    }

    function Skips(lines: seq<string>): nat {
      if lines == [] then 0 else Skips(lines[..|lines| - 1]) + SkipsOfLine(lines[|lines| - 1])
    }
  }

  lemma RowsSnoc(lim: Limits, lines: seq<string>, line: string)
    ensures lim.Rows(lines + [line]) == lim.Rows(lines) + lim.RowsOfLine(line)
    ensures lim.Skips(lines + [line]) == lim.Skips(lines) + lim.SkipsOfLine(line)
  {
    assert (lines + [line])[..|lines|] == lines;
  }

  lemma {:induction false} RowsConcat(lim: Limits, a: seq<string>, b: seq<string>)
    ensures lim.Rows(a + b) == lim.Rows(a) + lim.Rows(b)
  {
    hide Limits.RowsOfLine;
    if b == [] {
      assert a + b == a;
      assert lim.Rows(b) == [];
    } else {
      hide Limits.Rows, Limits.Skips, Limits.SkipsOfLine;
      var n := |b| - 1;
      RowsConcat(lim, a, b[..n]);
      assert a + b == (a + b[..n]) + [b[n]] && b == b[..n] + [b[n]];
      RowsSnoc(lim, a + b[..n], b[n]);
      RowsSnoc(lim, b[..n], b[n]);
      var p, q, r := lim.Rows(a), lim.Rows(b[..n]), lim.RowsOfLine(b[n]);
      assert p + (q + r) == (p + q) + r;
    }
  }

  // ---- Which lines a table holds -------------------------------------------------------------

  /** A complete line from `a` to the newline at `b`, in a text read from `from` on. */
  ghost predicate LineAt(content: string, from: nat, a: nat, b: nat) {
    && from <= a <= b < |content| && content[b] == '\n' && NoNewline(content[a..b])
    && (a == from || content[a - 1] == '\n')
  }

  /** The line is short enough, and without the one carriage return it may end in it is this row. */
  ghost predicate Gives(lim: Limits, line: string, r: UsageRow) {
    && |line| <= lim.maxLine
    && if line != "" && line[|line| - 1] == '\r'
       then exists text :: line == text + "\r" && lim.parse(text) == Row(r)
       else lim.parse(line) == Row(r)
  }

  /** The row's message is in the table, with at least the row's output. */
  ghost predicate Kept(rows: Table, r: UsageRow) {
    var key := Key(r.account, r.messageId, r.requestId);
    key in rows && rows[key].output >= r.output
  }

  /** Every valid row of a complete line between two places is kept. */
  ghost predicate LinesKept(lim: Limits, content: string, from: nat, to: nat, rows: Table) {
    forall a: nat, b: nat, r :: LineAt(content, from, a, b) && b < to && Gives(lim, content[a..b], r) && ValidRow(r) ==>
      Kept(rows, r)
  }

  /** An entry records the row of one of these lines. */
  ghost predicate FromLine(lim: Limits, content: string, from: nat, to: nat, key: Key, entry: Stored, a: nat, b: nat,
                           r: UsageRow) {
    && LineAt(content, from, a, b) && b < to && Gives(lim, content[a..b], r) && ValidRow(r)
    && key == Key(r.account, r.messageId, r.requestId) && Records(entry, r)
  }

  /** Every entry is an old one or records the row of one of these lines. */
  ghost predicate OnlyLines(lim: Limits, content: string, from: nat, to: nat, base: Table, rows: Table) {
    forall key :: key in rows ==>
      || (key in base && rows[key] == base[key])
      || exists a: nat, b: nat, r :: FromLine(lim, content, from, to, key, rows[key], a, b, r)
  }

  lemma SplitGrows(t: string, c: char)
    ensures forall line :: line in Split(t).lines ==> line in Split(t + [c]).lines
    ensures c == '\n' ==> Split(t).tail in Split(t + [c]).lines
  {
    assert (t + [c])[..|t|] == t;
  }

  lemma {:induction false} SplitHasLine(s: string, a: nat, b: nat)
    requires LineAt(s, 0, a, b)
    ensures s[a..b] in Split(s).lines
  {
    hide Split, NoNewline;
    var n := |s| - 1;
    var t := s[..n];
    assert s == t + [s[n]];
    SplitGrows(t, s[n]);
    if b < n {
      assert t[a..b] == s[a..b];
      SplitHasLine(t, a, b);
    } else {
      assert t[a..] == s[a..b];
      assert a > 0 ==> t[a - 1] == s[a - 1];
      TailStarts(t, a);
    }
  }

  /** The unfinished line starts where the last newline ends. */
  lemma TailStarts(t: string, a: nat)
    requires a <= |t| && NoNewline(t[a..]) && (a == 0 || t[a - 1] == '\n')
    ensures Split(t).tail == t[a..]
  {
    hide Split;
    assert t == t[..a] + t[a..];
    SplitPlain(t[..a], t[a..]);
    if a > 0 {
      assert t[..a] == t[..a - 1] + ['\n'];
      SplitNewline(t[..a - 1]);
    } else {
      assert t[..a] == "";
      EmptySplit();
    }
    assert "" + t[a..] == t[a..];
  }

  lemma {:induction false} SplitLineAt(s: string, j: nat) returns (a: nat, b: nat)
    requires j < |Split(s).lines|
    ensures LineAt(s, 0, a, b) && s[a..b] == Split(s).lines[j]
  {
    var n := |s| - 1;
    var t := s[..n];
    if j < |Split(t).lines| {
      a, b := SplitLineAt(t, j);
      assert t[a..b] == s[a..b];
    } else {
      SplitTail(t);
      a, b := n - |Split(t).tail|, n;
      assert t[a..] == s[a..b];
      assert a > 0 ==> t[a - 1] == s[a - 1];
    }
  }

  lemma {:induction false} RowsHaveLine(lim: Limits, lines: seq<string>, j: nat, r: UsageRow)
    requires j < |lines| && Gives(lim, lines[j], r)
    ensures r in lim.Rows(lines)
  {
    var n := |lines| - 1;
    if j < n {
      RowsHaveLine(lim, lines[..n], j, r);
    } else {
      GivesItsRow(lim, lines[n], r);
    }
  }

  lemma GivesItsRow(lim: Limits, line: string, r: UsageRow)
    ensures Gives(lim, line, r) <==> lim.RowsOfLine(line) == [r]
    ensures lim.RowsOfLine(line) == [] || exists q :: lim.RowsOfLine(line) == [q]
  {
    if line != "" && line[|line| - 1] == '\r' {
      var cut := line[..|line| - 1];
      assert line == cut + "\r";
      forall text | line == text + "\r"
        ensures text == cut
      {
        assert (text + "\r")[..|text|] == text;
      }
    }
    match lim.parse(lim.Chomp(line))
    case Row(q) => assert |line| <= lim.maxLine ==> lim.RowsOfLine(line) == [q];
    case _ =>
  }

  lemma {:induction false} RowHasLine(lim: Limits, lines: seq<string>, i: nat) returns (j: nat)
    requires i < |lim.Rows(lines)|
    ensures j < |lines| && Gives(lim, lines[j], lim.Rows(lines)[i])
  {
    hide Limits.RowsOfLine;
    var n := |lines| - 1;
    if i < |lim.Rows(lines[..n])| {
      j := RowHasLine(lim, lines[..n], i);
    } else {
      j := n;
      GivesItsRow(lim, lines[n], lim.Rows(lines)[i]);
    }
  }

  lemma SliceOfSlice(content: string, offset: nat, k: nat, a: nat, b: nat)
    requires offset <= k <= |content| && a <= b <= k - offset
    ensures content[offset..k][a..b] == content[offset + a..offset + b]
    ensures forall i :: 0 <= i < k - offset ==> content[offset..k][i] == content[offset + i]
  {
    var part, whole := content[offset..k][a..b], content[offset + a..offset + b];
    forall i | 0 <= i < b - a
      ensures part[i] == whole[i]
    {
      assert part[i] == content[offset..k][a + i];
    }
    assert |part| == |whole|;
  }

  /** Ingesting the lines of a stretch keeps all their valid rows and nothing else. */
  lemma UptoKeepsLines(lim: Limits, base: Table, table: Table, content: string, offset: nat, k: nat)
    requires Upto(lim, base, table, content, offset, k)
    ensures LinesKept(lim, content, offset, k, table) && OnlyLines(lim, content, offset, k, base, table)
  {
    hide Split, IngestAll, Limits.Rows, Gives, ValidRow, Records, NoNewline;
    var seen := content[offset..k];
    var lines := Split(seen).lines;
    var rows := lim.Rows(lines);
    forall a: nat, b: nat, r | LineAt(content, offset, a, b) && b < k && Gives(lim, content[a..b], r) && ValidRow(r)
      ensures Kept(table, r)
    {
      SliceOfSlice(content, offset, k, a - offset, b - offset);
      assert LineAt(seen, 0, a - offset, b - offset);
      SplitHasLine(seen, a - offset, b - offset);
      var j :| 0 <= j < |lines| && lines[j] == content[a..b];
      RowsHaveLine(lim, lines, j, r);
      var i :| 0 <= i < |rows| && rows[i] == r;
      IngestedIsDominated(base, rows, i);
    }
    forall key | key in table && !(key in base && table[key] == base[key])
      ensures exists a: nat, b: nat, r :: FromLine(lim, content, offset, k, key, table[key], a, b, r)
    {
      var i := EntryHasRow(base, rows, key);
      var j := RowHasLine(lim, lines, i);
      var a, b := SplitLineAt(seen, j);
      SliceOfSlice(content, offset, k, a, b);
      assert LineAt(content, offset, offset + a, offset + b);
      assert FromLine(lim, content, offset, k, key, table[key], offset + a, offset + b, rows[i]);
    }
  }

  // ---- Scan state ----------------------------------------------------------------------------

  datatype ScanState = ScanState(pending: string, oversize: bool, committed: nat, skipped: nat, batch: seq<UsageRow>)

  /** The partial line since `committed` is held verbatim unless it is already too long to be used. */
  predicate Holding(lim: Limits, pending: string, oversize: bool, tail: string) {
    if oversize then |tail| > lim.maxLine else pending == tail
  }

  /** After reading `seen`, the bytes from the starting offset on: everything in its complete lines is either in
      the table or in the batch, and the cursor candidate is just past the last newline. */
  ghost predicate Scanned(lim: Limits, base: Table, table: Table, offset: nat, seen: string, s: ScanState) {
    var t := Split(seen);
    && Holding(lim, s.pending, s.oversize, t.tail)
    && s.committed == offset + |seen| - |t.tail|
    && s.skipped == lim.Skips(t.lines)
    && IngestAll(table, s.batch) == IngestAll(base, lim.Rows(t.lines))
  }

  /** The table is the old one with the rows of a stretch of complete lines ingested. */
  ghost predicate Upto(lim: Limits, base: Table, table: Table, content: string, offset: nat, k: nat) {
    && offset <= k <= |content|
    && Split(content[offset..k]).tail == ""
    && table == IngestAll(base, lim.Rows(Split(content[offset..k]).lines))
  }

  lemma ScannedStart(lim: Limits, base: Table, offset: nat)
    ensures Scanned(lim, base, base, offset, "", ScanState("", false, offset, 0, []))
  {
  }

  // ---- Steps of the inner loop ---------------------------------------------------------------

  /** The held part of the current line, with the bytes of this chunk that are not copied yet. */
  ghost predicate Reading(lim: Limits, base: Table, table: Table, offset: nat, seen: string, s: ScanState,
                          ahead: string)
  {
    Scanned(lim, base, table, offset, seen, if s.oversize then s else s.(pending := s.pending + ahead))
  }

  /** A byte other than a newline only makes the unfinished line longer. */
  lemma ReadPlain(lim: Limits, base: Table, table: Table, offset: nat, seen: string, s: ScanState, ahead: string,
                  c: char)
    requires Reading(lim, base, table, offset, seen, s, ahead) && c != '\n'
    ensures Reading(lim, base, table, offset, seen + [c], s, ahead + [c])
  {
    hide IngestAll, Limits.Rows, Limits.Skips;
    SplitPlain(seen, [c]);
    assert s.pending + (ahead + [c]) == s.pending + ahead + [c];
  }

  /** The line that a newline ends, and what is done with it. */
  function EndLine(lim: Limits, s: ScanState, ahead: string, committed: nat): ScanState {
    var line := s.pending + ahead;
    if s.oversize || |line| > lim.maxLine then ScanState("", false, committed, s.skipped + 1, s.batch)
    else match lim.parse(lim.Chomp(line))
         case Row(r) => ScanState("", false, committed, s.skipped, s.batch + [r])
         case Skipped => ScanState("", false, committed, s.skipped + 1, s.batch)
         case Ignored => ScanState("", false, committed, s.skipped, s.batch)
  }

  lemma ReadNewline(lim: Limits, base: Table, table: Table, offset: nat, seen: string, s: ScanState, ahead: string)
    requires Reading(lim, base, table, offset, seen, s, ahead)
    ensures Reading(lim, base, table, offset, seen + ['\n'], EndLine(lim, s, ahead, offset + |seen| + 1), "")
  {
    hide IngestAll, Limits.Rows, Limits.Skips, Limits.RowsOfLine, Limits.SkipsOfLine, Split, EndLine;
    var t := Split(seen);
    SplitNewline(seen);
    RowsSnoc(lim, t.lines, t.tail);
    var rows := lim.RowsOfLine(t.tail);
    IngestConcat(table, s.batch, rows);
    IngestConcat(base, lim.Rows(t.lines), rows);
    EndLineAdds(lim, s, ahead, t.tail, offset + |seen| + 1);
  }

  lemma EndLineAdds(lim: Limits, s: ScanState, ahead: string, tail: string, committed: nat)
    requires Holding(lim, if s.oversize then s.pending else s.pending + ahead, s.oversize, tail)
    ensures EndLine(lim, s, ahead, committed) ==
            ScanState("", false, committed, s.skipped + lim.SkipsOfLine(tail), s.batch + lim.RowsOfLine(tail))
  {
    assert s.batch + [] == s.batch;
  }

  /** At the end of a chunk the rest of the line is copied, or dropped once it is too long. */
  function EndChunk(lim: Limits, s: ScanState, ahead: string): ScanState {
    if s.oversize then s
    else if |s.pending + ahead| > lim.maxLine then s.(pending := "", oversize := true)
    else s.(pending := s.pending + ahead)
  }

  lemma ChunkEnds(lim: Limits, base: Table, table: Table, offset: nat, seen: string, s: ScanState, ahead: string)
    requires Reading(lim, base, table, offset, seen, s, ahead)
    ensures Scanned(lim, base, table, offset, seen, EndChunk(lim, s, ahead))
  {
    hide IngestAll, Limits.Rows, Limits.Skips, Split;
  }

  /** Flushing moves the batch into the table and nothing else. */
  lemma FlushKeeps(lim: Limits, base: Table, table: Table, offset: nat, seen: string, s: ScanState, ahead: string)
    requires Reading(lim, base, table, offset, seen, s, ahead)
    ensures Reading(lim, base, IngestAll(table, s.batch), offset, seen, s.(batch := []), ahead)
  {
    hide Limits.Rows, Limits.Skips, Split;
    assert IngestAll(IngestAll(table, s.batch), []) == IngestAll(table, s.batch);
  }

  lemma SplitDropTail(s: string)
    ensures |Split(s).tail| <= |s| && Split(s[..|s| - |Split(s).tail|]) == Text(Split(s).lines, "")
  {
    hide Split;
    SplitTail(s);
    var k := |s| - |Split(s).tail|;
    assert s == s[..k] + Split(s).tail;
    SplitPlain(s[..k], Split(s).tail);
    CutIsLineEnd(s, k);
  }

  lemma CutIsLineEnd(s: string, k: nat)
    requires k <= |s| && (k > 0 ==> s[k - 1] == '\n')
    ensures Split(s[..k]).tail == ""
  {
  }

  /** With an empty batch, the table holds exactly the complete lines read so far. */
  lemma FlushedUpto(lim: Limits, base: Table, table: Table, content: string, offset: nat, position: nat, s: ScanState)
    requires offset <= position <= |content|
    requires Scanned(lim, base, table, offset, content[offset..position], s) && s.batch == []
    ensures Upto(lim, base, table, content, offset, s.committed) && s.committed <= position
  {
    hide Limits.Rows, Limits.Skips, Split, IngestAll, Holding;
    var seen := content[offset..position];
    SplitDropTail(seen);
    var k := |seen| - |Split(seen).tail|;
    assert seen[..k] == content[offset..offset + k];
    IngestNothing(table);
  }

  lemma IngestNothing(table: Table)
    ensures IngestAll(table, []) == table
  {
  }

  // ---- The scan ------------------------------------------------------------------------------

  method Flush(store: Store, batch: seq<UsageRow>) returns (ok: bool)
    modifies store`rows
    ensures ok ==> store.rows == IngestAll(old(store.rows), batch)
    ensures !ok ==> store.rows == old(store.rows)
  {
    if batch == [] {
      return true;
    }
    var r := store.Ingest(batch);
    ok := r.ok;
  }

  /** One chunk of `n` bytes. A batch is flushed as soon as it is full, always right after a complete line, so
      even after a failed flush the table holds exactly the complete lines up to some line end. */
  method ScanChunk(store: Store, lim: Limits, content: string, offset: nat, position: nat, n: nat, s0: ScanState,
                   ghost base: Table, ghost flushed0: nat)
    returns (s: ScanState, ok: bool, ghost flushed: nat)
    requires offset <= position && position + n <= |content|
    requires Scanned(lim, base, store.rows, offset, content[offset..position], s0)
    requires Upto(lim, base, store.rows, content, offset, flushed0)
    modifies store`rows
    ensures Upto(lim, base, store.rows, content, offset, flushed)
    ensures ok ==> Scanned(lim, base, store.rows, offset, content[offset..position + n], s)
  {
    hide Scanned, Upto, Split, Holding, EndLine, EndChunk, IngestAll;
    s, ok, flushed := s0, true, flushed0;
    var start := position;
    ChunkBegins(lim, base, store.rows, offset, content[offset..position], s0);
    assert content[start..position] == "";
    hide Reading;
    for i := position to position + n
      invariant position <= start <= i && ok
      invariant Reading(lim, base, store.rows, offset, content[offset..i], s, content[start..i])
      invariant Upto(lim, base, store.rows, content, offset, flushed)
    {
      assert content[offset..i + 1] == content[offset..i] + [content[i]];
      if content[i] != '\n' {
        ReadPlain(lim, base, store.rows, offset, content[offset..i], s, content[start..i], content[i]);
        assert content[start..i + 1] == content[start..i] + [content[i]];
      } else {
        ReadNewline(lim, base, store.rows, offset, content[offset..i], s, content[start..i]);
        s := EndLine(lim, s, content[start..i], i + 1);
        start := i + 1;
        assert content[start..i + 1] == "";
        if |s.batch| >= lim.batchRows {
          FlushKeeps(lim, base, store.rows, offset, content[offset..i + 1], s, "");
          ok := Flush(store, s.batch);
          if !ok {
            return;
          }
          s := s.(batch := []);
          ReadingFlushed(lim, base, store.rows, content, offset, i + 1, s);
          flushed := s.committed;
        }
      }
    }
    ChunkEnds(lim, base, store.rows, offset, content[offset..position + n], s, content[start..position + n]);
    s := EndChunk(lim, s, content[start..position + n]);
  }

  lemma ChunkBegins(lim: Limits, base: Table, table: Table, offset: nat, seen: string, s: ScanState)
    requires Scanned(lim, base, table, offset, seen, s)
    ensures Reading(lim, base, table, offset, seen, s, "")
  {
    hide Scanned;
    assert s.pending + "" == s.pending;
  }

  lemma ReadingFlushed(lim: Limits, base: Table, table: Table, content: string, offset: nat, at: nat, s: ScanState)
    requires offset <= at <= |content|
    requires Reading(lim, base, table, offset, content[offset..at], s, "") && s.batch == []
    ensures Upto(lim, base, table, content, offset, s.committed) && s.committed <= at
  {
    hide Upto, Holding, Split, IngestAll;
    assert s.pending + "" == s.pending;
    FlushedUpto(lim, base, table, content, offset, at, s);
  }

  datatype ScanResult = ScanResult(ok: bool, bytesRead: nat, skipped: nat)

  /** Where a scan starts: at the cursor, or over again when the file has shrunk below it. */
  function StartOffset(cursors: map<(string, string), FileCursor>, key: (string, string), size: nat): int {
    if key in cursors && cursors[key].offset <= size then cursors[key].offset else 0
  }

  /** The unchanged-file shortcut. */
  predicate Unchanged(cursors: map<(string, string), FileCursor>, key: (string, string), size: nat, mtime: int) {
    key in cursors && cursors[key].offset <= size && cursors[key].size == size && cursors[key].mtime == mtime
  }

  // ---- How far a scan reads ------------------------------------------------------------------

  /** How many bytes the read at a file position returns. */
  type Reads = nat -> nat

  /** A read returns at least one byte and at most a chunk, and never past the end of the file. */
  ghost predicate ReadsOk(lim: Limits, length: nat, read: Reads) {
    forall at: nat :: at < length ==> 1 <= read(at) <= lim.chunkBytes && at + read(at) <= length
  }

  /** Where reading stops: at the end of the file, or with the poll's byte budget spent. */
  function Stop(lim: Limits, length: nat, start: nat, at: nat, read: Reads): (p: nat)
    ensures at <= p && (at <= length ==> p <= length)
    decreases length - at
  {
    if at >= length || at - start >= lim.bytesPerPoll || read(at) == 0 || at + read(at) > length then at
    else Stop(lim, length, start, at + read(at), read)
  }

  lemma {:induction false} StopBounds(lim: Limits, length: nat, start: nat, at: nat, read: Reads)
    requires lim.Positive() && ReadsOk(lim, length, read) && start <= at <= length
    requires at - start < lim.bytesPerPoll + lim.chunkBytes
    ensures var p := Stop(lim, length, start, at, read);
            && at <= p <= length && p - start < lim.bytesPerPoll + lim.chunkBytes
            && (p == length || lim.bytesPerPoll <= p - start)
    decreases length - at
  {
    if at < length && at - start < lim.bytesPerPoll {
      StopBounds(lim, length, start, at + read(at), read);
    }
  }

  /** A finished scan: everything up to the last newline read is in, skips are counted once each, and reading
      stopped at the end of the file or with the poll's byte budget spent. */
  ghost predicate Complete(lim: Limits, base: Table, table: Table, content: string, start: nat, position: nat,
                           committed: nat, hitLimit: bool, res: ScanResult) {
    && start <= committed <= position <= |content|
    && Upto(lim, base, table, content, start, committed)
    && NoNewline(content[committed..position])
    && res.skipped == lim.Skips(Split(content[start..committed]).lines)
    && res.bytesRead == position - start
    && position - start < lim.bytesPerPoll + lim.chunkBytes
    && (if hitLimit then lim.bytesPerPoll <= position - start else position == |content|)
  }

  /** Scans one transcript. `sizeAtStat` bytes existed when the file was examined; it may have grown since, and
      `content` is what the reads return, `read` how much each of them does. Opening, seeking, any read, any flush
      and saving the cursor may fail. */
  method ScanFile(store: Store, account: string, path: string, content: string, sizeAtStat: nat, mtime: int,
                  lim: Limits, read: Reads)
    returns (res: ScanResult, ghost start: nat, ghost position: nat, ghost committed: nat, ghost hitLimit: bool)
    requires lim.Positive() && sizeAtStat <= |content| && ReadsOk(lim, |content|, read)
    requires (account, path) in store.cursors ==> store.cursors[(account, path)].offset >= 0
    modifies store
    ensures start == StartOffset(old(store.cursors), (account, path), sizeAtStat)
    ensures Unchanged(old(store.cursors), (account, path), sizeAtStat, mtime) ==>
              store.rows == old(store.rows) && store.cursors == old(store.cursors)
    ensures !res.ok ==>
              store.cursors == old(store.cursors) && Upto(lim, old(store.rows), store.rows, content, start, committed)
    ensures res.ok && !Unchanged(old(store.cursors), (account, path), sizeAtStat, mtime) ==>
              && Complete(lim, old(store.rows), store.rows, content, start, position, committed, hitLimit, res)
              && position == Stop(lim, |content|, start, start, read)
              && LinesKept(lim, content, start, committed, store.rows)
              && OnlyLines(lim, content, start, committed, old(store.rows), store.rows)
              && store.cursors == old(store.cursors)[(account, path) :=
                   FileCursor(committed, if hitLimit then committed else sizeAtStat, mtime)]
  {
    hide Scanned, Upto, Split, IngestAll, Holding, NoNewline, LinesKept, OnlyLines;
    var key := (account, path);
    var offset: nat := StartOffset(store.cursors, key, sizeAtStat);
    ghost var base := store.rows;
    start, position, committed, hitLimit := offset, offset, offset, false;
    NothingRead(lim, base, content, offset);
    var openFails: bool := *;
    if openFails {
      return ScanResult(false, 0, 0), start, position, committed, hitLimit;
    }
    if key in store.cursors && offset == store.cursors[key].offset && sizeAtStat == store.cursors[key].size &&
       mtime == store.cursors[key].mtime {
      return ScanResult(true, 0, 0), start, position, committed, hitLimit;
    }
    var s := ScanState("", false, offset, 0, []);
    var at: nat := offset;
    var limited := false;
    assert content[offset..offset] == "";
    while true
      invariant offset <= at <= |content| && position == at
      invariant Scanned(lim, base, store.rows, offset, content[offset..at], s)
      invariant Upto(lim, base, store.rows, content, offset, committed)
      invariant store.cursors == old(store.cursors) && !limited
      invariant at - offset < lim.bytesPerPoll + lim.chunkBytes
      invariant Stop(lim, |content|, offset, offset, read) == Stop(lim, |content|, offset, at, read)
      decreases |content| - at
    {
      if at - offset >= lim.bytesPerPoll {
        limited := true;
        break;
      }
      var readFails: bool := *;
      if readFails {
        return ScanResult(false, at - offset, s.skipped), start, position, committed, hitLimit;
      }
      if at == |content| {
        break;
      }
      var n := read(at);
      var ok;
      s, ok, committed := ScanChunk(store, lim, content, offset, at, n, s, base, committed);
      if !ok {
        return ScanResult(false, at + n - offset, s.skipped), start, position, committed, hitLimit;
      }
      at := at + n;
      position := at;
    }
    hitLimit := limited;
    res := ScanResult(true, at - offset, s.skipped);
    ScannedFlush(lim, base, store.rows, offset, content[offset..at], s);
    var flushed := Flush(store, s.batch);
    if !flushed {
      return res.(ok := false), start, position, committed, hitLimit;
    }
    ScanCompletes(lim, base, store.rows, content, offset, at, s.(batch := []));
    UptoKeepsLines(lim, base, store.rows, content, offset, s.committed);
    committed := s.committed;
    var saved :=
          store.SaveCursor(account, path, FileCursor(s.committed, if limited then s.committed else sizeAtStat, mtime));
    if !saved {
      res := res.(ok := false);
    }
  }

  lemma NothingRead(lim: Limits, base: Table, content: string, offset: nat)
    requires offset <= |content|
    ensures Upto(lim, base, base, content, offset, offset)
    ensures Scanned(lim, base, base, offset, "", ScanState("", false, offset, 0, []))
  {
    assert content[offset..offset] == "";
    ScannedStart(lim, base, offset);
  }

  lemma ScannedFlush(lim: Limits, base: Table, table: Table, offset: nat, seen: string, s: ScanState)
    requires Scanned(lim, base, table, offset, seen, s)
    ensures Scanned(lim, base, IngestAll(table, s.batch), offset, seen, s.(batch := []))
  {
    hide Limits.Rows, Limits.Skips, Split;
    assert IngestAll(IngestAll(table, s.batch), []) == IngestAll(table, s.batch);
  }

  lemma ScanCompletes(lim: Limits, base: Table, table: Table, content: string, offset: nat, position: nat, s: ScanState)
    requires offset <= position <= |content|
    requires Scanned(lim, base, table, offset, content[offset..position], s) && s.batch == []
    ensures Upto(lim, base, table, content, offset, s.committed) && offset <= s.committed <= position
    ensures NoNewline(content[s.committed..position])
    ensures s.skipped == lim.Skips(Split(content[offset..s.committed]).lines)
  {
    hide Split, Limits.Skips, IngestAll, Limits.Rows, Holding, NoNewline, Upto;
    var seen := content[offset..position];
    FlushedUpto(lim, base, table, content, offset, position, s);
    SplitTail(seen);
    SplitDropTail(seen);
    var k := |seen| - |Split(seen).tail|;
    assert seen[..k] == content[offset..s.committed];
    assert seen[k..] == content[s.committed..position];
  }
}

/** Whole runs over one append-only transcript: polls, appends, spent budgets and failures in any order. */
module ExactlyOnce {
  import opened UsageStore
  import opened TranscriptScan

  predicate LineEnd(content: string, k: nat) {
    k <= |content| && Split(content[..k]).tail == ""
  }

  lemma LineEndWithin(content: string, k: nat)
    requires LineEnd(content, k)
    ensures k <= |content|
  {
  }

  /** The rows of the complete lines between two line ends. */
  function RowsBetween(lim: Limits, content: string, a: nat, b: nat): seq<UsageRow>
    requires a <= b <= |content|
  {
    lim.Rows(Split(content[a..b]).lines)
  }

  lemma RowsAdd(lim: Limits, content: string, a: nat, b: nat, c: nat)
    requires a <= b <= c <= |content| && Split(content[a..b]).tail == ""
    ensures RowsBetween(lim, content, a, c) == RowsBetween(lim, content, a, b) + RowsBetween(lim, content, b, c)
    ensures Split(content[a..c]).tail == Split(content[b..c]).tail
  {
    hide Limits.Rows, Split;
    assert content[a..b] + content[b..c] == content[a..c];
    SplitConcat(content[a..b], content[b..c]);
    RowsConcat(lim, Split(content[a..b]).lines, Split(content[b..c]).lines);
  }

  /** Reading again from an earlier line end leaves the table at the later of the two ends. */
  lemma Replay(lim: Limits, base: Table, before: Table, after: Table, content: string, done: nat, start: nat, k: nat)
    requires Upto(lim, base, before, content, 0, done) && start <= done && LineEnd(content, start)
    requires Upto(lim, before, after, content, start, k)
    ensures Upto(lim, base, after, content, 0, if k < done then done else k)
    ensures LineEnd(content, k)
  {
    hide Limits.Rows, Split, IngestAll;
    assert content[0..start] == content[..start] && content[0..k] == content[..k];
    RowsAdd(lim, content, 0, start, done);
    RowsAdd(lim, content, 0, start, k);
    if k <= done {
      RowsAdd(lim, content, start, k, done);
      var all := RowsBetween(lim, content, 0, done);
      var again := RowsBetween(lim, content, start, k);
      assert all == RowsBetween(lim, content, 0, start) + (again + RowsBetween(lim, content, k, done));
      assert forall i :: 0 <= i < |again| ==> again[i] in again;
      Reingest(base, all, again);
    } else {
      RowsAdd(lim, content, start, done, k);
      var old_ := RowsBetween(lim, content, start, done);
      var new_ := RowsBetween(lim, content, done, k);
      var all := RowsBetween(lim, content, 0, done);
      assert all == RowsBetween(lim, content, 0, start) + old_;
      IngestConcat(before, old_, new_);
      assert forall i :: 0 <= i < |old_| ==> old_[i] in old_;
      Reingest(base, all, old_);
      IngestConcat(base, all, new_);
      RowsAdd(lim, content, 0, done, k);
    }
  }

  /** The poller of one transcript, with the store it shares. `ingested` is a line end that the table has reached. */
  class Poller {
    const lim: Limits
    const account: string
    const path: string
    const store: Store
    ghost const base: Table
    var content: string
    var mtime: int
    ghost var ingested: nat

    ghost predicate CursorOk()
      reads this, store
    {
      (account, path) in store.cursors ==>
        var c := store.cursors[(account, path)];
        && 0 <= c.offset <= ingested && LineEnd(content, c.offset)
        && c.size <= |content|
        && (c.offset <= c.size ==> NoNewline(content[c.offset..c.size]))
    }

    /** The table is one-shot ingestion of the lines up to `ingested`, which the cursor never passes; and no
        complete line lies between the cursor and the recorded size. */
    ghost predicate Valid()
      reads this, store
    {
      && lim.Positive() && ingested <= |content|
      && Upto(lim, base, store.rows, content, 0, ingested)
      && CursorOk()
    }

    function CursorOffset(): int
      reads this, store
    {
      if (account, path) in store.cursors then store.cursors[(account, path)].offset else 0
    }

    constructor (lim: Limits, account: string, path: string, store: Store, content: string, mtime: int)
      requires lim.Positive() && (account, path) !in store.cursors
      ensures Valid() && this.store == store && base == store.rows && this.content == content
      ensures this.lim == lim && this.account == account && this.path == path && ingested == 0
    {
      this.lim, this.account, this.path, this.store := lim, account, path, store;
      this.content, this.mtime, ingested, base := content, mtime, 0, store.rows;
      new;
      NothingRead(lim, store.rows, content, 0);
    }

    /** The writer appends; the table and the cursor are untouched and stay right. */
    method Append(bytes: string, now: int)
      requires Valid()
      modifies this`content, this`mtime
      ensures Valid() && content == old(content) + bytes
      ensures old(Stuck()) ==> Stuck() && CursorOffset() == old(CursorOffset())
    {
      hide Upto, Split, NewlineWithin, Limits.Positive, Window;
      ghost var before, stuck := content, Stuck();
      if stuck {
        LongLineBlocks(before, bytes, CursorOffset(), Window(lim));
      }
      content, mtime := content + bytes, now;
      UptoGrows(lim, base, store.rows, before, bytes, 0, ingested);
      if (account, path) in store.cursors {
        var c := store.cursors[(account, path)];
        assert content[..c.offset] == before[..c.offset];
        assert c.offset <= c.size ==> content[c.offset..c.size] == before[c.offset..c.size];
      }
    }

    /** The window that any reading of one poll can reach holds no newline: nothing will ever move the cursor. */
    ghost predicate Stuck()
      reads this, store
    {
      && lim.Positive() && 0 <= CursorOffset() && CursorOffset() + Window(lim) <= |content|
      && !NewlineWithin(content, CursorOffset(), Window(lim))
    }

    /** One poll. `more` is appended by the writer after the file was examined and before it was read to its end,
        and `read` says how much each read returns. Whatever fails, the table is again one-shot ingestion of a
        prefix that reaches the cursor: it keeps every valid row of the prefix's lines and holds nothing else. The
        cursor never moves back. A finished scan moves it exactly when a newline lies before the place where reading
        stopped, and after that place nothing complete is skipped; a stuck transcript stays stuck. */
    method Poll(more: string, now: int, read: Reads) returns (ok: bool, ghost position: nat)
      requires Valid() && ReadsOk(lim, |content| + |more|, read)
      modifies this`content, this`mtime, this`ingested, store
      ensures Valid() && content == old(content) + more
      ensures ingested >= old(ingested) && CursorOffset() >= old(CursorOffset())
      ensures !ok ==> CursorOffset() == old(CursorOffset())
      ensures ok && !old(Unchanged(store.cursors, (account, path), |content|, mtime)) ==>
                && 0 <= old(CursorOffset()) <= CursorOffset() <= position <= |content|
                && position == Stop(lim, |content|, old(CursorOffset()), old(CursorOffset()), read)
                && NoNewline(content[CursorOffset()..position])
                && (CursorOffset() > old(CursorOffset()) <==>
                      NewlineWithin(content, old(CursorOffset()), position - old(CursorOffset())))
      ensures ok && old(Unchanged(store.cursors, (account, path), |content|, mtime)) ==>
                CursorOffset() == old(CursorOffset()) && NoNewline(old(content)[CursorOffset()..])
      ensures old(Stuck()) ==> Stuck() && CursorOffset() == old(CursorOffset())
      ensures CursorOffset() <= ingested && LinesKept(lim, content, 0, ingested, store.rows)
      ensures OnlyLines(lim, content, 0, ingested, base, store.rows)
    {
      hide Upto, Split, NoNewline, IngestAll, NewlineWithin, Stop, Stuck, CursorOk, LineEnd, Window, Limits.Positive,
        LinesKept, OnlyLines;
      ghost var before, cursor, stuck := content, CursorOffset(), Stuck();
      var size, stamp := |content|, mtime;
      UptoGrows(lim, base, store.rows, content, more, 0, ingested);
      CursorGrows(before, more);
      StartIsLineEnd(before, more);
      UnchangedIsRead(stamp);
      if stuck {
        StuckBlocks(before, more);
      }
      content, mtime := content + more, now;
      CursorKept(before, more);
      ok, position := ScanNow(size, stamp, read);
      if stuck {
        StillStuck(before, cursor);
      }
      CursorIsIn();
      UptoKeepsLines(lim, base, store.rows, content, 0, ingested);
    }

    /** Scans the transcript as it now is; `size` and `stamp` were seen when it was examined. */
    method ScanNow(size: nat, stamp: int, read: Reads) returns (ok: bool, ghost position: nat)
      requires Valid() && ReadsOk(lim, |content|, read) && 0 <= CursorOffset() <= size <= |content|
      requires LineEnd(content, CursorOffset())
      modifies this`ingested, store
      ensures Valid() && ingested >= old(ingested) && CursorOffset() >= old(CursorOffset())
      ensures !ok || old(Unchanged(store.cursors, (account, path), size, stamp)) ==>
                CursorOffset() == old(CursorOffset())
      ensures ok && !old(Unchanged(store.cursors, (account, path), size, stamp)) ==>
                && CursorOffset() <= position <= |content|
                && position == Stop(lim, |content|, old(CursorOffset()), old(CursorOffset()), read)
                && NoNewline(content[CursorOffset()..position])
                && (CursorOffset() > old(CursorOffset()) <==>
                      NewlineWithin(content, old(CursorOffset()), position - old(CursorOffset())))
      ensures old(!NewlineWithin(content, CursorOffset(), Window(lim))) ==> CursorOffset() == old(CursorOffset())
    {
      hide Upto, Split, NoNewline, IngestAll, NewlineWithin, Stop, CursorOk, LineEnd, Complete, Window,
        Limits.Positive;
      ghost var table, cursors := store.rows, store.cursors;
      CursorBounds();
      var res, start, at, committed, hitLimit := ScanFile(store, account, path, content, size, stamp, lim, read);
      ok, position := res.ok, at;
      if Unchanged(cursors, (account, path), size, stamp) {
        CursorStays(cursors, ingested);
      } else {
        if ok {
          FinishedScan(lim, table, store.rows, content, start, at, committed, hitLimit, res, size);
          if !NewlineWithin(content, start, Window(lim)) {
            NoneInside(content, start, at - start, Window(lim));
          }
        }
        Replay(lim, base, table, store.rows, content, ingested, start, committed);
        LineEndWithin(content, committed);
        ingested := if committed < ingested then ingested else committed;
        if ok {
          CursorSaved(committed, if hitLimit then committed else size, stamp);
        } else {
          CursorStays(cursors, old(ingested));
        }
      }
    }

    lemma CursorIsIn()
      requires CursorOk()
      ensures CursorOffset() <= ingested
    {
    }

    lemma CursorBounds()
      requires CursorOk()
      ensures (account, path) in store.cursors ==>
                var c := store.cursors[(account, path)];
                && 0 <= c.offset <= ingested && LineEnd(content, c.offset) && c.size <= |content|
                && (c.offset <= c.size ==> NoNewline(content[c.offset..c.size]))
    {
    }

    /** A transcript taken for unchanged has no unread complete line. */
    lemma UnchangedIsRead(stamp: int)
      requires CursorOk() && ingested <= |content|
      ensures Unchanged(store.cursors, (account, path), |content|, stamp) ==>
                0 <= CursorOffset() <= |content| && NoNewline(content[CursorOffset()..])
    {
      if Unchanged(store.cursors, (account, path), |content|, stamp) {
        assert content[CursorOffset()..|content|] == content[CursorOffset()..];
      }
    }

    lemma StuckBlocks(before: string, more: string)
      requires lim.Positive() && Stuck() && content == before
      ensures 0 <= CursorOffset() && CursorOffset() + Window(lim) <= |before|
      ensures !NewlineWithin(before + more, CursorOffset(), Window(lim))
    {
      LongLineBlocks(before, more, CursorOffset(), Window(lim));
    }

    lemma StillStuck(before: string, cursor: nat)
      requires lim.Positive() && CursorOffset() == cursor && cursor + Window(lim) <= |before| <= |content|
      requires !NewlineWithin(content, cursor, Window(lim))
      ensures Stuck()
    {
    }

    /** A cursor that was right stays right while its transcript grows and more is ingested. */
    lemma CursorKept(before: string, more: string)
      requires (account, path) in store.cursors ==>
                 var c := store.cursors[(account, path)];
                 && 0 <= c.offset <= ingested && LineEnd(before + more, c.offset) && c.size <= |before + more|
                 && (c.offset <= c.size ==> NoNewline((before + more)[c.offset..c.size]))
      requires content == before + more
      ensures CursorOk()
    {
    }

    lemma CursorStays(was: map<(string, string), FileCursor>, done: nat)
      requires store.cursors == was && done <= ingested
      requires (account, path) in was ==>
                 var c := was[(account, path)];
                 && 0 <= c.offset <= done && LineEnd(content, c.offset) && c.size <= |content|
                 && (c.offset <= c.size ==> NoNewline(content[c.offset..c.size]))
      ensures CursorOk()
    {
    }

    lemma CursorSaved(committed: nat, size: nat, stamp: int)
      requires (account, path) in store.cursors && store.cursors[(account, path)] == FileCursor(committed, size, stamp)
      requires committed <= ingested && LineEnd(content, committed) && size <= |content|
      requires committed <= size ==> NoNewline(content[committed..size])
      ensures CursorOk()
    {
    }

    lemma CursorGrows(before: string, more: string)
      requires CursorOk() && content == before
      ensures (account, path) in store.cursors ==>
                var c := store.cursors[(account, path)];
                && 0 <= c.offset <= ingested && c.offset <= |before| && LineEnd(before + more, c.offset)
                && c.size <= |before + more|
                && (c.offset <= c.size ==> NoNewline((before + more)[c.offset..c.size]))
    {
      if (account, path) in store.cursors {
        var c := store.cursors[(account, path)];
        var after := before + more;
        assert after[..c.offset] == before[..c.offset];
        assert c.offset <= c.size ==> after[c.offset..c.size] == before[c.offset..c.size];
      }
    }

    lemma StartIsLineEnd(before: string, more: string)
      requires CursorOk() && content == before && ingested <= |before|
      ensures var start := StartOffset(store.cursors, (account, path), |before|);
              start == CursorOffset() && 0 <= start <= ingested && LineEnd(before + more, start)
    {
      var start := StartOffset(store.cursors, (account, path), |before|);
      assert (before + more)[..start] == before[..start];
    }
  }

  lemma UptoGrows(lim: Limits, base: Table, table: Table, content: string, more: string, a: nat, k: nat)
    requires Upto(lim, base, table, content, a, k)
    ensures Upto(lim, base, table, content + more, a, k)
  {
    assert (content + more)[a..k] == content[a..k];
  }

  /** What a finished scan means for the cursor. */
  lemma FinishedScan(lim: Limits, before: Table, table: Table, content: string, start: nat, at: nat, committed: nat,
                     hitLimit: bool, res: ScanResult, size: nat)
    requires lim.Positive() && LineEnd(content, start) && size <= |content|
    requires Complete(lim, before, table, content, start, at, committed, hitLimit, res)
    ensures start <= committed <= at <= |content| && at - start <= Window(lim)
    ensures Upto(lim, before, table, content, start, committed) && NoNewline(content[committed..at])
    ensures committed > start <==> NewlineWithin(content, start, at - start)
    ensures var recorded := if hitLimit then committed else size;
            recorded <= |content| && (committed <= recorded ==> NoNewline(content[committed..recorded]))
  {
    NewCursorOk(lim, before, table, content, start, at, committed, hitLimit, res, size);
    CursorMoves(lim, before, table, content, start, at, committed, hitLimit, res);
    hide NewlineWithin, NoNewline, Upto, LineEnd;
  }

  lemma NewCursorOk(lim: Limits, before: Table, table: Table, content: string, start: nat, at: nat, committed: nat,
                    hitLimit: bool, res: ScanResult, size: nat)
    requires Complete(lim, before, table, content, start, at, committed, hitLimit, res) && size <= |content|
    ensures var recorded := if hitLimit then committed else size;
            committed <= recorded ==> recorded <= |content| && NoNewline(content[committed..recorded])
  {
    if !hitLimit && committed <= size {
      assert forall i :: 0 <= i < size - committed ==> content[committed..size][i] == content[committed..at][i];
    }
  }

  ghost predicate NewlineWithin(content: string, from: nat, count: nat) {
    exists i :: from <= i < |content| && i < from + count && content[i] == '\n'
  }

  lemma NoneAt(content: string, a: nat, b: nat, i: nat)
    requires a <= b <= |content| && i < |content| && NoNewline(content[a..b])
    ensures a <= i < b ==> content[i] != '\n'
  {
    if a <= i < b {
      assert content[a..b][i - a] == content[i];
    }
  }

  /** A finished scan moves the cursor exactly when a newline lies before the place where reading stopped. */
  lemma CursorMoves(lim: Limits, base: Table, table: Table, content: string, start: nat, position: nat, committed: nat,
                    hitLimit: bool, res: ScanResult)
    requires LineEnd(content, start) && Complete(lim, base, table, content, start, position, committed, hitLimit, res)
    ensures committed > start <==> NewlineWithin(content, start, position - start)
  {
    hide Split, NoNewline;
    if NewlineWithin(content, start, position - start) {
      var i :| start <= i < |content| && i < start + (position - start) && content[i] == '\n';
      NoneAt(content, committed, position, i);
    }
    if committed > start {
      assert Split(content[start..committed]).tail == "";
      SplitTail(content[start..committed]);
      assert content[start..committed][committed - 1 - start] == content[committed - 1];
    }
  }

  /** Appending puts no newline into a window that is already full. */
  lemma LongLineBlocks(content: string, more: string, from: nat, count: nat)
    requires from + count <= |content| && !NewlineWithin(content, from, count)
    ensures !NewlineWithin(content + more, from, count)
  {
    forall i | from <= i < |content + more| && i < from + count
      ensures (content + more)[i] != '\n'
    {
      assert (content + more)[i] == content[i];
    }
  }

  lemma NoneInside(content: string, from: nat, count: nat, window: nat)
    requires count <= window && !NewlineWithin(content, from, window)
    ensures !NewlineWithin(content, from, count)
  {
  }

  // ---- Which newlines a poll can reach -------------------------------------------------------

  /** The most bytes one poll can read: the last read starts within the budget and returns a whole chunk. */
  function Window(lim: Limits): nat
    requires lim.Positive()
  {
    lim.bytesPerPoll - 1 + lim.chunkBytes
  }

  /** Reading this way moves a cursor at `start`, if nothing fails. */
  ghost predicate Moves(lim: Limits, content: string, start: nat, read: Reads)
    requires start <= |content|
  {
    NewlineWithin(content, start, Stop(lim, |content|, start, start, read) - start)
  }

  function OneByOne(): Reads {
    at => 1
  }

  function Least(a: nat, b: nat): nat {
    if a < b then a else b
  }

  lemma OneByOneStops(lim: Limits, length: nat, start: nat, at: nat)
    requires lim.Positive() && start <= at <= length && at - start <= lim.bytesPerPoll
    ensures Stop(lim, length, start, at, OneByOne()) == Least(start + lim.bytesPerPoll, length)
    decreases length - at
  {
    if at < length && at - start < lim.bytesPerPoll {
      OneByOneStops(lim, length, start, at + 1);
    }
  }

  /** One byte at a time up to the last byte of the budget, then a whole chunk. */
  function LateChunk(lim: Limits, length: nat, start: nat): Reads
    requires lim.Positive()
  {
    at => if at == start + lim.bytesPerPoll - 1 && at < length then Least(lim.chunkBytes, length - at) else 1
  }

  lemma LateChunkStops(lim: Limits, length: nat, start: nat, at: nat)
    requires lim.Positive() && start <= at <= length && at - start < lim.bytesPerPoll
    ensures Stop(lim, length, start, at, LateChunk(lim, length, start)) == Least(start + Window(lim), length)
    decreases length - at
  {
    var read := LateChunk(lim, length, start);
    if at < length {
      if at == start + lim.bytesPerPoll - 1 {
        var n := read(at);
        assert n == Least(lim.chunkBytes, length - at);
        assert Stop(lim, length, start, at, read) == Stop(lim, length, start, at + n, read) == at + n;
      } else {
        assert read(at) == 1;
        LateChunkStops(lim, length, start, at + 1);
      }
    }
  }

  lemma LateChunkOk(lim: Limits, length: nat, start: nat)
    requires lim.Positive()
    ensures ReadsOk(lim, length, LateChunk(lim, length, start))
  {
    var read := LateChunk(lim, length, start);
    forall at: nat | at < length
      ensures 1 <= read(at) <= lim.chunkBytes && at + read(at) <= length
    {
      assert read(at) == if at == start + lim.bytesPerPoll - 1 then Least(lim.chunkBytes, length - at) else 1;
    }
  }

  lemma FullChunksOk(lim: Limits, length: nat)
    requires lim.Positive()
    ensures ReadsOk(lim, length, FullChunks(lim, length))
  {
    var read := FullChunks(lim, length);
    forall at: nat | at < length
      ensures 1 <= read(at) <= lim.chunkBytes && at + read(at) <= length
    {
      assert read(at) == Least(lim.chunkBytes, length - at);
    }
  }

  /** Every read returns all it may. */
  function FullChunks(lim: Limits, length: nat): Reads {
    at => if at < length then Least(lim.chunkBytes, length - at) else 1
  }

  /** The budget rounded up to whole chunks. */
  function WholeChunks(lim: Limits): nat
    requires lim.Positive()
  {
    (lim.bytesPerPoll + lim.chunkBytes - 1) / lim.chunkBytes * lim.chunkBytes
  }

  lemma FullChunksStop(lim: Limits, length: nat, start: nat, k: nat)
    requires lim.Positive() && start <= length && k * lim.chunkBytes < lim.bytesPerPoll + lim.chunkBytes
    ensures Stop(lim, length, start, Least(start + k * lim.chunkBytes, length), FullChunks(lim, length)) ==
            Least(start + WholeChunks(lim), length)
    decreases length - Least(start + k * lim.chunkBytes, length)
  {
    var at := start + k * lim.chunkBytes;
    if at < length && at - start < lim.bytesPerPoll {
      var read := FullChunks(lim, length);
      assert (k + 1) * lim.chunkBytes == k * lim.chunkBytes + lim.chunkBytes;
      FullChunksStop(lim, length, start, k + 1);
      var n := read(at);
      assert n == Least(lim.chunkBytes, length - at);
      assert at + n == Least(start + (k + 1) * lim.chunkBytes, length);
      assert Stop(lim, length, start, at, read) == Stop(lim, length, start, at + n, read);
    } else {
      ChunksEnough(lim, k);
    }
  }

  lemma ChunksEnough(lim: Limits, k: nat)
    requires lim.Positive() && k * lim.chunkBytes < lim.bytesPerPoll + lim.chunkBytes
    ensures k * lim.chunkBytes <= WholeChunks(lim)
    ensures lim.bytesPerPoll <= k * lim.chunkBytes ==> k * lim.chunkBytes == WholeChunks(lim)
  {
    var c, b := lim.chunkBytes, lim.bytesPerPoll;
    var q := (b + c - 1) / c;
    assert q * c <= b + c - 1 < q * c + c;
    if k > q {
      Multiple(q + 1, k, c);
    } else if k < q {
      Multiple(k + 1, q, c);
    }
  }

  lemma Multiple(a: nat, b: nat, c: nat)
    requires a <= b
    ensures a * c <= b * c
  {
  }

  /** Every way of reading moves the cursor exactly when a newline lies within the byte budget. */
  lemma EveryReadMoves(lim: Limits, content: string, start: nat)
    requires lim.Positive() && start <= |content|
    ensures (forall read :: ReadsOk(lim, |content|, read) ==> Moves(lim, content, start, read)) <==>
            NewlineWithin(content, start, lim.bytesPerPoll)
  {
    if NewlineWithin(content, start, lim.bytesPerPoll) {
      forall read | ReadsOk(lim, |content|, read)
        ensures Moves(lim, content, start, read)
      {
        StopBounds(lim, |content|, start, start, read);
      }
    } else {
      OneByOneStops(lim, |content|, start, start);
      assert ReadsOk(lim, |content|, OneByOne());
      assert !Moves(lim, content, start, OneByOne());
    }
  }

  /** Some way of reading moves the cursor exactly when a newline lies within the window. */
  lemma SomeReadMoves(lim: Limits, content: string, start: nat)
    requires lim.Positive() && start <= |content|
    ensures (exists read :: ReadsOk(lim, |content|, read) && Moves(lim, content, start, read)) <==>
            NewlineWithin(content, start, Window(lim))
  {
    if NewlineWithin(content, start, Window(lim)) {
      var read := LateChunk(lim, |content|, start);
      LateChunkStops(lim, |content|, start, start);
      LateChunkOk(lim, |content|, start);
      assert Moves(lim, content, start, read);
    } else {
      forall read | ReadsOk(lim, |content|, read)
        ensures !Moves(lim, content, start, read)
      {
        StopBounds(lim, |content|, start, start, read);
      }
    }
  }

  /** Reads that return whole chunks move the cursor exactly when a newline lies within the budget rounded up to
      whole chunks. */
  lemma FullReadsMove(lim: Limits, content: string, start: nat)
    requires lim.Positive() && start <= |content|
    ensures ReadsOk(lim, |content|, FullChunks(lim, |content|))
    ensures Moves(lim, content, start, FullChunks(lim, |content|)) <==> NewlineWithin(content, start, WholeChunks(lim))
  {
    FullChunksOk(lim, |content|);
    FullChunksStop(lim, |content|, start, 0);
  }

  // ---- A stuck transcript --------------------------------------------------------------------

  function LongLine(lim: Limits): string
    requires lim.Positive()
  {
    seq(Window(lim), _ => 'a') + "\n"
  }

  /** A line as long as the window is never read, however often and however the transcript is polled. */
  method PollLongLine(lim: Limits, account: string, path: string, store: Store, mtime: int, polls: nat,
                      patterns: nat -> Reads)
    returns (p: Poller)
    requires lim.Positive() && (account, path) !in store.cursors
    requires forall k: nat :: ReadsOk(lim, |LongLine(lim)|, patterns(k))
    modifies store
    ensures p.Valid() && p.store == store && p.content == LongLine(lim) && p.CursorOffset() == 0
  {
    p := new Poller(lim, account, path, store, LongLine(lim), mtime);
    assert p.Stuck();
    for k := 0 to polls
      invariant p.Valid() && p.store == store && p.lim == lim && fresh(p)
      invariant p.content == LongLine(lim) && p.Stuck() && p.CursorOffset() == 0
    {
      assert p.content + "" == p.content;
      var ok, position := p.Poll("", mtime + k, patterns(k));
    }
  }
}

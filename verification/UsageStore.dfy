/** The usage table: one row for each message key, the one with the largest output. */
module UsageStore {

  datatype UsageRow = UsageRow(
    account: string, messageId: string, requestId: string, sessionId: string, timestamp: int,
    model: string, speed: string,
    input: int, output: int, cacheRead: int, cacheWrite5m: int, cacheWrite1h: int, webSearch: int,
    sidechain: bool, splitMissing: bool)

  datatype Key = Key(account: string, messageId: string, requestId: string)

  /** A stored row. `day` counts days since the epoch, standing for the stored calendar date. */
  datatype Stored = Stored(
    sessionId: string, timestamp: int, day: int, model: string, fast: bool,
    input: int, output: int, cacheRead: int, cacheWrite5m: int, cacheWrite1h: int, webSearch: int,
    sidechain: bool, splitMissing: bool)

  type Table = map<Key, Stored>

  const MAX_EPOCH: int := 4102444800
  const MAX_TOKENS: int := 1000000000
  const MAX_FIELD: int := 256
  const SECONDS_PER_DAY: int := 86400

  predicate LengthOk(s: string, allowEmpty: bool) {
    (allowEmpty || s != "") && |s| <= MAX_FIELD
  }

  predicate TokensOk(v: int) {
    0 <= v <= MAX_TOKENS
  }

  predicate ValidRow(r: UsageRow) {
    && LengthOk(r.account, false) && LengthOk(r.messageId, false) && LengthOk(r.requestId, false)
    && LengthOk(r.model, false) && LengthOk(r.sessionId, true) && r.model != "<synthetic>"
    && 0 < r.timestamp < MAX_EPOCH
    && TokensOk(r.input) && TokensOk(r.output) && TokensOk(r.cacheRead) && TokensOk(r.cacheWrite5m)
    && TokensOk(r.cacheWrite1h) && TokensOk(r.webSearch)
  }

  function KeyOf(r: UsageRow): Key {
    Key(r.account, r.messageId, r.requestId)
  }

  function StoredOf(r: UsageRow): Stored {
    Stored(r.sessionId, r.timestamp, r.timestamp / SECONDS_PER_DAY, r.model, r.speed == "fast",
           r.input, r.output, r.cacheRead, r.cacheWrite5m, r.cacheWrite1h, r.webSearch, r.sidechain, r.splitMissing)
  }

  /** The entry is the row's: its session, model, speed, time and day, all its token counts and its flags. */
  ghost predicate Records(entry: Stored, r: UsageRow) {
    && entry.sessionId == r.sessionId && entry.model == r.model && (entry.fast <==> r.speed == "fast")
    && entry.timestamp == r.timestamp && entry.day * 86400 <= r.timestamp < (entry.day + 1) * 86400
    && entry.input == r.input && entry.output == r.output && entry.webSearch == r.webSearch
    && entry.cacheRead == r.cacheRead && entry.cacheWrite5m == r.cacheWrite5m && entry.cacheWrite1h == r.cacheWrite1h
    && entry.sidechain == r.sidechain && entry.splitMissing == r.splitMissing
  }

  lemma StoredRecords(r: UsageRow)
    ensures Records(StoredOf(r), r) && KeyOf(r) == Key(r.account, r.messageId, r.requestId)
  {
  }

  /** The row adds nothing: it is invalid, or its key already holds at least its output. */
  predicate Dominated(t: Table, r: UsageRow) {
    ValidRow(r) ==> KeyOf(r) in t && t[KeyOf(r)].output >= r.output
  }

  function IngestOne(t: Table, r: UsageRow): Table {
    if Dominated(t, r) then t else t[KeyOf(r) := StoredOf(r)]
  }

  function IngestAll(t: Table, rows: seq<UsageRow>): Table {
    if rows == [] then t else IngestOne(IngestAll(t, rows[..|rows| - 1]), rows[|rows| - 1])
  }

  // ---- Laws ----------------------------------------------------------------------------------

  lemma {:induction false} IngestConcat(t: Table, a: seq<UsageRow>, b: seq<UsageRow>)
    ensures IngestAll(t, a + b) == IngestAll(IngestAll(t, a), b)
  {
    if b == [] {
      assert a + b == a;
    } else {
      var n := |b| - 1;
      assert (a + b)[..|a| + n] == a + b[..n];
      IngestConcat(t, a, b[..n]);
    }
  }

  /** Nothing ever makes a dominated row useful again. */
  lemma {:induction false} DominatedStays(t: Table, rows: seq<UsageRow>, r: UsageRow)
    requires Dominated(t, r)
    ensures Dominated(IngestAll(t, rows), r)
  {
    if rows != [] {
      DominatedStays(t, rows[..|rows| - 1], r);
    }
  }

  /** Every row of a batch is dominated once the batch is in. */
  lemma {:induction false} IngestedIsDominated(t: Table, rows: seq<UsageRow>, i: nat)
    requires i < |rows|
    ensures Dominated(IngestAll(t, rows), rows[i])
  {
    var n := |rows| - 1;
    if i < n {
      IngestedIsDominated(t, rows[..n], i);
      DominatedStays(IngestAll(t, rows[..n]), [rows[n]], rows[i]);
      assert [rows[n]][..0] == [];
    }
  }

  lemma {:induction false} DominatedIsNoOp(t: Table, rows: seq<UsageRow>)
    requires forall i :: 0 <= i < |rows| ==> Dominated(t, rows[i])
    ensures IngestAll(t, rows) == t
  {
    if rows != [] {
      DominatedIsNoOp(t, rows[..|rows| - 1]);
    }
  }

  /** Re-ingesting any stretch of what is already in changes nothing: retries are harmless. */
  lemma Reingest(t: Table, done: seq<UsageRow>, again: seq<UsageRow>)
    requires forall i :: 0 <= i < |again| ==> again[i] in done
    ensures IngestAll(IngestAll(t, done), again) == IngestAll(t, done)
  {
    forall i | 0 <= i < |again|
      ensures Dominated(IngestAll(t, done), again[i])
    {
      var k :| 0 <= k < |done| && done[k] == again[i];
      IngestedIsDominated(t, done, k);
    }
    DominatedIsNoOp(IngestAll(t, done), again);
  }

  /** Which row a key ends up with: the first valid one that no other valid row of the key exceeds. */
  ghost predicate FirstLargest(rows: seq<UsageRow>, i: nat)
    requires i < |rows|
  {
    && ValidRow(rows[i])
    && (forall j :: 0 <= j < |rows| && ValidRow(rows[j]) && KeyOf(rows[j]) == KeyOf(rows[i]) ==>
          rows[j].output <= rows[i].output)
    && (forall j :: 0 <= j < i && ValidRow(rows[j]) && KeyOf(rows[j]) == KeyOf(rows[i]) ==>
          rows[j].output < rows[i].output)
  }

  ghost predicate Holds(rows: seq<UsageRow>, k: Key, s: Stored, i: nat) {
    i < |rows| && KeyOf(rows[i]) == k && Records(s, rows[i]) && FirstLargest(rows, i)
  }

  lemma HoldsGrows(rest: seq<UsageRow>, r: UsageRow, k: Key, s: Stored, i: nat)
    requires Holds(rest, k, s, i) && (ValidRow(r) && KeyOf(r) == k ==> r.output <= s.output)
    ensures Holds(rest + [r], k, s, i)
  {
    hide ValidRow;
    assert (rest + [r])[i] == rest[i];
  }

  lemma LastHolds(rest: seq<UsageRow>, r: UsageRow)
    requires !Dominated(IngestAll(map[], rest), r)
    ensures Holds(rest + [r], KeyOf(r), StoredOf(r), |rest|)
  {
    hide ValidRow, IngestAll;
    StoredRecords(r);
    var rows := rest + [r];
    forall j | 0 <= j < |rest| && ValidRow(rows[j]) && KeyOf(rows[j]) == KeyOf(r)
      ensures rows[j].output < r.output
    {
      IngestedIsDominated(map[], rest, j);
    }
  }

  /** From an empty table, exactly the keys of valid rows are present, each with its first largest row. */
  lemma {:induction false} KeepsFirstLargest(rows: seq<UsageRow>)
    ensures forall k :: k in IngestAll(map[], rows) ==> exists i: nat :: Holds(rows, k, IngestAll(map[], rows)[k], i)
    ensures forall i :: 0 <= i < |rows| && ValidRow(rows[i]) ==> KeyOf(rows[i]) in IngestAll(map[], rows)
  {
    hide ValidRow;
    if rows != [] {
      var n := |rows| - 1;
      var rest := rows[..n];
      var t, t' := IngestAll(map[], rest), IngestAll(map[], rows);
      KeepsFirstLargest(rest);
      forall k | k in t'
        ensures exists i: nat :: Holds(rows, k, t'[k], i)
      {
        if k in t && t'[k] == t[k] {
          var i: nat :| Holds(rest, k, t[k], i);
          assert rest + [rows[n]] == rows;
          HoldsGrows(rest, rows[n], k, t[k], i);
        } else {
          assert k == KeyOf(rows[n]) && !Dominated(t, rows[n]);
          assert rest + [rows[n]] == rows;
          LastHolds(rest, rows[n]);
        }
      }
      forall i | 0 <= i < |rows| && ValidRow(rows[i])
        ensures KeyOf(rows[i]) in t'
      {
        if i < n {
          assert rest[i] == rows[i];
        }
      }
    }
  }

  /** An entry that was not there before records a valid row of its key. */
  lemma {:induction false} EntryHasRow(base: Table, rows: seq<UsageRow>, key: Key) returns (i: nat)
    requires key in IngestAll(base, rows)
    requires !(key in base && IngestAll(base, rows)[key] == base[key])
    ensures i < |rows| && ValidRow(rows[i]) && KeyOf(rows[i]) == key && Records(IngestAll(base, rows)[key], rows[i])
  {
    var n := |rows| - 1;
    var rest := IngestAll(base, rows[..n]);
    if key in rest && IngestAll(base, rows)[key] == rest[key] {
      i := EntryHasRow(base, rows[..n], key);
    } else {
      i := n;
      StoredRecords(rows[n]);
    }
  }

  // ---- What a store accepts ------------------------------------------------------------------

  /** What the store demands of a row, in figures. */
  ghost predicate WithinLimits(r: UsageRow) {
    && 1 <= |r.account| <= 256 && 1 <= |r.messageId| <= 256 && 1 <= |r.requestId| <= 256 && 1 <= |r.model| <= 256
    && |r.sessionId| <= 256 && r.model != "<synthetic>" && 0 < r.timestamp < 4102444800
    && 0 <= r.input <= 1000000000 && 0 <= r.output <= 1000000000 && 0 <= r.webSearch <= 1000000000
    && 0 <= r.cacheRead <= 1000000000 && 0 <= r.cacheWrite5m <= 1000000000 && 0 <= r.cacheWrite1h <= 1000000000
  }

  /** A row on its own gets into an empty table exactly when it is within the limits, and then as it is. */
  lemma AcceptedAlone(r: UsageRow)
    ensures IngestAll(map[], [r]) != map[] <==> WithinLimits(r)
    ensures WithinLimits(r) ==>
              var key := Key(r.account, r.messageId, r.requestId);
              && IngestAll(map[], [r]).Keys == {key}
              && Records(IngestAll(map[], [r])[key], r)
  {
    assert [r][..0] == [];
    assert IngestAll(map[], [r]) == IngestOne(map[], r);
    StoredRecords(r);
    if ValidRow(r) {
      assert KeyOf(r) in IngestOne(map[], r);
    }
  }

  // ---- The store -----------------------------------------------------------------------------

  ghost function Rejections(rows: seq<UsageRow>): nat {
    if rows == [] then 0
    else Rejections(rows[..|rows| - 1]) + (if ValidRow(rows[|rows| - 1]) then 0 else 1)
  }

  /** The rows that replace an entry with less output. */
  ghost function Raises(t: Table, rows: seq<UsageRow>): nat {
    if rows == [] then 0
    else
      var before, r := IngestAll(t, rows[..|rows| - 1]), rows[|rows| - 1];
      Raises(t, rows[..|rows| - 1]) +
      (if ValidRow(r) && KeyOf(r) in before && before[KeyOf(r)].output < r.output then 1 else 0)
  }

  datatype IngestResult = IngestResult(ok: bool, inserted: nat, updated: nat, ignored: nat, rejected: nat)

  datatype FileCursor = FileCursor(offset: int, size: int, mtime: int)

  class Store {
    var rows: Table
    var cursors: map<(string, string), FileCursor>

    constructor ()
      ensures rows == map[] && cursors == map[]
    {
      rows, cursors := map[], map[];
    }

    /** One transaction. Any statement may fail, which rolls everything back; otherwise the table is the old one
        with every row ingested in order, and the counts say what became of each row. */
    method Ingest(batch: seq<UsageRow>) returns (r: IngestResult)
      modifies this`rows
      ensures r.ok ==> rows == IngestAll(old(rows), batch)
      ensures r.ok ==> |rows| == |old(rows)| + r.inserted && r.updated == Raises(old(rows), batch)
      ensures r.ok ==> r.rejected == Rejections(batch) && r.inserted + r.updated + r.ignored + r.rejected == |batch|
      ensures !r.ok ==> rows == old(rows) && r == IngestResult(false, 0, 0, 0, 0)
    {
      var before := rows;
      var inserted, updated, ignored, rejected := 0, 0, 0, 0;
      for i := 0 to |batch|
        invariant before == old(rows) && rows == IngestAll(before, batch[..i])
        invariant inserted + updated + ignored + rejected == i && |rows| == |before| + inserted
        invariant rejected == Rejections(batch[..i]) && updated == Raises(before, batch[..i])
      {
        var row := batch[i];
        assert batch[..i + 1][..i] == batch[..i];
        if !ValidRow(row) {
          rejected := rejected + 1;
        } else {
          var failed: bool := *;
          if failed {
            rows := before;
            return IngestResult(false, 0, 0, 0, 0);
          }
          var key := KeyOf(row);
          var present := key in rows;
          if present && row.output <= rows[key].output {
            ignored := ignored + 1;
          } else {
            rows := rows[key := StoredOf(row)];
            if present {
              updated := updated + 1;
            } else {
              inserted := inserted + 1;
            }
          }
        }
      }
      assert batch[..|batch|] == batch;
      var commitFailed: bool := *;
      if commitFailed {
        rows := before;
        return IngestResult(false, 0, 0, 0, 0);
      }
      r := IngestResult(true, inserted, updated, ignored, rejected);
    }

    method SaveCursor(account: string, path: string, c: FileCursor) returns (ok: bool)
      modifies this`cursors
      ensures ok ==> cursors == old(cursors)[(account, path) := c]
      ensures !ok ==> cursors == old(cursors)
      ensures ok ==>
                1 <= |account| <= 256 && 1 <= |path| <= 4096 && c.offset >= 0 && c.size >= 0
    {
      ok := account != "" && path != "" && |account| <= MAX_FIELD && |path| <= MAX_PATH && c.offset >= 0 && c.size >= 0;
      var failed: bool := *;
      ok := ok && !failed;
      if ok {
        cursors := cursors[(account, path) := c];
      }
    }
  }

  const MAX_PATH: int := 4096
}

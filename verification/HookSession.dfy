/** Agent hook events: the session record kept by the hooks, its row in the telemetry table, and the event table
    stay three agreeing copies of the same counters. */
module HookSession {
  import opened Basics

  datatype Status = Idle | Running | Completed

  // ---- The telemetry tables ------------------------------------------------------------------

  datatype Row = Row(workspace: string, model: string, startTs: int, endTs: int, status: Status,
                     turns: nat, tools: nat, errors: nat, avgTurnMs: real)

  datatype EventKind = ToolCall | UserTurn

  /** The unique key of the event table. */
  datatype EventKey = EventKey(sid: string, step: int, kind: EventKind, tool: string)

  datatype Event = Event(timestamp: int, failed: bool, durationMs: real, workspace: string, model: string)

  type Sessions = map<string, Row>
  type Events = map<EventKey, Event>

  /** Identifiers of self-tests and placeholders, which get no row. */
  predicate Excluded(sid: string) {
    sid in {"", "hook-selftest", "t1", "s1", "default_session", "test-cursor-1", "default"}
  }

  function Later(a: int, b: int): int {
    if a < b then b else a
  }

  /** The row an event leaves: a new one that counts it, or the old one with the event added. */
  function Upserted(sessions: Sessions, k: EventKey, e: Event): Row {
    var turn, tool, error: nat := if k.kind == UserTurn then 1 else 0, if k.kind == ToolCall then 1 else 0, if e.failed
        then 1 else 0;
    if k.sid in sessions then
      var r := sessions[k.sid];
      r.(endTs := Later(r.endTs, e.timestamp), status := Running,
         turns := r.turns + turn, tools := r.tools + tool, errors := r.errors + error,
         workspace := if r.workspace == "" || r.workspace == "/workspace" then e.workspace else r.workspace,
         model := if (r.model == "" || r.model == "Agent") && e.model != "" then e.model else r.model)
    else Row(e.workspace, e.model, e.timestamp, e.timestamp, Running, turn, tool, error, 0.0)
  }

  class TelemetryDb {
    var sessions: Sessions
    var events: Events

    constructor ()
      ensures sessions == map[] && events == map[]
    {
      sessions, events := map[], map[];
    }

    method IsExcluded(sid: string) returns (excluded: bool)
      ensures excluded <==> Excluded(sid)
    {
      excluded := |sid| == 0 || sid == "hook-selftest" || sid == "t1" || sid == "s1" || sid == "default_session" ||
        sid == "test-cursor-1" || sid == "default";
    }

    /** Replaces any old row, so its counters start again from zero. */
    method RecordSessionStart(sid: string, workspace: string, model: string, timestamp: int, clock: int)
      modifies this`sessions
      ensures Excluded(sid) ==> sessions == old(sessions)
      ensures !Excluded(sid) ==> sessions == old(sessions)[sid :=
                Row(workspace, model, if timestamp > 0 then timestamp else clock, 0, Running, 0, 0, 0, 0.0)]
    {
      var excluded := IsExcluded(sid);
      if excluded {
        return;
      }
      var ts := if timestamp > 0 then timestamp else clock;
      sessions := sessions[sid := Row(workspace, model, ts, 0, Running, 0, 0, 0, 0.0)];
    }

    method TouchSession(sid: string, status: Status, endTs: int)
      modifies this`sessions
      ensures Excluded(sid) || sid !in old(sessions) ==> sessions == old(sessions)
      ensures !Excluded(sid) && sid in old(sessions) ==> sessions == old(sessions)[sid :=
                old(sessions)[sid].(status := status, endTs := if endTs > 0 then endTs else old(sessions)[sid].endTs)]
    {
      var excluded := IsExcluded(sid);
      if excluded {
        return;
      }
      if sid in sessions {
        var r := sessions[sid];
        sessions := sessions[sid := r.(status := status, endTs := if endTs > 0 then endTs else r.endTs)];
      }
    }

    /** Overwrites the counters of a row; without a row nothing happens. */
    method UpdateSessionStats(sid: string, status: Status, turns: nat, tools: nat, errors: nat, avgTurnMs: real,
                              startTs: int, endTs: int)
      modifies this`sessions
      ensures Excluded(sid) || sid !in old(sessions) ==> sessions == old(sessions)
      ensures !Excluded(sid) && sid in old(sessions) ==>
                var r := old(sessions)[sid];
                sessions == old(sessions)[sid := r.(status := status, turns := turns, tools := tools, errors := errors,
                  avgTurnMs := avgTurnMs, startTs := if startTs > 0 then startTs else r.startTs,
                  endTs := if endTs > 0 then endTs else r.endTs)]
    {
      var excluded := IsExcluded(sid);
      if excluded {
        return;
      }
      if sid in sessions {
        var r := sessions[sid];
        sessions := sessions[sid := r.(status := status, turns := turns, tools := tools, errors := errors,
          avgTurnMs := avgTurnMs, startTs := if startTs > 0 then startTs else r.startTs,
          endTs := if endTs > 0 then endTs else r.endTs)];
      }
    }

    method RecordSessionEnd(sid: string, status: Status, turns: nat, tools: nat, errors: nat, avgTurnMs: real,
                            timestamp: int, clock: int)
      modifies this`sessions
      ensures Excluded(sid) || sid !in old(sessions) ==> sessions == old(sessions)
      ensures !Excluded(sid) && sid in old(sessions) ==>
                var r := old(sessions)[sid];
                sessions == old(sessions)[sid := r.(status := status, turns := turns, tools := tools, errors := errors,
                  avgTurnMs := avgTurnMs, endTs := if timestamp > 0 then timestamp else clock)]
    {
      var excluded := IsExcluded(sid);
      if excluded {
        return;
      }
      var ts := if timestamp > 0 then timestamp else clock;
      if sid in sessions {
        var r := sessions[sid];
        sessions := sessions[sid := r.(status := status, turns := turns, tools := tools, errors := errors,
                                       avgTurnMs := avgTurnMs, endTs := ts)];
      }
    }

    /** A repeated key is ignored and counts nothing. */
    method InsertEvent(k: EventKey, e: Event) returns (inserted: bool)
      modifies this
      ensures inserted <==> k !in old(events)
      ensures events == if inserted then old(events)[k := e] else old(events)
      ensures sessions == if inserted &&
              !Excluded(k.sid) then old(sessions)[k.sid := Upserted(old(sessions), k, e)] else old(sessions)
    {
      inserted := k !in events;
      if !inserted {
        return;
      }
      events := events[k := e];
      var excluded := IsExcluded(k.sid);
      if !excluded {
        UpsertSession(k, e);
      }
    }

    /** Adds an event to its session's row, or makes the row. */
    method UpsertSession(k: EventKey, e: Event)
      modifies this`sessions
      ensures sessions == old(sessions)[k.sid := Upserted(old(sessions), k, e)]
    {
      var row := Row(e.workspace, e.model, e.timestamp, e.timestamp, Running, 0, 0, 0, 0.0);
      if k.sid in sessions {
        var r := sessions[k.sid];
        var endTs, workspace, model := r.endTs, r.workspace, r.model;
        if e.timestamp > endTs {
          endTs := e.timestamp;
        }
        if workspace == "" || workspace == "/workspace" {
          workspace := e.workspace;
        }
        if (model == "" || model == "Agent") && e.model != "" {
          model := e.model;
        }
        row := Row(workspace, model, r.startTs, endTs, Running, r.turns, r.tools, r.errors, r.avgTurnMs);
      }
      match k.kind {
        case UserTurn => row := row.(turns := row.turns + 1);
        case ToolCall => row := row.(tools := row.tools + 1);
      }
      if e.failed {
        row := row.(errors := row.errors + 1);
      }
      sessions := sessions[k.sid := row];
    }

    /** Many events in one transaction: the same as one by one. */
    method InsertEventsBatch(batch: seq<(EventKey, Event)>)
      modifies this
      ensures (sessions, events) == AfterEvents(old(sessions), old(events), batch)
    {
      for i := 0 to |batch|
        invariant (sessions, events) == AfterEvents(old(sessions), old(events), batch[..i])
      {
        assert batch[..i + 1][..i] == batch[..i];
        var _ := InsertEvent(batch[i].0, batch[i].1);
      }
      assert batch[..|batch|] == batch;
    }
  }

  function AfterEvents(sessions: Sessions, events: Events, batch: seq<(EventKey, Event)>): (Sessions, Events) {
    if batch == [] then (sessions, events)
    else
      var (s, es) := AfterEvents(sessions, events, batch[..|batch| - 1]);
      var (k, e) := batch[|batch| - 1];
      if k in es then (s, es)
      else (if Excluded(k.sid) then s else s[k.sid := Upserted(s, k, e)], es[k := e])
  }

  /** Delivering a batch again changes neither table. */
  lemma BatchTwice(sessions: Sessions, events: Events, batch: seq<(EventKey, Event)>)
    ensures var (s, es) := AfterEvents(sessions, events, batch);
            forall i :: 0 <= i < |batch| ==> batch[i].0 in es
    ensures var (s, es) := AfterEvents(sessions, events, batch);
            AfterEvents(s, es, batch) == (s, es)
  {
    EventsKept(sessions, events, batch);
    var (s, es) := AfterEvents(sessions, events, batch);
    KnownEventsIgnored(s, es, batch);
  }

  lemma {:induction false} EventsKept(sessions: Sessions, events: Events, batch: seq<(EventKey, Event)>)
    ensures var (s, es) := AfterEvents(sessions, events, batch);
            (forall k :: k in events ==> k in es) && forall i :: 0 <= i < |batch| ==> batch[i].0 in es
  {
    hide Upserted;
    if batch != [] {
      var n := |batch| - 1;
      EventsKept(sessions, events, batch[..n]);
      assert forall i :: 0 <= i < n ==> batch[..n][i] == batch[i];
    }
  }

  lemma {:induction false} KnownEventsIgnored(sessions: Sessions, events: Events, batch: seq<(EventKey, Event)>)
    requires forall i :: 0 <= i < |batch| ==> batch[i].0 in events
    ensures AfterEvents(sessions, events, batch) == (sessions, events)
  {
    hide Upserted;
    if batch != [] {
      KnownEventsIgnored(sessions, events, batch[..|batch| - 1]);
    }
  }

  // ---- The session record --------------------------------------------------------------------

  const MAX_TOOL_IDS: nat := 400
  const MAX_PROMPT: nat := 500

  datatype Record = Record(workspace: string, model: string, startTs: int, started: bool, status: Status,
                           turns: nat, step: nat, tools: nat, errors: nat, toolIds: seq<string>,
                           firstPrompt: string, lastPrompt: string, promptTs: int, turnMsTotal: real)

  function FreshRecord(workspace: string, model: string, now: int): Record {
    Record(workspace, model, now, false, Running, 0, 0, 0, 0, [], "", "", 0, 0.0)
  }

  /** The stored record, with a workspace or model filled in if it had none. */
  function Loaded(records: map<string, Record>, sid: string, workspace: string, model: string, now: int): Record {
    if sid !in records then FreshRecord(workspace, model, now)
    else
      var r := records[sid];
      r.(workspace := if workspace != "" && r.workspace == "" then workspace else r.workspace,
         model := if model != "" && (r.model == "" || r.model == "Claude") then model else r.model)
  }

  // ---- What a hook leaves in the session table -----------------------------------------------

  /** A session heard of for the first time gets a running row. */
  ghost function Opened(sessions: Sessions, records: map<string, Record>, sid: string, r: Record,
                        clock: int): Sessions
  {
    if sid in records || Excluded(sid) then sessions
    else
      var startTs := if r.startTs > 0 then r.startTs else clock;
      sessions[sid := Row(r.workspace, r.model, startTs, 0, Running, 0, 0, 0, 0.0)]
  }

  ghost function Touched(sessions: Sessions, sid: string, status: Status, now: int): Sessions {
    if Excluded(sid) || sid !in sessions then sessions
    else
      var row := sessions[sid];
      sessions[sid := row.(status := status, endTs := if now > 0 then now else row.endTs)]
  }

  /** The row takes over the record's counters and start. */
  ghost function Overwritten(sessions: Sessions, sid: string, r: Record, avgTurnMs: real, now: int): Sessions {
    if Excluded(sid) || sid !in sessions then sessions
    else
      var row := sessions[sid];
      sessions[sid := row.(status := r.status, turns := r.turns, tools := r.tools, errors := r.errors,
                           avgTurnMs := avgTurnMs, startTs := if r.startTs > 0 then r.startTs else row.startTs,
                           endTs := if now > 0 then now else row.endTs)]
  }

  ghost function WithEvent(sessions: Sessions, k: EventKey, e: Event): Sessions {
    if Excluded(k.sid) then sessions else sessions[k.sid := Upserted(sessions, k, e)]
  }

  // ---- What must agree -----------------------------------------------------------------------

  predicate Consistent(r: Record) {
    && r.started && r.step == r.turns + r.tools && r.errors <= r.tools
    && |r.toolIds| <= MAX_TOOL_IDS && Distinct(r.toolIds)
  }

  predicate SameCounters(row: Row, r: Record) {
    row.status == r.status && row.turns == r.turns && row.tools == r.tools && row.errors == r.errors
  }

  function KeysOf(events: Events, sid: string, kind: EventKind): set<EventKey> {
    set k | k in events && k.sid == sid && k.kind == kind
  }

  function ErrorKeys(events: Events, sid: string): set<EventKey> {
    set k | k in events && k.sid == sid && events[k].failed
  }

  /** The event table holds one event for every turn and tool call counted, at steps no later than the record's. */
  predicate SameEvents(events: Events, sid: string, r: Record) {
    && |KeysOf(events, sid, UserTurn)| == r.turns && |KeysOf(events, sid, ToolCall)| == r.tools
    && |ErrorKeys(events, sid)| == r.errors
    && forall k :: k in events && k.sid == sid ==> 1 <= k.step <= r.step
  }

  ghost predicate InStep(sid: string, r: Record, sessions: Sessions, events: Events) {
    && Consistent(r)
    && (!Excluded(sid) ==> sid in sessions && SameCounters(sessions[sid], r))
    && SameEvents(events, sid, r)
  }

  ghost predicate AllInStep(records: map<string, Record>, sessions: Sessions, events: Events) {
    && (forall sid :: sid in records ==> InStep(sid, records[sid], sessions, events))
    && forall k :: k in events ==> k.sid in records
  }

  lemma NewEventCounts(events: Events, k: EventKey, e: Event, sid: string)
    requires k !in events
    ensures |KeysOf(events[k := e], sid, UserTurn)| ==
            |KeysOf(events, sid, UserTurn)| + (if k.sid == sid && k.kind == UserTurn then 1 else 0)
    ensures |KeysOf(events[k := e], sid, ToolCall)| ==
            |KeysOf(events, sid, ToolCall)| + (if k.sid == sid && k.kind == ToolCall then 1 else 0)
    ensures |ErrorKeys(events[k := e], sid)| == |ErrorKeys(events, sid)| + (if k.sid == sid && e.failed then 1 else 0)
  {
    KindCounts(events, k, e, sid, UserTurn);
    KindCounts(events, k, e, sid, ToolCall);
    ErrorCounts(events, k, e, sid);
  }

  lemma KindCounts(events: Events, k: EventKey, e: Event, sid: string, kind: EventKind)
    requires k !in events
    ensures |KeysOf(events[k := e], sid, kind)| ==
            |KeysOf(events, sid, kind)| + (if k.sid == sid && k.kind == kind then 1 else 0)
  {
    var before, after := KeysOf(events, sid, kind), KeysOf(events[k := e], sid, kind);
    if k.sid == sid && k.kind == kind {
      assert after == before + {k};
    } else {
      assert after == before;
    }
  }

  lemma ErrorCounts(events: Events, k: EventKey, e: Event, sid: string)
    requires k !in events
    ensures |ErrorKeys(events[k := e], sid)| == |ErrorKeys(events, sid)| + (if k.sid == sid && e.failed then 1 else 0)
  {
    var before, after := ErrorKeys(events, sid), ErrorKeys(events[k := e], sid);
    if k.sid == sid && e.failed {
      assert after == before + {k};
    } else {
      assert after == before;
    }
  }

  /** Sessions other than the one an event is for keep what they had. */
  lemma OthersStayInStep(records: map<string, Record>, sessions: Sessions, events: Events,
                         sid: string, r: Record, sessions': Sessions, events': Events)
    requires AllInStep(records, sessions, events) && InStep(sid, r, sessions', events')
    requires forall s :: s in sessions && s != sid ==> s in sessions' && sessions'[s] == sessions[s]
    requires forall k :: k in events' && k !in events ==> k.sid == sid
    requires forall k :: k in events ==> k in events' && events'[k] == events[k]
    ensures AllInStep(records[sid := r], sessions', events')
  {
    hide Consistent, SameCounters;
    var records' := records[sid := r];
    forall s | s in records'
      ensures InStep(s, records'[s], sessions', events')
    {
      if s != sid {
        assert InStep(s, records[s], sessions, events);
        assert KeysOf(events', s, UserTurn) == KeysOf(events, s, UserTurn);
        assert KeysOf(events', s, ToolCall) == KeysOf(events, s, ToolCall);
        assert ErrorKeys(events', s) == ErrorKeys(events, s);
      }
    }
  }

  /** A session nobody has seen starts in step. */
  lemma FreshIsInStep(records: map<string, Record>, sessions: Sessions, events: Events, sid: string, r: Record,
                      row: Row)
    requires AllInStep(records, sessions, events) && sid !in records
    requires Consistent(r) && r.turns == 0 && r.tools == 0 && r.errors == 0 && SameCounters(row, r)
    ensures InStep(sid, r, if Excluded(sid) then sessions else sessions[sid := row], events)
  {
    hide Consistent;
    assert KeysOf(events, sid, UserTurn) == {};
    assert KeysOf(events, sid, ToolCall) == {};
    assert ErrorKeys(events, sid) == {};
  }

  lemma StoredRow(sid: string, r: Record, sessions: Sessions, events: Events)
    requires InStep(sid, r, sessions, events)
    ensures r.started && Consistent(r) && (!Excluded(sid) ==> sid in sessions && SameCounters(sessions[sid], r))
  {
  }

  lemma StoredInStep(records: map<string, Record>, sessions: Sessions, events: Events, sid: string)
    requires AllInStep(records, sessions, events) && sid in records
    ensures InStep(sid, records[sid], sessions, events)
  {
    hide InStep;
  }

  predicate Follows(row: Row, row': Row, status: Status) {
    row'.turns == row.turns && row'.tools == row.tools && row'.errors == row.errors && row'.status == status
  }

  /** A change that leaves the counters alone stays in step when the row follows it. */
  lemma SameCountersInStep(sid: string, r: Record, sessions: Sessions, events: Events, r': Record, sessions': Sessions)
    requires InStep(sid, r, sessions, events) && r'.started && r'.toolIds == r.toolIds
    requires r'.turns == r.turns && r'.step == r.step && r'.tools == r.tools && r'.errors == r.errors
    requires !Excluded(sid) ==> sid in sessions'
    requires !Excluded(sid) && sid in sessions && sid in sessions' ==> Follows(sessions[sid], sessions'[sid], r'.status)
    ensures InStep(sid, r', sessions', events)
  {
  }

  /** One counted event: the record, the row the event leaves, and the event table move on together. */
  lemma EventKeepsStep(sid: string, r: Record, sessions: Sessions, events: Events, k: EventKey, e: Event, r': Record)
    requires InStep(sid, r, sessions, events) && k.sid == sid && k.step == r.step + 1 && Consistent(r')
    requires e.failed ==> k.kind == ToolCall
    requires r'.step == r.step + 1 && r'.turns == r.turns + (if k.kind == UserTurn then 1 else 0)
    requires r'.tools == r.tools + (if k.kind == ToolCall then 1 else 0)
    requires r'.errors == r.errors + (if e.failed then 1 else 0)
    ensures k !in events && SameEvents(events[k := e], sid, r')
    ensures !Excluded(sid) ==> sid in sessions && SameCounters(Upserted(sessions, k, e), r'.(status := Running))
  {
    NewEventCounts(events, k, e, sid);
  }

  // ---- The hooks -----------------------------------------------------------------------------

  class Hooks {
    var records: map<string, Record>
    const db: TelemetryDb

    ghost predicate Valid()
      reads this, db
    {
      AllInStep(records, db.sessions, db.events)
    }

    constructor ()
      ensures Valid() && records == map[] && fresh(db)
    {
      records := map[];
      db := new TelemetryDb();
    }

    /** Reads the stored record, or makes one. */
    method LoadState(sid: string, workspace: string, model: string, now: int) returns (r: Record)
      ensures r == Loaded(records, sid, workspace, model, now)
    {
      r := Record(workspace, model, now, false, Running, 0, 0, 0, 0, [], "", "", 0, 0.0);
      if sid in records {
        r := records[sid];
        if workspace != "" && r.workspace == "" {
          r := r.(workspace := workspace);
        }
        if model != "" && (r.model == "" || r.model == "Claude") {
          r := r.(model := model);
        }
      }
    }

    /** Loads the record of a session, which gets its row if this is the first that is heard of it. */
    method Load(sid: string, workspace: string, model: string, now: int, clock: int) returns (r: Record)
      requires Valid()
      modifies db`sessions
      ensures r == Loaded(records, sid, workspace, model, now).(started := true)
      ensures InStep(sid, r, db.sessions, db.events)
      ensures sid in records ==> db.sessions == old(db.sessions)
      ensures db.sessions == Opened(old(db.sessions), records, sid, r, clock)
      ensures forall s :: s in old(db.sessions) && s != sid ==>
                s in db.sessions && db.sessions[s] == old(db.sessions)[s]
    {
      hide AllInStep, InStep;
      r := LoadState(sid, workspace, model, now);
      RecordsAreStarted(records, db.sessions, db.events, sid);
      if sid in records {
        StoredInStep(records, db.sessions, db.events, sid);
        StoredRow(sid, records[sid], db.sessions, db.events);
        SameCountersInStep(sid, records[sid], db.sessions, db.events, r, db.sessions);
      } else {
        FreshIsInStep(records, db.sessions, db.events, sid, r.(started := true),
                      Row(r.workspace, r.model, if r.startTs > 0 then r.startTs else clock, 0, Running, 0, 0, 0, 0.0));
      }
      if !r.started {
        db.RecordSessionStart(sid, r.workspace, r.model, r.startTs, clock);
        r := r.(started := true);
      }
    }

    method Save(sid: string, r: Record)
      modifies this`records
      ensures records == old(records)[sid := r]
    {
      records := records[sid := r];
    }

    /** A session starts, or comes back after its context was cleared. */
    method SessionStart(sid: string, workspace: string, model: string, now: int, clock: int)
      requires Valid()
      modifies this`records, db
      ensures Valid() && db.events == old(db.events)
      ensures var r := Loaded(old(records), sid, workspace, model, now);
              var isFresh := r.turns == 0 && r.firstPrompt == "";
              records == old(records)[sid := r.(started := true,
                status := if isFresh then Idle else if r.status != Running then Completed else Running)]
      ensures var r := records[sid];
              db.sessions == Touched(Opened(old(db.sessions), old(records), sid, r, clock), sid, r.status, now)
    {
      hide AllInStep, InStep;
      ghost var before, rows := records, db.sessions;
      var r := LoadState(sid, workspace, model, now);
      var isFresh := r.turns == 0 && r.firstPrompt == "";
      var wasStarted := r.started;
      RecordsAreStarted(records, db.sessions, db.events, sid);
      var status := if isFresh then Idle else if r.status != Running then Completed else r.status;
      var r' := r.(started := true, status := status);
      Save(sid, r');
      if isFresh && !wasStarted {
        db.RecordSessionStart(sid, r.workspace, r.model, r.startTs, clock);
        db.TouchSession(sid, Idle, now);
        ghost var row :=
                    Row(r.workspace, r.model, if r.startTs > 0 then r.startTs else clock, if now > 0 then now
                        else 0, Idle, 0, 0, 0, 0.0);
        FreshIsInStep(before, rows, db.events, sid, r', row);
        assert db.sessions == if Excluded(sid) then rows else rows[sid := row];
      } else {
        StoredInStep(before, rows, db.events, sid);
        StoredRow(sid, before[sid], rows, db.events);
        db.TouchSession(sid, status, now);
        SameCountersInStep(sid, before[sid], rows, db.events, r', db.sessions);
      }
      OthersStayInStep(before, rows, db.events, sid, r', db.sessions, db.events);
    }

    lemma RecordsAreStarted(records: map<string, Record>, sessions: Sessions, events: Events, sid: string)
      requires AllInStep(records, sessions, events)
      ensures sid in records ==> records[sid].started
    {
      hide SameEvents, SameCounters, Distinct;
      assert sid in records ==> InStep(sid, records[sid], sessions, events);
    }

    /** `prompt` has already been scrubbed. */
    method UserPromptSubmit(sid: string, workspace: string, model: string, now: int, clock: int, prompt: string)
      requires Valid()
      modifies this`records, db
      ensures Valid() && db.events == old(db.events)
      ensures var r := Loaded(old(records), sid, workspace, model, now);
              var shown := if |prompt| > 500 then prompt[..500] else prompt;
              records == old(records)[sid := r.(started := true, promptTs := now, status := Running,
                firstPrompt := if r.firstPrompt == "" then shown else r.firstPrompt,
                lastPrompt := if prompt == "" then r.lastPrompt else shown)]
      ensures var r := records[sid];
              db.sessions == Touched(Opened(old(db.sessions), old(records), sid, r, clock), sid, Running, now)
    {
      hide AllInStep, InStep;
      ghost var before, rows := records, db.sessions;
      var r := Load(sid, workspace, model, now, clock);
      var r' := r.(promptTs := now, status := Running);
      if prompt != "" {
        var shown := if |prompt| > MAX_PROMPT then prompt[..MAX_PROMPT] else prompt;
        if r.firstPrompt == "" {
          r' := r'.(firstPrompt := shown);
        }
        r' := r'.(lastPrompt := shown);
      }
      Save(sid, r');
      StoredRow(sid, r, db.sessions, db.events);
      ghost var loaded := db.sessions;
      db.TouchSession(sid, Running, now);
      SameCountersInStep(sid, r, loaded, db.events, r', db.sessions);
      OthersStayInStep(before, rows, db.events, sid, r', db.sessions, db.events);
    }

    method PreToolUse(sid: string, workspace: string, model: string, now: int, clock: int)
      requires Valid()
      modifies this`records, db
      ensures Valid() && db.events == old(db.events)
      ensures records ==
              old(records)[sid := Loaded(old(records), sid, workspace, model, now).(started := true, status := Running)]
      ensures var r := records[sid];
              db.sessions == Touched(Opened(old(db.sessions), old(records), sid, r, clock), sid, Running, now)
    {
      hide AllInStep, InStep;
      ghost var before, rows := records, db.sessions;
      var r := Load(sid, workspace, model, now, clock);
      var r' := r.(status := Running);
      Save(sid, r');
      StoredRow(sid, r, db.sessions, db.events);
      ghost var loaded := db.sessions;
      db.TouchSession(sid, Running, now);
      SameCountersInStep(sid, r, loaded, db.events, r', db.sessions);
      OthersStayInStep(before, rows, db.events, sid, r', db.sessions, db.events);
    }

    /** A finished tool call. One whose identifier is remembered changes no counter and neither table. */
    method PostToolUse(sid: string, workspace: string, model: string, now: int, clock: int,
                       failed: bool, toolUseId: string, toolName: string, durationMs: real)
      requires Valid()
      modifies this`records, db
      ensures Valid()
      ensures var r := Loaded(old(records), sid, workspace, model, now);
              if toolUseId != "" && toolUseId in r.toolIds then
                records == old(records)[sid := r.(started := true)] && db.events == old(db.events) &&
                db.sessions == old(db.sessions)
              else
                && records ==
                  old(records)[sid := r.(started := true, status := Running, step := r.step + 1, tools := r.tools + 1,
                     errors := r.errors + (if failed then 1 else 0),
                     toolIds := if toolUseId == "" then r.toolIds else Remembered(r.toolIds, toolUseId))]
                && db.events ==
                  old(db.events)[EventKey(sid, r.step + 1, ToolCall, if toolName == "" then "tool" else toolName) :=
                     Event(now, failed, durationMs, r.workspace, r.model)]
                && EventKey(sid, r.step + 1, ToolCall, if toolName == "" then "tool" else toolName) !in old(db.events)
                && var k := EventKey(sid, r.step + 1, ToolCall, if toolName == "" then "tool" else toolName);
                   var rows := Opened(old(db.sessions), old(records), sid, r, clock);
                   db.sessions ==
                   Overwritten(WithEvent(rows, k, Event(now, failed, durationMs, r.workspace, r.model)), sid,
                               records[sid],
                               0.0, now)
    {
      hide AllInStep, InStep, Remembered, Distinct;
      ghost var before, rows := records, db.sessions;
      var r := Load(sid, workspace, model, now, clock);
      if toolUseId != "" && toolUseId in r.toolIds {
        Save(sid, r);
        OthersStayInStep(before, rows, db.events, sid, r, db.sessions, db.events);
        return;
      }
      StoredRow(sid, r, db.sessions, db.events);
      var toolIds := r.toolIds;
      if toolUseId != "" {
        RememberedIsDistinct(r.toolIds, toolUseId);
        toolIds := Remember(r.toolIds, toolUseId);
      }
      var r' := r.(step := r.step + 1, tools := r.tools + 1, errors := r.errors + (if failed then 1 else 0),
                   status := Running, toolIds := toolIds);
      var k := EventKey(sid, r'.step, ToolCall, if toolName == "" then "tool" else toolName);
      CountEvent(sid, r, r', k, Event(now, failed, durationMs, r.workspace, r.model), 0.0, now, rows);
    }

    /** Saves the record of a counted event, stores the event, and overwrites the row's counters. */
    method CountEvent(sid: string, ghost r: Record, r': Record, k: EventKey, e: Event, avgTurnMs: real, now: int,
                      ghost rows: Sessions)
      requires AllInStep(records, rows, db.events) && InStep(sid, r, db.sessions, db.events)
      requires forall s :: s in rows && s != sid ==> s in db.sessions && db.sessions[s] == rows[s]
      requires k.sid == sid && k.step == r.step + 1 && Consistent(r') && (e.failed ==> k.kind == ToolCall)
      requires r'.step == r.step + 1 && r'.turns == r.turns + (if k.kind == UserTurn then 1 else 0)
      requires r'.tools == r.tools + (if k.kind == ToolCall then 1 else 0)
      requires r'.errors == r.errors + (if e.failed then 1 else 0)
      modifies this`records, db
      ensures Valid() && records == old(records)[sid := r']
      ensures k !in old(db.events) && db.events == old(db.events)[k := e]
      ensures db.sessions == Overwritten(WithEvent(old(db.sessions), k, e), sid, r', avgTurnMs, now)
    {
      hide AllInStep, SameEvents, Consistent, Upserted, Excluded;
      ghost var before, loaded, events := records, db.sessions, db.events;
      Save(sid, r');
      EventKeepsStep(sid, r, loaded, events, k, e, r');
      var _ := db.InsertEvent(k, e);
      db.UpdateSessionStats(sid, r'.status, r'.turns, r'.tools, r'.errors, avgTurnMs, r'.startTs, now);
      OthersStayInStep(before, rows, events, sid, r', db.sessions, db.events);
    }

    /** The end of a turn. */
    method Stop(sid: string, workspace: string, model: string, now: int, clock: int)
      requires Valid()
      modifies this`records, db
      ensures Valid()
      ensures var r := Loaded(old(records), sid, workspace, model, now);
              && records ==
                old(records)[sid := r.(started := true, status := Completed, turns := r.turns + 1, step := r.step + 1,
                   promptTs := 0, turnMsTotal := TurnTime(r, now))]
              && db.events ==
                old(db.events)[EventKey(sid, r.step + 1, UserTurn, "") := Event(now, false, 0.0, r.workspace, r.model)]
              && EventKey(sid, r.step + 1, UserTurn, "") !in old(db.events)
              && var k, e := EventKey(sid, r.step + 1, UserTurn, ""), Event(now, false, 0.0, r.workspace, r.model);
                 db.sessions ==
                 Overwritten(WithEvent(Opened(old(db.sessions), old(records), sid, r, clock), k, e), sid, records[sid],
                             TurnTime(r, now) / (r.turns + 1) as real, now)
    {
      hide AllInStep, InStep;
      ghost var rows := db.sessions;
      var r := Load(sid, workspace, model, now, clock);
      StoredRow(sid, r, db.sessions, db.events);
      var total := r.turnMsTotal;
      if r.promptTs > 0 && now >= r.promptTs {
        total := total + (now - r.promptTs) as real * 1000.0;
      }
      var r' := r.(turnMsTotal := total, promptTs := 0, turns := r.turns + 1, step := r.step + 1, status := Completed);
      CountEvent(sid, r, r', EventKey(sid, r'.step, UserTurn, ""), Event(now, false, 0.0, r.workspace, r.model),
                 total / r'.turns as real, now, rows);
    }

    /** `kept` says that a one-shot process is ending inside a session that lives on, which ends nothing. */
    method SessionEnd(sid: string, workspace: string, model: string, now: int, clock: int, kept: bool)
      requires Valid()
      modifies this`records, db
      ensures Valid() && db.events == old(db.events)
      ensures records == if kept then old(records)
                         else old(records)[sid :=
                                           Loaded(old(records), sid, workspace, model, now).(started := true,
                                                                                             status := Completed)]
      ensures kept ==> db.sessions == old(db.sessions)
      ensures !kept ==>
                var r := records[sid];
                var rows := Opened(old(db.sessions), old(records), sid, r, clock);
                if Excluded(sid) || sid !in rows then db.sessions == rows
                else db.sessions == rows[sid := rows[sid].(status := Completed, turns := r.turns, tools := r.tools,
                       errors := r.errors, avgTurnMs := if r.turns > 0 then r.turnMsTotal / r.turns as real else 0.0,
                       endTs := if now > 0 then now else clock)]
    {
      hide AllInStep, InStep;
      if kept {
        return;
      }
      ghost var before, rows := records, db.sessions;
      var r := Load(sid, workspace, model, now, clock);
      var r' := r.(status := Completed);
      Save(sid, r');
      var avg := if r.turns > 0 then r.turnMsTotal / r.turns as real else 0.0;
      StoredRow(sid, r, db.sessions, db.events);
      ghost var loaded := db.sessions;
      db.RecordSessionEnd(sid, Completed, r.turns, r.tools, r.errors, avg, now, clock);
      SameCountersInStep(sid, r, loaded, db.events, r', db.sessions);
      OthersStayInStep(before, rows, db.events, sid, r', db.sessions, db.events);
    }
  }

  function TurnTime(r: Record, now: int): real {
    if r.promptTs > 0 && now >= r.promptTs then r.turnMsTotal + (now - r.promptTs) as real * 1000.0 else r.turnMsTotal
  }

  /** The identifiers with one more, keeping the last 400. */
  function Remembered(ids: seq<string>, id: string): seq<string> {
    var all := ids + [id];
    if |all| > MAX_TOOL_IDS then all[|all| - MAX_TOOL_IDS..] else all
  }

  method Remember(ids: seq<string>, id: string) returns (all: seq<string>)
    ensures all == Remembered(ids, id)
  {
    all := ids + [id];
    if |all| > MAX_TOOL_IDS {
      all := all[|all| - MAX_TOOL_IDS..];
    }
  }

  /** The new identifier comes last, the others keep their places before it, and only what would be the 401st from
      the end is forgotten. */
  lemma RememberedIsDistinct(ids: seq<string>, id: string)
    requires Distinct(ids) && id !in ids
    ensures var r := Remembered(ids, id);
            && Distinct(r) && |r| == (if |ids| < 400 then |ids| + 1 else 400) && r[|r| - 1] == id
            && forall k :: 0 <= k < |r| - 1 ==> r[k] == ids[k + |ids| + 1 - |r|]
  {
    var all := ids + [id];
    assert Distinct(all);
  }
}

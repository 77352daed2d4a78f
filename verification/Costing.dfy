/** Costing usage: grouping rows and pricing each group with saturating integers is pricing every row exactly. */
module Costing {
  import opened UsageStore
  import opened PriceVersions

  const INT64_MAX: int := 0x7fff_ffff_ffff_ffff
  const INT64_MIN: int := -INT64_MAX - 1

  // ---- Saturating sums -----------------------------------------------------------------------

  datatype Money = Money(nano: int, overflow: bool)

  predicate InInt64(v: int) {
    INT64_MIN <= v <= INT64_MAX
  }

  /** The value stands for `exact`: capped at the largest integer, and flagged exactly when it was. */
  predicate Capped(m: Money, exact: int) {
    var most := 9223372036854775807;
    m.nano == (if exact <= most then exact else most) && (m.overflow <==> exact > most)
  }

  method AddChecked(acc: int, value: int, overflow: bool) returns (r: Money)
    requires InInt64(acc) && InInt64(value) && acc + value >= INT64_MIN
    ensures r == Money(if acc + value <= INT64_MAX then acc + value else INT64_MAX, overflow || acc + value > INT64_MAX)
  {
    var out := acc + value;
    if !InInt64(out) {
      r := Money(INT64_MAX, true);
    } else {
      r := Money(out, overflow);
    }
  }

  method MulAddChecked(m: Money, tokens: nat, rate: nat, ghost exact: nat) returns (r: Money)
    requires Capped(m, exact)
    ensures Capped(r, exact + tokens * rate)
  {
    var product := tokens * rate;
    if !InInt64(product) {
      r := Money(INT64_MAX, true);
    } else {
      r := AddChecked(m.nano, product, m.overflow);
    }
  }

  // ---- What rows add up to -------------------------------------------------------------------

  /** Exact sums over messages. `cost` is in nanodollars and counts priced messages only. */
  datatype Totals = Totals(messages: nat, input: nat, output: nat, cacheRead: nat, cacheWrite5m: nat, cacheWrite1h: nat,
                           webSearch: nat, unpriced: nat, cost: nat)

  const ZERO := Totals(0, 0, 0, 0, 0, 0, 0, 0, 0)

  function Plus(a: Totals, b: Totals): Totals {
    Totals(a.messages + b.messages, a.input + b.input, a.output + b.output, a.cacheRead + b.cacheRead,
           a.cacheWrite5m + b.cacheWrite5m, a.cacheWrite1h + b.cacheWrite1h, a.webSearch + b.webSearch,
           a.unpriced + b.unpriced, a.cost + b.cost)
  }

  predicate RowOk(r: Stored) {
    && TokensOk(r.input) && TokensOk(r.output) && TokensOk(r.cacheRead) && TokensOk(r.cacheWrite5m)
    && TokensOk(r.cacheWrite1h) && TokensOk(r.webSearch)
  }

  /** A row as the store holds it. */
  type Row = r: Stored | RowOk(r) witness Stored("", 0, 0, "", false, 0, 0, 0, 0, 0, 0, false, false)

  function Prompt(r: Row): int {
    r.input + r.cacheRead + r.cacheWrite5m + r.cacheWrite1h
  }

  /** The rates of a message, from the version chosen for its time. */
  function RowRates(vs: seq<Version>, r: Row): Option<Rates>
    requires vs != []
  {
    var models := vs[Chosen(vs, r.timestamp)].models;
    var id := Resolve(models, r.model);
    if id == "" then None else RatesOf(models[id], r.fast, Prompt(r))
  }

  /** The exact price of so many tokens. */
  function Price(p: Rates, t: Totals): nat {
    t.input * p.input + t.cacheWrite5m * p.write5m + t.cacheWrite1h * p.write1h + t.cacheRead * p.read +
    t.output * p.output
  }

  function Tokens(r: Row): Totals {
    Totals(1, r.input, r.output, r.cacheRead, r.cacheWrite5m, r.cacheWrite1h, r.webSearch, 0, 0)
  }

  /** One message: its tokens, and its price or one unpriced message. */
  function RowTotals(vs: seq<Version>, r: Row): Totals
    requires vs != []
  {
    match RowRates(vs, r)
    case None => Tokens(r).(unpriced := 1)
    case Some(p) => Tokens(r).(cost := Price(p, Tokens(r)))
  }

  // ---- Groups --------------------------------------------------------------------------------

  datatype GroupKey = GroupKey(day: int, model: string, fast: bool, ver: nat, tier: nat)

  function KeyOfRow(vs: seq<Version>, r: Row): GroupKey
    requires vs != []
  {
    var ver := Chosen(vs, r.timestamp);
    GroupKey(r.day, r.model, r.fast, ver, Tier(vs, r.model, Prompt(r), ver))
  }

  datatype Filter = Everything | Bucket(day: int, model: string) | Group(key: GroupKey)

  predicate Matches(vs: seq<Version>, f: Filter, r: Row)
    requires vs != []
  {
    match f
    case Everything => true
    case Bucket(day, model) => r.day == day && r.model == model
    case Group(key) => KeyOfRow(vs, r) == key
  }

  /** The sums over the rows of a filter. */
  function Sums(vs: seq<Version>, rows: seq<Row>, f: Filter): Totals
    requires vs != []
  {
    if rows == [] then ZERO
    else
      var n := |rows| - 1;
      Plus(Sums(vs, rows[..n], f), if Matches(vs, f, rows[n]) then RowTotals(vs, rows[n]) else ZERO)
  }

  function SumsOver(vs: seq<Version>, rows: seq<Row>, fs: seq<Filter>): Totals
    requires vs != []
  {
    if fs == [] then ZERO else Plus(SumsOver(vs, rows, fs[..|fs| - 1]), Sums(vs, rows, fs[|fs| - 1]))
  }

  /** Every row of `f` is in exactly one of `fs`, and no other row is in any. */
  ghost predicate Partition(vs: seq<Version>, rows: seq<Row>, f: Filter, fs: seq<Filter>)
    requires vs != []
  {
    forall i :: 0 <= i < |rows| ==> InOneOf(vs, rows[i], f, fs)
  }

  ghost predicate InOneOf(vs: seq<Version>, r: Row, f: Filter, fs: seq<Filter>)
    requires vs != []
  {
    && (forall j :: 0 <= j < |fs| && Matches(vs, fs[j], r) ==> Matches(vs, f, r))
    && (forall j, k :: 0 <= j < k < |fs| && Matches(vs, fs[j], r) ==> !Matches(vs, fs[k], r))
    && (Matches(vs, f, r) ==> exists j :: 0 <= j < |fs| && Matches(vs, fs[j], r))
  }

  function Hits(vs: seq<Version>, r: Row, fs: seq<Filter>): nat
    requires vs != []
  {
    if fs == [] then 0 else Hits(vs, r, fs[..|fs| - 1]) + (if Matches(vs, fs[|fs| - 1], r) then 1 else 0)
  }

  lemma {:induction false} HitsNone(vs: seq<Version>, r: Row, fs: seq<Filter>)
    requires vs != [] && forall j :: 0 <= j < |fs| ==> !Matches(vs, fs[j], r)
    ensures Hits(vs, r, fs) == 0
  {
    hide Matches;
    if fs != [] {
      HitsNone(vs, r, fs[..|fs| - 1]);
    }
  }

  lemma {:induction false} HitsOne(vs: seq<Version>, r: Row, fs: seq<Filter>, j: nat)
    requires vs != [] && j < |fs| && Matches(vs, fs[j], r)
    requires forall k :: 0 <= k < |fs| && k != j ==> !Matches(vs, fs[k], r)
    ensures Hits(vs, r, fs) == 1
  {
    hide Matches;
    var n := |fs| - 1;
    if j < n {
      HitsOne(vs, r, fs[..n], j);
    } else {
      HitsNone(vs, r, fs[..n]);
    }
  }

  lemma {:induction false} AddRow(vs: seq<Version>, rows: seq<Row>, r: Row, fs: seq<Filter>)
    requires vs != [] && Hits(vs, r, fs) <= 1
    ensures SumsOver(vs, rows + [r], fs) ==
            Plus(SumsOver(vs, rows, fs), if Hits(vs, r, fs) == 1 then RowTotals(vs, r) else ZERO)
  {
    if fs == [] {
      PlusZero(ZERO);
    } else {
      var n := |fs| - 1;
      AddRow(vs, rows, r, fs[..n]);
      SumsSnoc(vs, rows, r, fs[n]);
      hide Matches, RowTotals, Sums, Plus;
      PlusSwaps(SumsOver(vs, rows, fs[..n]), Sums(vs, rows, fs[n]), RowTotals(vs, r));
      PlusZero(SumsOver(vs, rows, fs[..n]));
      PlusZero(Sums(vs, rows, fs[n]));
      PlusZero(Plus(SumsOver(vs, rows, fs[..n]), Sums(vs, rows, fs[n])));
    }
  }

  lemma PlusZero(a: Totals)
    ensures Plus(a, ZERO) == a
  {
  }

  lemma PlusSwaps(a: Totals, b: Totals, c: Totals)
    ensures Plus(Plus(a, b), c) == Plus(Plus(a, c), b) == Plus(a, Plus(b, c))
  {
  }

  lemma SumsSnoc(vs: seq<Version>, rows: seq<Row>, r: Row, f: Filter)
    requires vs != []
    ensures Sums(vs, rows + [r], f) == Plus(Sums(vs, rows, f), if Matches(vs, f, r) then RowTotals(vs, r) else ZERO)
  {
    assert (rows + [r])[..|rows|] == rows;
  }

  /** Sums over the parts add up to the sums over the whole. */
  lemma {:induction false} PartsAddUp(vs: seq<Version>, rows: seq<Row>, f: Filter, fs: seq<Filter>)
    requires vs != [] && Partition(vs, rows, f, fs)
    ensures SumsOver(vs, rows, fs) == Sums(vs, rows, f)
  {
    hide Matches, RowTotals;
    if rows == [] {
      NothingAddsUp(vs, rows, fs);
    } else {
      var n := |rows| - 1;
      PartsAddUp(vs, rows[..n], f, fs);
      assert InOneOf(vs, rows[n], f, fs);
      if Matches(vs, f, rows[n]) {
        var j :| 0 <= j < |fs| && Matches(vs, fs[j], rows[n]);
        HitsOne(vs, rows[n], fs, j);
      } else {
        HitsNone(vs, rows[n], fs);
      }
      hide InOneOf, Hits;
      AddRow(vs, rows[..n], rows[n], fs);
      assert rows[..n] + [rows[n]] == rows;
    }
  }

  lemma {:induction false} NothingAddsUp(vs: seq<Version>, rows: seq<Row>, fs: seq<Filter>)
    requires vs != [] && rows == []
    ensures SumsOver(vs, rows, fs) == ZERO
  {
    if fs != [] {
      NothingAddsUp(vs, rows, fs[..|fs| - 1]);
      NoRows(vs, rows, fs[|fs| - 1]);
      hide Sums, Plus;
      PlusZero(ZERO);
    }
  }

  lemma NoRows(vs: seq<Version>, rows: seq<Row>, f: Filter)
    requires vs != [] && rows == []
    ensures Sums(vs, rows, f) == ZERO
  {
  }

  // ---- Pricing a group -----------------------------------------------------------------------

  /** The rates of a whole group, from its version and tier. */
  function GroupRates(vs: seq<Version>, k: GroupKey): Option<Rates>
    requires k.ver < |vs|
  {
    var models := vs[k.ver].models;
    var id := Resolve(models, k.model);
    if id == "" || (k.fast && (k.tier == 1 || !models[id].hasFast)) then None
    else if k.fast then Some(models[id].fast)
    else if k.tier == 1 && models[id].upper.Some? then models[id].upper
    else Some(models[id].standard)
  }

  /** All messages of a group have the group's rates. */
  lemma SameRates(vs: seq<Version>, r: Row)
    requires vs != []
    ensures KeyOfRow(vs, r).ver < |vs| && GroupRates(vs, KeyOfRow(vs, r)) == RowRates(vs, r)
  {
    hide Chosen, Resolve;
  }

  lemma PriceAdds(p: Rates, a: Totals, b: Totals)
    ensures Price(p, Plus(a, b)) == Price(p, a) + Price(p, b)
  {
    Distribute(a.input, b.input, p.input);
    Distribute(a.cacheWrite5m, b.cacheWrite5m, p.write5m);
    Distribute(a.cacheWrite1h, b.cacheWrite1h, p.write1h);
    Distribute(a.cacheRead, b.cacheRead, p.read);
    Distribute(a.output, b.output, p.output);
  }

  lemma Distribute(x: int, y: int, k: int)
    ensures (x + y) * k == x * k + y * k
  {
  }

  /** The price of a group's token sums is the sum of its messages' prices. */
  lemma {:induction false} GroupPrice(vs: seq<Version>, rows: seq<Row>, k: GroupKey)
    requires k.ver < |vs|
    ensures var t := Sums(vs, rows, Group(k));
            match GroupRates(vs, k)
            case None => t.unpriced == t.messages && t.cost == 0
            case Some(p) => t.unpriced == 0 && t.cost == Price(p, t)
  {
    if rows != [] {
      var n := |rows| - 1;
      GroupPrice(vs, rows[..n], k);
      SameRates(vs, rows[n]);
      hide GroupRates, RowRates, KeyOfRow, Price;
      if KeyOfRow(vs, rows[n]) == k && GroupRates(vs, k).Some? {
        var p := GroupRates(vs, k).value;
        var s, r := Sums(vs, rows[..n], Group(k)), RowTotals(vs, rows[n]);
        PriceAdds(p, s, r);
        PriceIgnoresCost(p, Tokens(rows[n]), r);
      }
    }
  }

  lemma PriceIgnoresCost(p: Rates, a: Totals, b: Totals)
    requires a.(unpriced := b.unpriced, cost := b.cost) == b
    ensures Price(p, a) == Price(p, b)
  {
  }

  // ---- Aggregating ---------------------------------------------------------------------------

  /** One result row of the grouping query: a key with the counts and sums of its rows. */
  datatype GroupRow = GroupRow(key: GroupKey, t: Totals)

  /** What the query returns: every group that has rows, once, with integer sums; groups of one day and model are
      adjacent, as the result is ordered by day and model first. */
  ghost predicate Grouped(vs: seq<Version>, rows: seq<Row>, groups: seq<GroupRow>)
    requires vs != []
  {
    && (forall i :: 0 <= i < |groups| ==> GroupOf(vs, rows, groups[i]))
    && (forall i, j :: 0 <= i < j < |groups| ==> groups[i].key != groups[j].key)
    && (forall i :: 0 <= i < |rows| ==> HasGroup(vs, rows[i], groups))
    && Adjacent(groups)
  }

  ghost predicate Adjacent(groups: seq<GroupRow>) {
    forall i, j, k :: 0 <= i < j < k < |groups| && SameBucket(groups[i].key, groups[k].key) ==>
      SameBucket(groups[i].key, groups[j].key)
  }

  ghost predicate GroupOf(vs: seq<Version>, rows: seq<Row>, g: GroupRow)
    requires vs != []
  {
    && (exists i :: 0 <= i < |rows| && KeyOfRow(vs, rows[i]) == g.key)
    && g.t == Sums(vs, rows, Group(g.key)).(unpriced := 0, cost := 0)
  }

  ghost predicate HasGroup(vs: seq<Version>, r: Row, groups: seq<GroupRow>)
    requires vs != []
  {
    exists i :: 0 <= i < |groups| && groups[i].key == KeyOfRow(vs, r)
  }

  predicate SameBucket(a: GroupKey, b: GroupKey) {
    a.day == b.day && a.model == b.model
  }

  datatype UsageBucket = UsageBucket(day: int, model: string, t: Totals, cost: Money)

  /** A result with these exact sums: everything is exact but the cost, which is capped. */
  ghost predicate Shows(t: Totals, cost: Money, exact: Totals) {
    t == exact.(cost := 0) && Capped(cost, exact.cost)
  }

  ghost predicate BucketOk(vs: seq<Version>, rows: seq<Row>, fs: seq<Filter>, b: UsageBucket)
    requires vs != []
  {
    Shows(b.t, b.cost, SumsOver(vs, rows, fs))
  }

  /** The groups of a bucket, as filters. */
  function Parts(groups: seq<GroupRow>, day: int, model: string): seq<Filter> {
    if groups == [] then []
    else
      var k := groups[|groups| - 1].key;
      Parts(groups[..|groups| - 1], day, model) + (if k.day == day && k.model == model then [Group(k)] else [])
  }

  method CostOfGroup(vs: seq<Version>, g: GroupRow) returns (priced: bool, cost: Money)
    requires g.key.ver < |vs|
    ensures priced <==> GroupRates(vs, g.key).Some?
    ensures priced ==> Capped(cost, Price(GroupRates(vs, g.key).value, g.t))
  {
    var models := vs[g.key.ver].models;
    var id := Resolve(models, g.key.model);
    cost := Money(0, false);
    if id == "" || (g.key.fast && (g.key.tier == 1 || !models[id].hasFast)) {
      priced := false;
      return;
    }
    priced := true;
    var p := if g.key.fast then models[id].fast
             else if g.key.tier == 1 && models[id].upper.Some? then models[id].upper.value
             else models[id].standard;
    var t := g.t;
    cost := MulAddChecked(cost, t.input, p.input, 0);
    cost := MulAddChecked(cost, t.cacheWrite5m, p.write5m, t.input * p.input);
    cost := MulAddChecked(cost, t.cacheWrite1h, p.write1h, t.input * p.input + t.cacheWrite5m * p.write5m);
    cost := MulAddChecked(cost, t.cacheRead, p.read,
                          t.input * p.input + t.cacheWrite5m * p.write5m + t.cacheWrite1h * p.write1h);
    cost := MulAddChecked(cost, t.output, p.output,
                          t.input * p.input + t.cacheWrite5m * p.write5m + t.cacheWrite1h * p.write1h +
                            t.cacheRead * p.read);
  }

  method Added(a: Totals, b: Totals) returns (t: Totals)
    ensures t == Plus(a, b)
  {
    t := a.(messages := a.messages + b.messages, unpriced := a.unpriced + b.unpriced, cost := a.cost + b.cost);
    t := t.(input := t.input + b.input, output := t.output + b.output, webSearch := t.webSearch + b.webSearch);
    t := t.(cacheRead := t.cacheRead + b.cacheRead, cacheWrite5m := t.cacheWrite5m + b.cacheWrite5m,
            cacheWrite1h := t.cacheWrite1h + b.cacheWrite1h);
  }

  /** Adds a group to its bucket. */
  method AddGroup(vs: seq<Version>, ghost rows: seq<Row>, g: GroupRow, b: UsageBucket, ghost fs: seq<Filter>)
    returns (b': UsageBucket)
    requires vs != [] && GroupOf(vs, rows, g) && g.key.ver < |vs| && BucketOk(vs, rows, fs, b)
    ensures BucketOk(vs, rows, fs + [Group(g.key)], b') && b'.day == b.day && b'.model == b.model
  {
    hide Sums, SumsOver, GroupRates, Price;
    var priced, cost := CostOfGroup(vs, g);
    var t := Added(b.t, g.t);
    ghost var exact, part := SumsOver(vs, rows, fs), Sums(vs, rows, Group(g.key));
    GroupPrice(vs, rows, g.key);
    SumsOverSnoc(vs, rows, fs, Group(g.key));
    if !priced {
      return b.(t := t.(unpriced := t.unpriced + g.t.messages));
    }
    PriceIgnoresCost(GroupRates(vs, g.key).value, g.t, part);
    var sum := AddChecked(b.cost.nano, cost.nano, cost.overflow);
    b' := b.(t := t, cost := Money(sum.nano, b.cost.overflow || sum.overflow));
  }

  lemma SumsOverSnoc(vs: seq<Version>, rows: seq<Row>, fs: seq<Filter>, f: Filter)
    requires vs != []
    ensures SumsOver(vs, rows, fs + [f]) == Plus(SumsOver(vs, rows, fs), Sums(vs, rows, f))
  {
    assert (fs + [f])[..|fs|] == fs;
  }

  // ---- From groups to buckets ----------------------------------------------------------------

  lemma {:induction false} PartsAre(groups: seq<GroupRow>, day: int, model: string, j: nat) returns (i: nat)
    requires j < |Parts(groups, day, model)|
    ensures i < |groups| && Parts(groups, day, model)[j] == Group(groups[i].key)
    ensures groups[i].key.day == day && groups[i].key.model == model
    ensures j == |Parts(groups[..i], day, model)|
  {
    var n := |groups| - 1;
    if j < |Parts(groups[..n], day, model)| {
      i := PartsAre(groups[..n], day, model, j);
      assert groups[..n][..i] == groups[..i];
    } else {
      i := n;
    }
  }

  lemma {:induction false} PartsHold(groups: seq<GroupRow>, day: int, model: string, i: nat) returns (j: nat)
    requires i < |groups| && groups[i].key.day == day && groups[i].key.model == model
    ensures j < |Parts(groups, day, model)| && Parts(groups, day, model)[j] == Group(groups[i].key)
  {
    var n := |groups| - 1;
    if i < n {
      j := PartsHold(groups[..n], day, model, i);
    } else {
      j := |Parts(groups[..n], day, model)|;
    }
  }

  lemma PartsOfBucket(vs: seq<Version>, rows: seq<Row>, groups: seq<GroupRow>, day: int, model: string)
    requires vs != [] && Grouped(vs, rows, groups)
    ensures SumsOver(vs, rows, Parts(groups, day, model)) == Sums(vs, rows, Bucket(day, model))
  {
    hide Parts, Sums, SumsOver, Chosen, Tier;
    var fs := Parts(groups, day, model);
    forall m | 0 <= m < |rows|
      ensures InOneOf(vs, rows[m], Bucket(day, model), fs)
    {
      PartsOfRow(vs, rows, groups, day, model, m);
    }
    PartsAddUp(vs, rows, Bucket(day, model), fs);
  }

  lemma PartsOfRow(vs: seq<Version>, rows: seq<Row>, groups: seq<GroupRow>, day: int, model: string, m: nat)
    requires vs != [] && m < |rows| && Grouped(vs, rows, groups)
    ensures InOneOf(vs, rows[m], Bucket(day, model), Parts(groups, day, model))
  {
    hide Parts, Sums, Chosen, Tier, GroupOf;
    var fs, r, f := Parts(groups, day, model), rows[m], Bucket(day, model);
    forall j | 0 <= j < |fs| && Matches(vs, fs[j], r)
      ensures Matches(vs, f, r)
    {
      var i := PartsAre(groups, day, model, j);
    }
    forall j, k | 0 <= j < k < |fs| && Matches(vs, fs[j], r)
      ensures !Matches(vs, fs[k], r)
    {
      var a := PartsAre(groups, day, model, j);
      var b := PartsAre(groups, day, model, k);
      assert a != b;
      assert groups[a].key != groups[b].key;
    }
    if Matches(vs, f, r) {
      assert HasGroup(vs, rows[m], groups);
      var i :| 0 <= i < |groups| && groups[i].key == KeyOfRow(vs, r);
      var j := PartsHold(groups, day, model, i);
      assert Matches(vs, fs[j], r);
    }
  }

  lemma {:induction false} NoParts(groups: seq<GroupRow>, day: int, model: string)
    requires forall i :: 0 <= i < |groups| ==> groups[i].key.day != day || groups[i].key.model != model
    ensures Parts(groups, day, model) == []
  {
    if groups != [] {
      NoParts(groups[..|groups| - 1], day, model);
    }
  }

  // ---- The loops -----------------------------------------------------------------------------

  ghost predicate InBucket(k: GroupKey, b: UsageBucket) {
    k.day == b.day && k.model == b.model
  }

  ghost predicate HasBucket(out: seq<UsageBucket>, k: GroupKey) {
    exists m :: 0 <= m < |out| && InBucket(k, out[m])
  }

  ghost predicate FromGroup(groups: seq<GroupRow>, b: UsageBucket) {
    exists j :: 0 <= j < |groups| && InBucket(groups[j].key, b)
  }

  ghost predicate OneBucketEach(out: seq<UsageBucket>) {
    forall m, n :: 0 <= m < n < |out| ==> out[m].day != out[n].day || out[m].model != out[n].model
  }

  /** The buckets after some groups: one for each day and model seen, the last one that of the last group. */
  ghost predicate Filled(vs: seq<Version>, rows: seq<Row>, groups: seq<GroupRow>, out: seq<UsageBucket>)
    requires vs != []
  {
    && OneBucketEach(out)
    && (forall m :: 0 <= m < |out| ==>
          FromGroup(groups, out[m]) && BucketOk(vs, rows, Parts(groups, out[m].day, out[m].model), out[m]))
    && (forall j :: 0 <= j < |groups| ==> HasBucket(out, groups[j].key))
    && (groups != [] ==> out != [] && InBucket(groups[|groups| - 1].key, out[|out| - 1]))
  }

  const NO_COST := Money(0, false)

  lemma NewBucket(vs: seq<Version>, rows: seq<Row>, groups: seq<GroupRow>, i: nat, out: seq<UsageBucket>)
    requires vs != [] && i < |groups| && Grouped(vs, rows, groups) && Filled(vs, rows, groups[..i], out)
    requires out == [] || !InBucket(groups[i].key, out[|out| - 1])
    ensures forall m :: 0 <= m < |out| ==> !InBucket(groups[i].key, out[m])
    ensures var k := groups[i].key;
            Parts(groups[..i], k.day, k.model) == [] &&
            BucketOk(vs, rows, [], UsageBucket(k.day, k.model, ZERO, NO_COST))
  {
    hide Sums, GroupOf, HasGroup, Parts, BucketOk, HasBucket, Adjacent, OneBucketEach;
    var k := groups[i].key;
    assert i > 0 ==> groups[..i][i - 1] == groups[i - 1];
    NewIsNotEarlier(groups, i);
    forall m | 0 <= m < |out|
      ensures !InBucket(k, out[m])
    {
      assert FromGroup(groups[..i], out[m]);
      var j :| 0 <= j < i && InBucket(groups[..i][j].key, out[m]);
      assert groups[..i][j] == groups[j];
    }
    NoParts(groups[..i], k.day, k.model);
    EmptyBucket(vs, rows, k);
  }

  lemma AdjacentAt(groups: seq<GroupRow>, i: nat, j: nat, k: nat)
    requires Adjacent(groups) && i < j < k < |groups|
    ensures SameBucket(groups[i].key, groups[k].key) ==> SameBucket(groups[i].key, groups[j].key)
  {
  }

  lemma NewIsNotEarlier(groups: seq<GroupRow>, i: nat)
    requires Adjacent(groups) && i < |groups| && (i > 0 ==> !SameBucket(groups[i - 1].key, groups[i].key))
    ensures forall j :: 0 <= j < i ==> !SameBucket(groups[j].key, groups[i].key)
  {
    forall j | 0 <= j < i
      ensures !SameBucket(groups[j].key, groups[i].key)
    {
      if j < i - 1 {
        AdjacentAt(groups, j, i - 1, i);
      }
    }
  }

  lemma EmptyBucket(vs: seq<Version>, rows: seq<Row>, k: GroupKey)
    requires vs != []
    ensures BucketOk(vs, rows, [], UsageBucket(k.day, k.model, ZERO, NO_COST))
  {
  }

  /** One group goes into the last bucket; the others keep their parts. */
  lemma GroupFills(vs: seq<Version>, rows: seq<Row>, groups: seq<GroupRow>, i: nat, out: seq<UsageBucket>,
                   b: UsageBucket, out': seq<UsageBucket>)
    requires vs != [] && i < |groups| && Filled(vs, rows, groups[..i], out)
    requires InBucket(groups[i].key, b)
    requires BucketOk(vs, rows, Parts(groups[..i], b.day, b.model) + [Group(groups[i].key)], b)
    requires (out != [] && InBucket(groups[i].key, out[|out| - 1]) && out' == out[..|out| - 1] + [b])
             || ((forall m :: 0 <= m < |out| ==> !InBucket(groups[i].key, out[m])) && out' == out + [b])
    ensures Filled(vs, rows, groups[..i + 1], out')
  {
    hide BucketOk, Parts, HasBucket;
    var now, k := groups[..i + 1], groups[i].key;
    assert now[..i] == groups[..i] && now[i] == groups[i];
    assert b == out'[|out'| - 1];
    forall m | 0 <= m < |out'|
      ensures FromGroup(now, out'[m]) && BucketOk(vs, rows, Parts(now, out'[m].day, out'[m].model), out'[m])
    {
      PartsSnoc(groups[..i], groups[i], out'[m].day, out'[m].model);
      assert groups[..i] + [groups[i]] == now;
      if m == |out'| - 1 {
        assert InBucket(now[i].key, b);
      } else {
        assert out'[m] == out[m] && FromGroup(groups[..i], out[m]);
        var j :| 0 <= j < i && InBucket(groups[..i][j].key, out[m]);
        assert InBucket(now[j].key, out'[m]);
      }
    }
    forall j | 0 <= j < |now|
      ensures HasBucket(out', now[j].key)
    {
      StillHasBucket(out, b, out', now[j].key, k, j < i);
      assert j < i ==> now[j] == groups[..i][j];
    }
  }

  lemma StillHasBucket(out: seq<UsageBucket>, b: UsageBucket, out': seq<UsageBucket>, k: GroupKey, new_: GroupKey,
                       old_: bool)
    requires (out != [] && InBucket(new_, out[|out| - 1]) && out' == out[..|out| - 1] + [b]) || out' == out + [b]
    requires InBucket(new_, b)
    ensures (old_ && HasBucket(out, k)) || k == new_ ==> HasBucket(out', k)
  {
    assert out'[|out'| - 1] == b;
    if old_ && HasBucket(out, k) {
      var m :| 0 <= m < |out| && InBucket(k, out[m]);
      assert if m < |out'| - 1 then out'[m] == out[m] else InBucket(k, b);
    }
  }

  lemma PartsSnoc(groups: seq<GroupRow>, g: GroupRow, day: int, model: string)
    ensures Parts(groups + [g], day, model) ==
            if g.key.day == day && g.key.model == model then Parts(groups, day, model) + [Group(g.key)]
            else Parts(groups, day, model)
  {
    assert (groups + [g])[..|groups|] == groups;
  }

  /** The buckets of an aggregation: one for each day and model of a row, and only those, each showing the exact
      sums of its rows, every one priced with its own version and tier. */
  ghost predicate Aggregated(vs: seq<Version>, rows: seq<Row>, out: seq<UsageBucket>)
    requires vs != []
  {
    && OneBucketEach(out)
    && (forall i :: 0 <= i < |rows| ==> HasBucket(out, KeyOfRow(vs, rows[i])))
    && forall m :: 0 <= m < |out| ==>
         FromRow(vs, rows, out[m]) && Shows(out[m].t, out[m].cost, Sums(vs, rows, Bucket(out[m].day, out[m].model)))
  }

  ghost predicate FromRow(vs: seq<Version>, rows: seq<Row>, b: UsageBucket)
    requires vs != []
  {
    exists i :: 0 <= i < |rows| && InBucket(KeyOfRow(vs, rows[i]), b)
  }

  /** `groups` is the result of the query, which prices with the prepared versions; stepping through it may fail,
      which leaves no buckets. */
  method Aggregate(given: seq<Version>, ghost rows: seq<Row>, groups: seq<GroupRow>)
    returns (ok: bool, out: seq<UsageBucket>)
    requires Grouped(Prepared(given), rows, groups)
    ensures ok ==> Aggregated(Prepared(given), rows, out)
    ensures !ok ==> out == []
  {
    hide Grouped, Filled, BucketOk, Aggregated, InBucket, Sums, StableSort;
    var vs := Prepared(given);
    out := [];
    NothingFilled(vs, rows, groups);
    for i := 0 to |groups|
      invariant Filled(vs, rows, groups[..i], out)
    {
      var failed: bool := *;
      if failed {
        return false, [];
      }
      var g := groups[i];
      GroupIsOk(vs, rows, groups, i);
      ghost var before := out;
      var last := |out| - 1;
      if out == [] || out[last].day != g.key.day || out[last].model != g.key.model {
        NewBucketHere(vs, rows, groups, i, out);
        var b := AddGroup(vs, rows, g, UsageBucket(g.key.day, g.key.model, ZERO, NO_COST), []);
        out := out + [b];
        AppendFills(vs, rows, groups, i, before, b);
      } else {
        ghost var fs := LastBucket(vs, rows, groups, i, out);
        var b := AddGroup(vs, rows, g, out[last], fs);
        out := out[..last] + [b];
        ReplaceFills(vs, rows, groups, i, before, b, fs);
      }
    }
    assert groups[..|groups|] == groups;
    ok := true;
    FilledIsAggregated(vs, rows, groups, out);
  }

  lemma NothingFilled(vs: seq<Version>, rows: seq<Row>, groups: seq<GroupRow>)
    requires vs != []
    ensures Filled(vs, rows, groups[..0], [])
  {
  }

  lemma GroupIsOk(vs: seq<Version>, rows: seq<Row>, groups: seq<GroupRow>, i: nat)
    requires vs != [] && Grouped(vs, rows, groups) && i < |groups|
    ensures GroupOf(vs, rows, groups[i]) && groups[i].key.ver < |vs|
  {
    hide Sums, Chosen;
    var j := GroupHasRow(vs, rows, groups, i);
  }

  lemma NewBucketHere(vs: seq<Version>, rows: seq<Row>, groups: seq<GroupRow>, i: nat, out: seq<UsageBucket>)
    requires vs != [] && i < |groups| && Grouped(vs, rows, groups) && Filled(vs, rows, groups[..i], out)
    requires var k := groups[i].key; out == [] || out[|out| - 1].day != k.day || out[|out| - 1].model != k.model
    ensures var k := groups[i].key;
            && BucketOk(vs, rows, [], UsageBucket(k.day, k.model, ZERO, NO_COST))
            && Parts(groups[..i], k.day, k.model) == []
            && forall m :: 0 <= m < |out| ==> !InBucket(k, out[m])
  {
    hide Grouped, Filled, BucketOk, Sums;
    NewBucket(vs, rows, groups, i, out);
  }

  lemma AppendFills(vs: seq<Version>, rows: seq<Row>, groups: seq<GroupRow>, i: nat, out: seq<UsageBucket>,
                    b: UsageBucket)
    requires vs != [] && i < |groups| && Filled(vs, rows, groups[..i], out)
    requires var k := groups[i].key;
             && b.day == k.day && b.model == k.model && BucketOk(vs, rows, [] + [Group(k)], b)
             && Parts(groups[..i], k.day, k.model) == [] && forall m :: 0 <= m < |out| ==> !InBucket(k, out[m])
    ensures Filled(vs, rows, groups[..i + 1], out + [b])
  {
    hide Filled, BucketOk;
    GroupFills(vs, rows, groups, i, out, b, out + [b]);
  }

  lemma LastBucket(vs: seq<Version>, rows: seq<Row>, groups: seq<GroupRow>, i: nat, out: seq<UsageBucket>)
    returns (fs: seq<Filter>)
    requires vs != [] && i < |groups| && Filled(vs, rows, groups[..i], out) && out != []
    ensures fs == Parts(groups[..i], out[|out| - 1].day, out[|out| - 1].model) && BucketOk(vs, rows, fs, out[|out| - 1])
  {
    hide BucketOk, FromGroup, HasBucket;
    fs := Parts(groups[..i], out[|out| - 1].day, out[|out| - 1].model);
  }

  lemma ReplaceFills(vs: seq<Version>, rows: seq<Row>, groups: seq<GroupRow>, i: nat, out: seq<UsageBucket>,
                     b: UsageBucket, fs: seq<Filter>)
    requires vs != [] && i < |groups| && Filled(vs, rows, groups[..i], out) && out != []
    requires var k, l := groups[i].key, out[|out| - 1];
             && l.day == k.day && l.model == k.model && b.day == k.day && b.model == k.model
             && fs == Parts(groups[..i], k.day, k.model) && BucketOk(vs, rows, fs + [Group(k)], b)
    ensures Filled(vs, rows, groups[..i + 1], out[..|out| - 1] + [b])
  {
    hide Filled, BucketOk;
    GroupFills(vs, rows, groups, i, out, b, out[..|out| - 1] + [b]);
  }

  lemma FilledIsAggregated(vs: seq<Version>, rows: seq<Row>, groups: seq<GroupRow>, out: seq<UsageBucket>)
    requires vs != [] && Grouped(vs, rows, groups) && Filled(vs, rows, groups, out)
    ensures Aggregated(vs, rows, out)
  {
    hide Sums, SumsOver, Parts, KeyOfRow, Grouped, HasBucket, InBucket, Shows;
    forall i | 0 <= i < |rows|
      ensures HasBucket(out, KeyOfRow(vs, rows[i]))
    {
      var j := RowHasGroup(vs, rows, groups, i);
      assert HasBucket(out, groups[j].key);
    }
    forall m | 0 <= m < |out|
      ensures FromRow(vs, rows, out[m])
      ensures Shows(out[m].t, out[m].cost, Sums(vs, rows, Bucket(out[m].day, out[m].model)))
    {
      assert FromGroup(groups, out[m]);
      var j :| 0 <= j < |groups| && InBucket(groups[j].key, out[m]);
      var i := GroupHasRow(vs, rows, groups, j);
      assert InBucket(KeyOfRow(vs, rows[i]), out[m]);
      assert BucketOk(vs, rows, Parts(groups, out[m].day, out[m].model), out[m]);
      PartsOfBucket(vs, rows, groups, out[m].day, out[m].model);
    }
  }

  lemma RowHasGroup(vs: seq<Version>, rows: seq<Row>, groups: seq<GroupRow>, m: nat) returns (i: nat)
    requires vs != [] && Grouped(vs, rows, groups) && m < |rows|
    ensures i < |groups| && groups[i].key == KeyOfRow(vs, rows[m])
  {
    hide KeyOfRow, GroupOf, Adjacent;
    assert HasGroup(vs, rows[m], groups);
    i :| 0 <= i < |groups| && groups[i].key == KeyOfRow(vs, rows[m]);
  }

  lemma GroupHasRow(vs: seq<Version>, rows: seq<Row>, groups: seq<GroupRow>, i: nat) returns (m: nat)
    requires vs != [] && Grouped(vs, rows, groups) && i < |groups|
    ensures m < |rows| && KeyOfRow(vs, rows[m]) == groups[i].key
  {
    hide KeyOfRow, HasGroup, Adjacent, Sums;
    assert GroupOf(vs, rows, groups[i]);
    m :| 0 <= m < |rows| && KeyOfRow(vs, rows[m]) == groups[i].key;
  }

  // ---- Totals --------------------------------------------------------------------------------

  function BucketFilters(out: seq<UsageBucket>): seq<Filter> {
    seq(|out|, i requires 0 <= i < |out| => Bucket(out[i].day, out[i].model))
  }

  /** The totals over all buckets show the exact sums over all rows. */
  method Sum(vs: seq<Version>, rows: seq<Row>, out: seq<UsageBucket>) returns (t: Totals, cost: Money)
    requires vs != [] && Aggregated(vs, rows, out)
    ensures Shows(t, cost, Sums(vs, rows, Everything))
  {
    hide Sums, SumsOver, OneBucketEach, HasBucket, InBucket, BucketFilters, KeyOfRow;
    t, cost := ZERO, NO_COST;
    BucketFiltersFacts(out);
    NoFilters(vs, rows);
    ghost var fs := BucketFilters(out);
    for i := 0 to |out|
      invariant Shows(t, cost, SumsOver(vs, rows, fs[..i]))
    {
      var b := out[i];
      t := Added(t, b.t);
      SumsOverSnoc(vs, rows, fs[..i], fs[i]);
      assert fs[..i] + [fs[i]] == fs[..i + 1];
      var sum := AddChecked(cost.nano, b.cost.nano, cost.overflow);
      cost := Money(sum.nano, sum.overflow || b.cost.overflow);
    }
    assert fs[..|out|] == fs;
    BucketsPartition(vs, rows, out);
    PartsAddUp(vs, rows, Everything, fs);
  }

  lemma NoFilters(vs: seq<Version>, rows: seq<Row>)
    requires vs != []
    ensures Shows(ZERO, NO_COST, SumsOver(vs, rows, []))
  {
  }

  lemma BucketFiltersFacts(out: seq<UsageBucket>)
    ensures |BucketFilters(out)| == |out|
    ensures forall i :: 0 <= i < |out| ==> BucketFilters(out)[i] == Bucket(out[i].day, out[i].model)
  {
  }

  lemma BucketsPartition(vs: seq<Version>, rows: seq<Row>, out: seq<UsageBucket>)
    requires vs != [] && Aggregated(vs, rows, out)
    ensures Partition(vs, rows, Everything, BucketFilters(out))
  {
    hide Sums, Shows, BucketFilters, Chosen, Tier, FromRow;
    BucketFiltersFacts(out);
    var fs := BucketFilters(out);
    forall i | 0 <= i < |rows|
      ensures InOneOf(vs, rows[i], Everything, fs)
    {
      assert HasBucket(out, KeyOfRow(vs, rows[i]));
      var m :| 0 <= m < |out| && InBucket(KeyOfRow(vs, rows[i]), out[m]);
      assert Matches(vs, fs[m], rows[i]);
    }
  }

  // ---- No wrap-around ------------------------------------------------------------------------

  predicate AtMost(t: Totals, most: int) {
    && t.messages <= most && t.input <= most && t.output <= most && t.cacheRead <= most && t.cacheWrite5m <= most
    && t.cacheWrite1h <= most && t.webSearch <= most && t.unpriced <= most
  }

  /** The unchecked message and token sums cannot leave 64 bits for fewer than nine thousand million rows. */
  lemma {:induction false} SumsFit(vs: seq<Version>, rows: seq<Row>, f: Filter)
    requires vs != []
    ensures AtMost(Sums(vs, rows, f), |rows| * MAX_TOKENS)
    ensures |rows| <= 9223372036 ==> AtMost(Sums(vs, rows, f), INT64_MAX)
  {
    hide Matches, RowRates;
    if rows != [] {
      SumsFit(vs, rows[..|rows| - 1], f);
    }
  }
}

/** Which prompts pay a model's upper rates: small ones cost what they would without them, large ones what they would
    if the upper rates were the only ones and there were no fast ones. */
module TierPricing {
  import opened UsageStore
  import opened PriceVersions
  import opened Costing

  // ---- Other catalogs ------------------------------------------------------------------------

  /** The same versions with every model's prices changed. */
  ghost function Repriced(vs: seq<Version>, f: ModelPrice -> ModelPrice): (us: seq<Version>)
    ensures |us| == |vs|
  {
    seq(|vs|, i requires 0 <= i < |vs| => RepricedVersion(vs[i], f))
  }

  ghost function RepricedVersion(v: Version, f: ModelPrice -> ModelPrice): Version {
    Version(v.effectiveFrom, map id | id in v.models :: f(v.models[id]))
  }

  /** A model without upper rates. */
  ghost function Flat(): ModelPrice -> ModelPrice {
    (m: ModelPrice) => m.(upper := None)
  }

  /** A model whose upper rates apply from the first token on: no message is fast. */
  ghost function Lifted(): ModelPrice -> ModelPrice {
    (m: ModelPrice) => if m.upper.Some? then m.(standard := m.upper.value, upper := None, hasFast := false) else m
  }

  lemma {:induction false} SameChosen(vs: seq<Version>, f: ModelPrice -> ModelPrice, ts: int)
    requires vs != []
    ensures Chosen(Repriced(vs, f), ts) == Chosen(vs, ts)
  {
    var us, n := Repriced(vs, f), |vs| - 1;
    if n > 0 && vs[n].effectiveFrom > ts {
      SameChosen(vs[..n], f, ts);
      assert us[..n] == Repriced(vs[..n], f);
    }
  }

  lemma SameResolved(v: Version, f: ModelPrice -> ModelPrice, model: string)
    ensures Resolve(RepricedVersion(v, f).models, model) == Resolve(v.models, model)
  {
    assert RepricedVersion(v, f).models.Keys == v.models.Keys;
  }

  lemma {:induction false} InsertRepriced(vs: seq<Version>, v: Version, f: ModelPrice -> ModelPrice)
    ensures Insert(Repriced(vs, f), RepricedVersion(v, f)) == Repriced(Insert(vs, v), f)
  {
    hide RepricedVersion;
    RepricedTimes(v, f);
    var n := |vs| - 1;
    if vs == [] {
      assert Repriced([v], f) == [RepricedVersion(v, f)];
    } else {
      RepricedTimes(vs[n], f);
      if vs[n].effectiveFrom <= v.effectiveFrom {
        assert Repriced(vs + [v], f) == Repriced(vs, f) + [RepricedVersion(v, f)];
      } else {
        InsertRepriced(vs[..n], v, f);
        assert Repriced(vs, f)[..n] == Repriced(vs[..n], f);
        assert Repriced(Insert(vs[..n], v) + [vs[n]], f) ==
               Repriced(Insert(vs[..n], v), f) + [RepricedVersion(vs[n], f)];
      }
    }
  }

  lemma RepricedTimes(v: Version, f: ModelPrice -> ModelPrice)
    ensures RepricedVersion(v, f).effectiveFrom == v.effectiveFrom
  {
  }

  lemma {:induction false} SortRepriced(vs: seq<Version>, f: ModelPrice -> ModelPrice)
    ensures StableSort(Repriced(vs, f)) == Repriced(StableSort(vs), f)
  {
    var n := |vs| - 1;
    if vs == [] {
      assert Repriced(vs, f) == [];
    } else {
      SortRepriced(vs[..n], f);
      assert Repriced(vs, f)[..n] == Repriced(vs[..n], f);
      InsertRepriced(StableSort(vs[..n]), vs[n], f);
    }
  }

  lemma PreparedRepriced(given: seq<Version>, f: ModelPrice -> ModelPrice)
    ensures Prepared(Repriced(given, f)) == Repriced(Prepared(given), f)
  {
    var none := [Version(0, map[])];
    assert Repriced(none, f) == none;
    SortRepriced(given, f);
    SortRepriced(none, f);
    assert given == [] ==> Repriced(given, f) == [];
  }

  // ---- One message ---------------------------------------------------------------------------

  /** The catalog entry a message is priced with. */
  ghost function EntryOf(vs: seq<Version>, r: Row): Option<ModelPrice>
    requires vs != []
  {
    var models := vs[Chosen(vs, r.timestamp)].models;
    var id := Resolve(models, r.model);
    if id == "" then None else Some(models[id])
  }

  /** The message's prompt, every token of it counted once: input, cache reads and both kinds of cache writes. */
  ghost function PromptTokens(r: Row): int {
    r.input + r.cacheRead + r.cacheWrite5m + r.cacheWrite1h
  }

  /** No upper rates apply: the model has none, sets no threshold, or the prompt does not exceed it. */
  ghost predicate Small(vs: seq<Version>, r: Row)
    requires vs != []
  {
    EntryOf(vs, r).Some? ==>
      var m := EntryOf(vs, r).value;
      m.upper.None? || m.threshold <= 0 || PromptTokens(r) <= m.threshold
  }

  /** The model's only rates are flat ones, or the prompt exceeds the threshold it sets. */
  ghost predicate Large(vs: seq<Version>, r: Row)
    requires vs != []
  {
    EntryOf(vs, r).Some? ==>
      var m := EntryOf(vs, r).value;
      m.upper.None? || 0 < m.threshold < PromptTokens(r)
  }

  lemma RepricedEntry(vs: seq<Version>, f: ModelPrice -> ModelPrice, r: Row)
    requires vs != []
    ensures var us := Repriced(vs, f);
            EntryOf(us, r) == if EntryOf(vs, r).Some? then Some(f(EntryOf(vs, r).value)) else None
    ensures RowRates(vs, r) == if EntryOf(vs, r).Some? then RatesOf(EntryOf(vs, r).value, r.fast, Prompt(r)) else None
  {
    hide RatesOf;
    SameChosen(vs, f, r.timestamp);
    SameResolved(vs[Chosen(vs, r.timestamp)], f, r.model);
  }

  /** A small prompt costs what it would in a catalog without upper rates. */
  lemma SmallPaysStandard(vs: seq<Version>, r: Row)
    requires vs != [] && Small(vs, r)
    ensures RowRates(vs, r) == RowRates(Repriced(vs, Flat()), r)
  {
    hide EntryOf, Chosen, RowRates, Repriced;
    RepricedEntry(vs, Flat(), r);
    RepricedEntry(Repriced(vs, Flat()), Flat(), r);
  }

  /** A large prompt costs what it would if the upper rates were the model's standard ones and it had no fast ones. */
  lemma LargePaysUpper(vs: seq<Version>, r: Row)
    requires vs != [] && Large(vs, r)
    ensures RowRates(vs, r) == RowRates(Repriced(vs, Lifted()), r)
  {
    hide EntryOf, Chosen, RowRates, Repriced;
    RepricedEntry(vs, Lifted(), r);
    RepricedEntry(Repriced(vs, Lifted()), Lifted(), r);
  }

  // ---- Whole aggregations --------------------------------------------------------------------

  lemma {:induction false} SameSums(vs: seq<Version>, us: seq<Version>, rows: seq<Row>, f: Filter)
    requires vs != [] && us != [] && !f.Group?
    requires forall i :: 0 <= i < |rows| ==> RowRates(vs, rows[i]) == RowRates(us, rows[i])
    ensures Sums(vs, rows, f) == Sums(us, rows, f)
  {
    hide RowRates, Price, KeyOfRow, Plus;
    if rows != [] {
      SameSums(vs, us, rows[..|rows| - 1], f);
    }
  }

  lemma SameBuckets(vs: seq<Version>, us: seq<Version>, rows: seq<Row>, out: seq<UsageBucket>)
    requires vs != [] && us != []
    requires forall i :: 0 <= i < |rows| ==> RowRates(vs, rows[i]) == RowRates(us, rows[i])
    requires Aggregated(vs, rows, out)
    ensures Aggregated(us, rows, out)
  {
    hide RowRates, Sums, KeyOfRow, OneBucketEach, Shows, HasBucket, InBucket;
    forall i | 0 <= i < |rows|
      ensures HasBucket(out, KeyOfRow(us, rows[i]))
    {
      SamePlace(vs, us, rows[i], out);
      assert HasBucket(out, KeyOfRow(vs, rows[i]));
    }
    forall m | 0 <= m < |out|
      ensures FromRow(us, rows, out[m])
      ensures Shows(out[m].t, out[m].cost, Sums(us, rows, Bucket(out[m].day, out[m].model)))
    {
      SameSums(vs, us, rows, Bucket(out[m].day, out[m].model));
      assert FromRow(vs, rows, out[m]);
      var i :| 0 <= i < |rows| && InBucket(KeyOfRow(vs, rows[i]), out[m]);
      SamePlace(vs, us, rows[i], out);
    }
  }

  lemma SamePlace(vs: seq<Version>, us: seq<Version>, r: Row, out: seq<UsageBucket>)
    requires vs != [] && us != []
    ensures HasBucket(out, KeyOfRow(vs, r)) <==> HasBucket(out, KeyOfRow(us, r))
    ensures forall m :: 0 <= m < |out| ==> (InBucket(KeyOfRow(vs, r), out[m]) <==> InBucket(KeyOfRow(us, r), out[m]))
  {
    hide Chosen, Tier;
  }

  /** If no prompt exceeds its model's threshold, the buckets are those of the catalog without upper rates. */
  lemma SmallPromptsPayStandard(given: seq<Version>, rows: seq<Row>, out: seq<UsageBucket>)
    requires forall i :: 0 <= i < |rows| ==> Small(Prepared(given), rows[i])
    ensures Aggregated(Prepared(given), rows, out) <==> Aggregated(Prepared(Repriced(given, Flat())), rows, out)
  {
    hide Aggregated, Small, RowRates, Repriced, StableSort;
    var vs, us := Prepared(given), Prepared(Repriced(given, Flat()));
    PreparedRepriced(given, Flat());
    forall i | 0 <= i < |rows|
      ensures RowRates(vs, rows[i]) == RowRates(us, rows[i])
    {
      SmallPaysStandard(vs, rows[i]);
    }
    if Aggregated(vs, rows, out) {
      SameBuckets(vs, us, rows, out);
    }
    if Aggregated(us, rows, out) {
      SameBuckets(us, vs, rows, out);
    }
  }

  /** If every prompt exceeds a positive threshold wherever there are upper rates, the buckets are those of the catalog
      with the upper rates as standard ones and their fast messages unpriced. */
  lemma LargePromptsPayUpper(given: seq<Version>, rows: seq<Row>, out: seq<UsageBucket>)
    requires forall i :: 0 <= i < |rows| ==> Large(Prepared(given), rows[i])
    ensures Aggregated(Prepared(given), rows, out) <==> Aggregated(Prepared(Repriced(given, Lifted())), rows, out)
  {
    hide Aggregated, Large, RowRates, Repriced, StableSort;
    var vs, us := Prepared(given), Prepared(Repriced(given, Lifted()));
    PreparedRepriced(given, Lifted());
    forall i | 0 <= i < |rows|
      ensures RowRates(vs, rows[i]) == RowRates(us, rows[i])
    {
      LargePaysUpper(vs, rows[i]);
    }
    if Aggregated(vs, rows, out) {
      SameBuckets(vs, us, rows, out);
    }
    if Aggregated(us, rows, out) {
      SameBuckets(us, vs, rows, out);
    }
  }

  /** In a catalog without upper rates a message pays the fast rates if it is fast and the standard ones if not, and
      is unpriced exactly if the catalog has no such entry. */
  lemma FlatRates(vs: seq<Version>, r: Row)
    requires vs != [] && (EntryOf(vs, r).Some? ==> EntryOf(vs, r).value.upper.None?)
    ensures RowRates(vs, r) ==
            match EntryOf(vs, r)
            case None => None
            case Some(m) => if !r.fast then Some(m.standard) else if m.hasFast then Some(m.fast) else None
  {
  }

  /** The prompt grows one for one with each of its four parts. */
  lemma PromptGrows(r: Row, s: Row)
    ensures Prompt(s) - Prompt(r) ==
            (s.input - r.input) + (s.cacheRead - r.cacheRead) + (s.cacheWrite5m - r.cacheWrite5m)
              + (s.cacheWrite1h - r.cacheWrite1h)
    ensures r.input == r.cacheRead == r.cacheWrite5m == r.cacheWrite1h == 0 ==> Prompt(r) == 0
  {
  }
}

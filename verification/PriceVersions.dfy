/** Which price version and which rates apply to a message. */
module PriceVersions {

  datatype Rates = Rates(input: nat, write5m: nat, write1h: nat, read: nat, output: nat)

  datatype Option<T> = None | Some(value: T)

  /** `upper` holds the rates of prompts over `threshold`; a flat-priced model has none. */
  datatype ModelPrice = ModelPrice(standard: Rates, hasFast: bool, fast: Rates, threshold: int, upper: Option<Rates>)

  type Models = map<string, ModelPrice>

  datatype Version = Version(effectiveFrom: int, models: Models)

  // ---- Versions ------------------------------------------------------------------------------

  predicate Sorted(vs: seq<Version>) {
    forall i, j :: 0 <= i < j < |vs| ==> vs[i].effectiveFrom <= vs[j].effectiveFrom
  }

  /** Keeps the order of versions that take effect at the same time. */
  function Insert(vs: seq<Version>, v: Version): seq<Version> {
    var n := |vs| - 1;
    if vs == [] || vs[n].effectiveFrom <= v.effectiveFrom then vs + [v] else Insert(vs[..n], v) + [vs[n]]
  }

  function StableSort(vs: seq<Version>): (r: seq<Version>)
    ensures |r| == |vs|
  {
    if vs == [] then [] else
      InsertLength(StableSort(vs[..|vs| - 1]), vs[|vs| - 1]);
      Insert(StableSort(vs[..|vs| - 1]), vs[|vs| - 1])
  }

  lemma {:induction false} InsertLength(vs: seq<Version>, v: Version)
    ensures |Insert(vs, v)| == |vs| + 1
    ensures forall i :: 0 <= i < |vs| + 1 ==> Insert(vs, v)[i] == v || Insert(vs, v)[i] in vs
  {
    var n := |vs| - 1;
    if vs != [] && vs[n].effectiveFrom > v.effectiveFrom {
      InsertLength(vs[..n], v);
    }
  }

  lemma {:induction false} InsertSorted(vs: seq<Version>, v: Version)
    requires Sorted(vs)
    ensures Sorted(Insert(vs, v))
  {
    var n := |vs| - 1;
    if vs != [] && vs[n].effectiveFrom > v.effectiveFrom {
      InsertSorted(vs[..n], v);
      InsertLength(vs[..n], v);
    }
  }

  lemma {:induction false} StableSortSorted(vs: seq<Version>)
    ensures Sorted(StableSort(vs))
  {
    if vs != [] {
      StableSortSorted(vs[..|vs| - 1]);
      InsertSorted(StableSort(vs[..|vs| - 1]), vs[|vs| - 1]);
    }
  }

  /** The last listed version that is not after `ts`. */
  function LastNotAfter(vs: seq<Version>, ts: int): Option<Version> {
    if vs == [] then None
    else
      var v := vs[|vs| - 1];
      if v.effectiveFrom <= ts then Some(v) else LastNotAfter(vs[..|vs| - 1], ts)
  }

  /** The better of a candidate and a later-listed version. */
  function Later(u: Option<Version>, v: Version, ts: int): Option<Version> {
    if v.effectiveFrom <= ts && (u.None? || u.value.effectiveFrom <= v.effectiveFrom) then Some(v) else u
  }

  /** The version in force at `ts`: not after it, and no other such version takes effect later; of several that
      take effect together, the last one given. */
  function InForce(vs: seq<Version>, ts: int): Option<Version> {
    if vs == [] then None else Later(InForce(vs[..|vs| - 1], ts), vs[|vs| - 1], ts)
  }

  lemma {:induction false} InForceIsLatest(vs: seq<Version>, ts: int)
    ensures InForce(vs, ts).None? <==> forall i :: 0 <= i < |vs| ==> vs[i].effectiveFrom > ts
    ensures InForce(vs, ts).Some? ==>
              && InForce(vs, ts).value in vs && InForce(vs, ts).value.effectiveFrom <= ts
              && forall i :: 0 <= i < |vs| && vs[i].effectiveFrom <= ts ==>
                vs[i].effectiveFrom <= InForce(vs, ts).value.effectiveFrom
  {
    if vs != [] {
      var n := |vs| - 1;
      InForceIsLatest(vs[..n], ts);
      assert forall i :: 0 <= i < n ==> vs[..n][i] == vs[i];
      assert vs[n] in vs && forall v :: v in vs[..n] ==> v in vs;
    }
  }

  lemma {:induction false} LastOfInsert(vs: seq<Version>, v: Version, ts: int)
    requires Sorted(vs)
    ensures LastNotAfter(Insert(vs, v), ts) == Later(LastNotAfter(vs, ts), v, ts)
  {
    var n := |vs| - 1;
    if vs == [] || vs[n].effectiveFrom <= v.effectiveFrom {
      assert (vs + [v])[..|vs|] == vs;
      LastIsListed(vs, ts);
    } else {
      LastOfInsert(vs[..n], v, ts);
      assert (Insert(vs[..n], v) + [vs[n]])[..|Insert(vs[..n], v)|] == Insert(vs[..n], v);
    }
  }

  lemma {:induction false} LastIsListed(vs: seq<Version>, ts: int)
    requires Sorted(vs)
    ensures LastNotAfter(vs, ts).Some? ==>
              vs != [] && LastNotAfter(vs, ts).value.effectiveFrom <= vs[|vs| - 1].effectiveFrom
  {
    if vs != [] {
      LastIsListed(vs[..|vs| - 1], ts);
    }
  }

  /** Sorting does not change which version is in force. */
  lemma {:induction false} SortKeepsInForce(vs: seq<Version>, ts: int)
    ensures LastNotAfter(StableSort(vs), ts) == InForce(vs, ts)
  {
    if vs != [] {
      var n := |vs| - 1;
      SortKeepsInForce(vs[..n], ts);
      StableSortSorted(vs[..n]);
      LastOfInsert(StableSort(vs[..n]), vs[n], ts);
    }
  }

  /** What the store sorts; without versions, one that prices nothing. */
  function Prepared(given: seq<Version>): (vs: seq<Version>)
    ensures vs != []
  {
    StableSort(if given == [] then [Version(0, map[])] else given)
  }

  /** The position of the version a message is priced with; the first one when all are later. */
  function Chosen(vs: seq<Version>, ts: int): (i: nat)
    requires vs != []
    ensures i < |vs|
  {
    if |vs| == 1 || vs[|vs| - 1].effectiveFrom <= ts then |vs| - 1 else Chosen(vs[..|vs| - 1], ts)
  }

  method PriceVersion(vs: seq<Version>, ts: int) returns (chosen: nat)
    requires vs != []
    ensures chosen == Chosen(vs, ts)
  {
    chosen := 0;
    for i := 0 to |vs|
      invariant chosen < |vs| && chosen == if i == 0 then 0 else Chosen(vs[..i], ts)
    {
      assert vs[..i + 1][..i] == vs[..i];
      if vs[i].effectiveFrom <= ts {
        chosen := i;
      }
    }
    assert vs[..|vs|] == vs;
  }

  /** A message is priced with the version in force at its time, and with the first version if it is older
      than all of them. */
  lemma {:induction false} ChosenInForce(vs: seq<Version>, ts: int)
    requires vs != []
    ensures vs[Chosen(vs, ts)] == if LastNotAfter(vs, ts).Some? then LastNotAfter(vs, ts).value else vs[0]
  {
    if |vs| > 1 && vs[|vs| - 1].effectiveFrom > ts {
      ChosenInForce(vs[..|vs| - 1], ts);
    } else if |vs| == 1 {
      assert vs[..0] == [];
    }
  }

  lemma PricedInForce(given: seq<Version>, ts: int)
    requires given != []
    ensures var vs := Prepared(given);
            && (InForce(given, ts).Some? ==> vs[Chosen(vs, ts)] == InForce(given, ts).value)
            && (InForce(given, ts).None? ==> vs[Chosen(vs, ts)] == vs[0] && forall i :: 0 <= i < |vs| ==>
                  vs[0].effectiveFrom <= vs[i].effectiveFrom)
  {
    hide Chosen, StableSort, InForce, LastNotAfter;
    StableSortSorted(given);
    SortKeepsInForce(given, ts);
    ChosenInForce(Prepared(given), ts);
  }

  // ---- Rates ---------------------------------------------------------------------------------

  predicate Digits(s: string) {
    forall i :: 0 <= i < |s| ==> '0' <= s[i] <= '9'
  }

  /** A name is another one with a date suffix: a dash and eight digits. */
  predicate Dates(model: string, name: string) {
    && |model| == |name| + 9 && model[..|name|] == name && model[|name|] == '-'
    && forall k :: |name| < k < |model| ==> '0' <= model[k] <= '9'
  }

  /** The catalog entry of a model: its own, or that of the name it dates; "" when there is neither. */
  function Resolve(models: Models, model: string): (id: string)
    ensures model in models ==> id == model
    ensures model !in models && id != "" ==> id in models && Dates(model, id)
    ensures model !in models && id == "" ==> forall name :: name in models && name != "" ==> !Dates(model, name)
  {
    var n := |model| - 9;
    if model in models then model
    else if n > 0 && model[n] == '-' && Digits(model[n + 1..]) && model[..n] in models then model[..n]
    else ""
  }

  predicate OverThreshold(m: ModelPrice, prompt: int) {
    m.upper.Some? && m.threshold > 0 && prompt > m.threshold
  }

  /** The store's tier of a model and prompt in version `ver`: 1 for the upper rates. */
  function Tier(vs: seq<Version>, model: string, prompt: int, ver: nat): nat {
    if ver < |vs| then
      var id := Resolve(vs[ver].models, model);
      if id != "" && OverThreshold(vs[ver].models[id], prompt) then 1 else 0
    else 0
  }

  /** The rates of one message, if it can be priced: a fast message of an upper tier cannot. */
  function RatesOf(m: ModelPrice, fast: bool, prompt: int): Option<Rates> {
    var over := OverThreshold(m, prompt);
    if fast then (if over || !m.hasFast then None else Some(m.fast))
    else if over then m.upper
    else Some(m.standard)
  }
}

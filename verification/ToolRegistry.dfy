/** The registry of tools offered by clients, and its cache of the best provider of every name. */
module ToolRegistry {

  /** `info` stands for the description, schema and device fields, which are copied along. */
  datatype Tool = Tool(name: string, score: int, clientId: int, info: string)

  type Offers = map<int, seq<Tool>>

  // ---- Candidates ----------------------------------------------------------------------------

  /** Tool `i` of client `c` offers `name`. */
  predicate Offer(offers: Offers, name: string, c: int, i: int) {
    c in offers && 0 <= i < |offers[c]| && offers[c][i].name == name
  }

  ghost predicate Offered(offers: Offers, name: string) {
    exists c, i :: Offer(offers, name, c, i)
  }

  /** Beats by score, then by client id. */
  predicate Better(a: Tool, b: Tool) {
    a.score > b.score || (a.score == b.score && a.clientId > b.clientId)
  }

  /** Tool `i` of client `c` is the best offer of a name, and the first such in its client's list. */
  ghost predicate Best(offers: Offers, name: string, c: int, i: int) {
    && Offer(offers, name, c, i)
    && forall d, j :: Offer(offers, name, d, j) ==>
      !Better(offers[d][j], offers[c][i]) && (d == c && j < i ==> Better(offers[c][i], offers[d][j]))
  }

  ghost predicate IsBest(offers: Offers, name: string, t: Tool) {
    exists c, i :: Best(offers, name, c, i) && offers[c][i] == t
  }

  /** Every client's tools carry its id. */
  ghost predicate Owned(offers: Offers) {
    forall c, i :: c in offers && 0 <= i < |offers[c]| ==> offers[c][i].clientId == c
  }

  ghost predicate CachedName(offers: Offers, cache: map<string, Tool>, name: string) {
    && (name in cache <==> Offered(offers, name))
    && (name in cache ==> IsBest(offers, name, cache[name]))
  }

  /** The cache maps exactly the offered names, each to its best offer. */
  ghost predicate Cached(offers: Offers, cache: map<string, Tool>) {
    forall name :: CachedName(offers, cache, name)
  }

  /** There is only one best offer of a name, so the cache is determined by the offers. */
  lemma BestIsUnique(offers: Offers, name: string, t: Tool, u: Tool)
    requires Owned(offers) && IsBest(offers, name, t) && IsBest(offers, name, u)
    ensures t == u
  {
    var c, i :| Best(offers, name, c, i) && offers[c][i] == t;
    var d, j :| Best(offers, name, d, j) && offers[d][j] == u;
    assert Offer(offers, name, c, i) && Offer(offers, name, d, j);
  }

  lemma CacheIsDetermined(offers: Offers, cache: map<string, Tool>, cache': map<string, Tool>)
    requires Owned(offers) && Cached(offers, cache) && Cached(offers, cache')
    ensures cache == cache'
  {
    hide IsBest, Offered, Owned;
    forall name
      ensures name in cache <==> name in cache'
      ensures name in cache && name in cache' ==> cache[name] == cache'[name]
    {
      assert CachedName(offers, cache, name) && CachedName(offers, cache', name);
      if name in cache {
        BestIsUnique(offers, name, cache[name], cache'[name]);
      }
    }
  }

  /** A name whose offers did not change keeps its place in the cache. */
  lemma UntouchedName(offers: Offers, offers': Offers, cache: map<string, Tool>, name: string)
    requires CachedName(offers, cache, name)
    requires forall c, i :: Offer(offers', name, c, i) ==> Offer(offers, name, c, i)
    requires forall c, i :: Offer(offers, name, c, i) ==> Offer(offers', name, c, i) && offers'[c][i] == offers[c][i]
    ensures CachedName(offers', cache, name)
  {
    if name in cache {
      var c, i :| Best(offers, name, c, i) && offers[c][i] == cache[name];
      assert Best(offers', name, c, i);
    }
    if c, i :| Offer(offers', name, c, i) {
      assert Offer(offers, name, c, i);
    }
    if c, i :| Offer(offers, name, c, i) {
      assert Offer(offers', name, c, i);
    }
  }

  // ---- Looking for the best offer ------------------------------------------------------------

  /** Tool `i` of client `c` has been looked at: all tools of the clients in `done`, and the first `n` of `at`. */
  predicate Seen(done: set<int>, at: int, n: int, c: int, i: int) {
    c in done || (c == at && i < n)
  }

  /** The best offer among those looked at, if there is one. */
  ghost predicate BestSeen(offers: Offers, name: string, done: set<int>, at: int, n: int, found: bool, c: int, i: int) {
    && (found ==> Offer(offers, name, c, i) && Seen(done, at, n, c, i))
    && (forall d, j :: Offer(offers, name, d, j) && Seen(done, at, n, d, j) ==> found && NotBeaten(offers, c, i, d, j))
  }

  ghost predicate NotBeaten(offers: Offers, c: int, i: int, d: int, j: int) {
    c in offers && 0 <= i < |offers[c]| && d in offers && 0 <= j < |offers[d]|
    && !Better(offers[d][j], offers[c][i]) && (d == c && j < i ==> Better(offers[c][i], offers[d][j]))
  }

  lemma LookAtNext(offers: Offers, name: string, done: set<int>, at: int, n: nat, found: bool, c: int, i: int)
    requires Owned(offers) && at in offers && at !in done && n < |offers[at]|
    requires BestSeen(offers, name, done, at, n, found, c, i)
    ensures var t := offers[at][n];
            var take := t.name == name && (!found || Better(t, offers[c][i]));
            BestSeen(offers, name, done, at, n + 1, found || take, if take then at else c, if take then n else i)
  {
  }

  lemma ClientDone(offers: Offers, name: string, done: set<int>, at: int, found: bool, c: int, i: int)
    requires at in offers && BestSeen(offers, name, done, at, |offers[at]|, found, c, i)
    ensures forall k :: BestSeen(offers, name, done + {at}, k, 0, found, c, i)
  {
  }

  lemma NextClient(offers: Offers, name: string, done: set<int>, at: int, k: int, found: bool, c: int, i: int)
    requires BestSeen(offers, name, done, at, 0, found, c, i)
    ensures BestSeen(offers, name, done, k, 0, found, c, i)
  {
  }

  lemma AllSeen(offers: Offers, name: string, at: int, found: bool, c: int, i: int)
    requires BestSeen(offers, name, offers.Keys, at, 0, found, c, i)
    ensures found <==> Offered(offers, name)
    ensures found ==> Best(offers, name, c, i)
  {
  }

  /** The clients are looked at in some order; the result does not depend on it. */
  method AnyOf<T(==)>(ids: set<T>) returns (d: T)
    requires ids != {}
    ensures d in ids
  {
    d :| d in ids;
  }

  // ---- The registry --------------------------------------------------------------------------

  class Registry {
    var offers: Offers
    var tools: map<string, Tool>

    ghost predicate Valid()
      reads this
    {
      Owned(offers) && Cached(offers, tools)
    }

    constructor ()
      ensures Valid() && offers == map[] && tools == map[]
    {
      offers, tools := map[], map[];
    }

    method FindBest(name: string) returns (found: bool, c: int, i: int)
      requires Owned(offers)
      ensures found <==> Offered(offers, name)
      ensures found ==> Best(offers, name, c, i)
    {
      hide Offered, BestSeen, Best, Owned, Offer;
      found, c, i := false, 0, 0;
      var todo := offers.Keys;
      ghost var done: set<int> := {};
      NothingSeen(offers, name);
      while todo != {}
        invariant done + todo == offers.Keys && done !! todo
        invariant BestSeen(offers, name, done, 0, 0, found, c, i)
        invariant found ==> c in offers && 0 <= i < |offers[c]|
        decreases |todo|
      {
        var d := AnyOf(todo);
        NextClient(offers, name, done, 0, d, found, c, i);
        for j := 0 to |offers[d]|
          invariant BestSeen(offers, name, done, d, j, found, c, i)
          invariant found ==> c in offers && 0 <= i < |offers[c]|
        {
          LookAtNext(offers, name, done, d, j, found, c, i);
          var t := offers[d][j];
          if t.name == name {
            if !found {
              found, c, i := true, d, j;
            } else if t.score > offers[c][i].score {
              c, i := d, j;
            } else if t.score == offers[c][i].score && t.clientId > offers[c][i].clientId {
              c, i := d, j;
            }
          }
        }
        ClientDone(offers, name, done, d, found, c, i);
        todo := todo - {d};
        done := done + {d};
      }
      assert done == offers.Keys;
      AllSeen(offers, name, 0, found, c, i);
    }

    lemma NothingSeen(offers: Offers, name: string)
      ensures BestSeen(offers, name, {}, 0, 0, false, 0, 0)
    {
    }

    method Recompute(name: string)
      requires Owned(offers)
      modifies this`tools
      ensures CachedName(offers, tools, name)
      ensures forall other :: other != name ==> (other in tools <==> other in old(tools))
      ensures forall other :: other != name && other in tools ==> tools[other] == old(tools)[other]
    {
      hide Owned, Offered;
      var found, c, i := FindBest(name);
      if found {
        BestOffer(offers, name, c, i);
        tools := tools[name := offers[c][i]];
      } else {
        tools := tools - {name};
      }
    }

    lemma BestOffer(offers: Offers, name: string, c: int, i: int)
      requires Best(offers, name, c, i)
      ensures Offer(offers, name, c, i) && IsBest(offers, name, offers[c][i])
    {
    }

    /** Recomputes the names one after the other; afterwards they are right too. */
    method RecomputeAll(names: seq<string>)
      requires Owned(offers)
      requires forall name :: name !in names ==> CachedName(offers, tools, name)
      modifies this`tools
      ensures Valid()
    {
      hide Owned, CachedName;
      for i := 0 to |names|
        invariant forall name :: name !in names[i..] ==> CachedName(offers, tools, name)
      {
        ghost var before := tools;
        assert names[i..] == [names[i]] + names[i + 1..];
        Recompute(names[i]);
        forall name | name !in names[i + 1..]
          ensures CachedName(offers, tools, name)
        {
          if name != names[i] {
            SameEntry(offers, before, tools, name);
          }
        }
      }
    }

    lemma SameEntry(offers: Offers, cache: map<string, Tool>, cache': map<string, Tool>, name: string)
      requires CachedName(offers, cache, name) && (name in cache' <==> name in cache)
      requires name in cache && name in cache' ==> cache'[name] == cache[name]
      ensures CachedName(offers, cache', name)
    {
      hide IsBest, Offered;
    }

    /** Replaces everything a client offers. */
    method RegisterTools(clientId: int, items: seq<(string, int, string)>) returns (ok: bool, added: seq<string>)
      requires Valid()
      modifies this
      ensures Valid() && (ok <==> items != [])
      ensures added == seq(|items|, i requires 0 <= i < |items| => items[i].0)
      ensures offers == old(offers)[clientId := ToolsOf(clientId, items)]
    {
      hide CachedName, Owned;
      var prevTools := if clientId in offers then offers[clientId] else [];
      var prev := Names(prevTools);
      added := [];
      var list: seq<Tool> := [];
      for i := 0 to |items|
        invariant added == seq(i, k requires 0 <= k < i => items[k].0)
        invariant list == ToolsOf(clientId, items[..i])
      {
        list := list + [Tool(items[i].0, items[i].1, clientId, items[i].2)];
        added := added + [items[i].0];
        assert items[..i + 1][..i] == items[..i];
      }
      assert items[..|items|] == items;
      ghost var before: Offers := offers;
      offers := offers[clientId := list];
      ToolsHaveNames(clientId, items);
      var all := added + prev;
      forall i | 0 <= i < |prevTools|
        ensures prevTools[i].name in all
      {
        assert prev[i] == prevTools[i].name && all[|added| + i] == prev[i];
      }
      forall i | 0 <= i < |list|
        ensures list[i].name in all
      {
        assert all[i] == added[i];
      }
      ReplacedNames(before, offers, tools, clientId, added + prev);
      RecomputeAll(added + prev);
      ok := added != [];
    }

    lemma ToolsHaveNames(clientId: int, items: seq<(string, int, string)>)
      ensures var ts := ToolsOf(clientId, items);
              |ts| == |items| && forall i :: 0 <= i < |ts| ==> ts[i].clientId == clientId && ts[i].name == items[i].0
    {
      if items != [] {
        ToolsHaveNames(clientId, items[..|items| - 1]);
      }
    }

    lemma ReplacedNames(before: Offers, after: Offers, cache: map<string, Tool>, c: int, names: seq<string>)
      requires Owned(before) && Cached(before, cache)
      requires after == before[c := if c in after then after[c] else []] || after == before - {c}
      requires c in after ==>
                 (forall i :: 0 <= i < |after[c]| ==> after[c][i].clientId == c && after[c][i].name in names)
      requires c in before ==> (forall i :: 0 <= i < |before[c]| ==> before[c][i].name in names)
      ensures Owned(after) && forall name :: name !in names ==> CachedName(after, cache, name)
    {
      forall name | name !in names
        ensures CachedName(after, cache, name)
      {
        UntouchedName(before, after, cache, name);
      }
    }

    /** Forgets a client. `removed` lists the names that lost their last provider. */
    method UnregisterClient(clientId: int) returns (ok: bool, removed: seq<string>)
      requires Valid()
      modifies this
      ensures Valid() && offers == old(offers) - {clientId}
      ensures forall name :: name in removed <==> Offered(old(offers), name) && !Offered(offers, name)
      ensures ok <==> removed != []
    {
      hide CachedName, Owned, Offered;
      removed := [];
      if clientId !in offers {
        assert offers == offers - {clientId};
        return false, removed;
      }
      var owned := offers[clientId];
      ghost var before, names := offers, Names(owned);
      offers := offers - {clientId};
      forall i | 0 <= i < |owned|
        ensures owned[i].name in names
      {
        assert names[i] == owned[i].name;
      }
      ReplacedNames(before, offers, tools, clientId, names);
      for i := 0 to |owned|
        invariant offers == before - {clientId} && Owned(offers)
        invariant forall name :: name !in names[i..] ==> CachedName(offers, tools, name)
        invariant forall name :: name in removed <==> name in names[..i] && !Offered(offers, name)
      {
        assert names[i..] == [names[i]] + names[i + 1..] && names[..i + 1] == names[..i] + [names[i]];
        ghost var cache := tools;
        Recompute(owned[i].name);
        forall name | name !in names[i + 1..]
          ensures CachedName(offers, tools, name)
        {
          if name != names[i] {
            SameEntry(offers, cache, tools, name);
          }
        }
        CachedIsOffered(offers, tools, owned[i].name);
        if owned[i].name !in tools {
          removed := removed + [owned[i].name];
        }
      }
      assert names[..|owned|] == names;
      forall name
        ensures Offered(before, name) && !Offered(offers, name) <==> name in names && !Offered(offers, name)
      {
        LostName(before, clientId, name);
      }
      ok := removed != [];
    }

    lemma CachedIsOffered(offers: Offers, cache: map<string, Tool>, name: string)
      requires CachedName(offers, cache, name)
      ensures name in cache <==> Offered(offers, name)
    {
      hide IsBest, Offered;
    }

    lemma LostName(before: Offers, c: int, name: string)
      requires c in before
      ensures Offered(before, name) <==> Offered(before - {c}, name) || name in Names(before[c])
    {
      var after, names := before - {c}, Names(before[c]);
      if d, i :| Offer(before, name, d, i) {
        if d == c {
          assert names[i] == name;
        } else {
          assert Offer(after, name, d, i);
        }
      }
      if d, i :| Offer(after, name, d, i) {
        assert Offer(before, name, d, i);
      }
      if name in names {
        var i :| 0 <= i < |names| && names[i] == name;
        assert Offer(before, name, c, i);
      }
    }

    method Clear()
      modifies this
      ensures Valid() && offers == map[] && tools == map[]
    {
      offers, tools := map[], map[];
    }
  }

  function Names(ts: seq<Tool>): seq<string> {
    seq(|ts|, i requires 0 <= i < |ts| => ts[i].name)
  }

  function ToolsOf(clientId: int, items: seq<(string, int, string)>): seq<Tool> {
    if items == [] then []
    else
      var n := |items| - 1;
      ToolsOf(clientId, items[..n]) + [Tool(items[n].0, items[n].1, clientId, items[n].2)]
  }
}

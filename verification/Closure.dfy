/** Equivalence closures: which elements a list of unions has made reachable from each other.
    Both the routers' disjoint sets and the schematic netlist are proved against this definition. */
module Closure {

  predicate Adjacent<T(==)>(edges: seq<(T, T)>, a: T, b: T) {
    (a, b) in edges || (b, a) in edges
  }

  /** A non-empty sequence whose neighbours were all united, in either order. */
  ghost predicate Chain<T>(edges: seq<(T, T)>, p: seq<T>) {
    |p| > 0 && forall i :: 0 <= i < |p| - 1 ==> Adjacent(edges, p[i], p[i + 1])
  }

  ghost predicate Linked<T(!new)>(edges: seq<(T, T)>, a: T, b: T) {
    exists p :: Chain(edges, p) && p[0] == a && p[|p| - 1] == b
  }

  lemma LinkedRefl<T(!new)>(edges: seq<(T, T)>, a: T)
    ensures Linked(edges, a, a)
  {
    assert Chain(edges, [a]);
  }

  lemma LinkedEdge<T(!new)>(edges: seq<(T, T)>, a: T, b: T)
    requires Adjacent(edges, a, b)
    ensures Linked(edges, a, b)
  {
    assert Chain(edges, [a, b]);
  }

  lemma LinkedSym<T(!new)>(edges: seq<(T, T)>, a: T, b: T)
    requires Linked(edges, a, b)
    ensures Linked(edges, b, a)
  {
    var p :| Chain(edges, p) && p[0] == a && p[|p| - 1] == b;
    var q := seq(|p|, i requires 0 <= i < |p| => p[|p| - 1 - i]);
    forall i | 0 <= i < |q| - 1
      ensures Adjacent(edges, q[i], q[i + 1])
    {
      assert Adjacent(edges, p[|p| - 2 - i], p[|p| - 2 - i + 1]);
    }
    assert Chain(edges, q) && q[0] == b && q[|q| - 1] == a;
  }

  lemma LinkedTrans<T(!new)>(edges: seq<(T, T)>, a: T, b: T, c: T)
    requires Linked(edges, a, b) && Linked(edges, b, c)
    ensures Linked(edges, a, c)
  {
    var p :| Chain(edges, p) && p[0] == a && p[|p| - 1] == b;
    var q :| Chain(edges, q) && q[0] == b && q[|q| - 1] == c;
    var r := p + q[1..];
    forall i | 0 <= i < |r| - 1
      ensures Adjacent(edges, r[i], r[i + 1])
    {
      if i < |p| - 1 {
      } else {
        assert r[i] == q[i - (|p| - 1)] && r[i + 1] == q[i - (|p| - 1) + 1];
      }
    }
    assert Chain(edges, r) && r[0] == a && r[|r| - 1] == c;
  }

  lemma LinkedMono<T(!new)>(edges: seq<(T, T)>, more: seq<(T, T)>, a: T, b: T)
    requires Linked(edges, a, b)
    requires forall e :: e in edges ==> e in more
    ensures Linked(more, a, b)
  {
    var p :| Chain(edges, p) && p[0] == a && p[|p| - 1] == b;
    forall i | 0 <= i < |p| - 1
      ensures Adjacent(more, p[i], p[i + 1])
    {
      assert Adjacent(edges, p[i], p[i + 1]);
    }
    assert Chain(more, p);
  }

  /** Connectedness stated without any record of unions: a chain of elements related one to the next. */
  ghost predicate Connected<T(!new)>(related: (T, T) -> bool, a: T, b: T) {
    exists p :: RelatedChain(related, p) && p[0] == a && p[|p| - 1] == b
  }

  ghost predicate RelatedChain<T>(related: (T, T) -> bool, p: seq<T>) {
    |p| > 0 && forall i :: 0 <= i < |p| - 1 ==> related(p[i], p[i + 1]) || related(p[i + 1], p[i])
  }

  /** The unions made so far contain nothing unrelated and already link everything related. */
  ghost predicate Covers<T(!new)>(edges: seq<(T, T)>, related: (T, T) -> bool) {
    && (forall e :: e in edges ==> related(e.0, e.1) || related(e.1, e.0))
    && (forall x, y :: related(x, y) ==> Linked(edges, x, y))
  }

  lemma LinkedIffConnected<T(!new)>(edges: seq<(T, T)>, related: (T, T) -> bool, a: T, b: T)
    requires Covers(edges, related)
    ensures Linked(edges, a, b) <==> Connected(related, a, b)
  {
    if Linked(edges, a, b) {
      var p :| Chain(edges, p) && p[0] == a && p[|p| - 1] == b;
      forall i | 0 <= i < |p| - 1
        ensures related(p[i], p[i + 1]) || related(p[i + 1], p[i])
      {
        assert Adjacent(edges, p[i], p[i + 1]);
        if (p[i], p[i + 1]) in edges {
          assert related((p[i], p[i + 1]).0, (p[i], p[i + 1]).1) || related((p[i], p[i + 1]).1, (p[i], p[i + 1]).0);
        } else {
          assert related((p[i + 1], p[i]).0, (p[i + 1], p[i]).1) || related((p[i + 1], p[i]).1, (p[i + 1], p[i]).0);
        }
      }
      assert RelatedChain(related, p);
    }
    if Connected(related, a, b) {
      var p :| RelatedChain(related, p) && p[0] == a && p[|p| - 1] == b;
      RelatedChainLinked(edges, related, p);
    }
  }

  lemma RelatedChainLinked<T(!new)>(edges: seq<(T, T)>, related: (T, T) -> bool, p: seq<T>)
    requires Covers(edges, related) && RelatedChain(related, p)
    ensures Linked(edges, p[0], p[|p| - 1])
  {
    if |p| == 1 {
      LinkedRefl(edges, p[0]);
    } else {
      var q := p[..|p| - 1];
      RelatedChainLinked(edges, related, q);
      var x, y := p[|p| - 2], p[|p| - 2 + 1];
      assert related(x, y) || related(y, x);
      if !related(x, y) {
        LinkedSym(edges, y, x);
      }
      LinkedTrans(edges, p[0], x, y);
    }
  }

  // ---- Representatives ---------------------------------------------------------------------

  /** A map from elements to representatives is constant along every edge. */
  ghost predicate RespectsEdges<T>(rep: map<T, T>, edges: seq<(T, T)>) {
    forall e :: e in edges ==> e.0 in rep && e.1 in rep && rep[e.0] == rep[e.1]
  }

  lemma ChainSameRep<T>(rep: map<T, T>, edges: seq<(T, T)>, p: seq<T>, k: nat)
    requires RespectsEdges(rep, edges) && Chain(edges, p) && p[0] in rep && k < |p|
    ensures p[k] in rep && rep[p[k]] == rep[p[0]]
  {
    if k > 0 {
      ChainSameRep(rep, edges, p, k - 1);
      assert Adjacent(edges, p[k - 1], p[k - 1 + 1]);
      if (p[k - 1], p[k]) in edges {
        assert rep[(p[k - 1], p[k]).0] == rep[(p[k - 1], p[k]).1];
      } else {
        assert rep[(p[k], p[k - 1]).0] == rep[(p[k], p[k - 1]).1];
      }
    }
  }

  lemma LinkedSameRep<T(!new)>(rep: map<T, T>, edges: seq<(T, T)>, a: T, b: T)
    requires RespectsEdges(rep, edges) && a in rep && Linked(edges, a, b)
    ensures b in rep && rep[a] == rep[b]
  {
    var p :| Chain(edges, p) && p[0] == a && p[|p| - 1] == b;
    ChainSameRep(rep, edges, p, |p| - 1);
  }

  /** The representatives describe exactly the closure of the edges. */
  ghost predicate Represents<T(!new)>(rep: map<T, T>, edges: seq<(T, T)>) {
    && RespectsEdges(rep, edges)
    && forall a, b :: a in rep && b in rep ==> (rep[a] == rep[b] <==> Linked(edges, a, b))
  }

  /** The representative map after the class of `loser` is attached to `winner`. */
  ghost function Merge<T>(rep: map<T, T>, winner: T, loser: T): map<T, T> {
    map k | k in rep :: if rep[k] == loser then winner else rep[k]
  }

  lemma IdentityRepresents<T(!new)>(rep: map<T, T>)
    requires forall k :: k in rep ==> rep[k] == k
    ensures Represents(rep, [])
  {
    var none: seq<(T, T)> := [];
    forall a, b | a in rep && b in rep
      ensures rep[a] == rep[b] <==> Linked(none, a, b)
    {
      LinkedRefl(none, a);
      if Linked(none, a, b) {
        LinkedSameRep(rep, none, a, b);
      }
    }
  }

  /** A new element joins as a class of its own. */
  lemma SingletonRepresents<T(!new)>(rep: map<T, T>, edges: seq<(T, T)>, k: T)
    requires Represents(rep, edges) && k !in rep
    requires forall j :: j in rep ==> rep[j] != k
    ensures Represents(rep[k := k], edges)
  {
    var rep' := rep[k := k];
    assert RespectsEdges(rep', edges);
    forall a, b | a in rep' && b in rep'
      ensures rep'[a] == rep'[b] <==> Linked(edges, a, b)
    {
      if a == b {
        LinkedRefl(edges, a);
      } else if Linked(edges, a, b) {
        LinkedSameRep(rep', edges, a, b);
      }
    }
  }

  /** Attaching one class to another adds exactly the one union to the closure. */
  lemma MergeRepresents<T(!new)>(rep: map<T, T>, edges: seq<(T, T)>, a: T, b: T)
    requires Represents(rep, edges) && a in rep && b in rep
    ensures Represents(Merge(rep, rep[a], rep[b]), edges + [(a, b)])
  {
    var edges' := edges + [(a, b)];
    var rep' := Merge(rep, rep[a], rep[b]);
    assert (a, b) in edges';
    forall x, y | x in rep' && y in rep'
      ensures rep'[x] == rep'[y] <==> Linked(edges', x, y)
    {
      if Linked(edges', x, y) {
        LinkedSameRep(rep', edges', x, y);
      }
      if rep'[x] == rep'[y] {
        LinkedEdge(edges', a, b);
        LinkedSym(edges', a, b);
        if rep[x] == rep[y] {
          LinkedMono(edges, edges', x, y);
        } else if rep[x] == rep[b] {
          Bridge(edges, edges', x, b, a, y);
        } else {
          Bridge(edges, edges', x, a, b, y);
        }
      }
    }
  }

  lemma Bridge<T(!new)>(edges: seq<(T, T)>, more: seq<(T, T)>, x: T, a: T, b: T, y: T)
    requires forall e :: e in edges ==> e in more
    requires Linked(edges, x, a) && Linked(more, a, b) && Linked(edges, b, y)
    ensures Linked(more, x, y)
  {
    LinkedMono(edges, more, x, a);
    LinkedMono(edges, more, b, y);
    LinkedTrans(more, x, a, b);
    LinkedTrans(more, x, b, y);
  }
}

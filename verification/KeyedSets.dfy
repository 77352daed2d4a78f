/** The union-find of the schematic netlist builder: parent links in a map that grows as keys are first seen. */
module KeyedSets {
  import opened Closure

  ghost predicate KeyForest<T>(parent: map<T, T>, rep: map<T, T>, rank: map<T, nat>) {
    && parent.Keys == rep.Keys == rank.Keys
    && forall k :: k in parent ==> Node(parent, rep, rank, k)
  }

  ghost predicate Node<T>(parent: map<T, T>, rep: map<T, T>, rank: map<T, nat>, k: T)
    requires parent.Keys == rep.Keys == rank.Keys && k in parent
  {
    && parent[k] in parent && rep[k] in parent
    && rep[parent[k]] == rep[k]
    && parent[rep[k]] == rep[k]
    && (parent[k] == k ==> rep[k] == k)
    && (parent[k] != k ==> rank[k] < rank[parent[k]])
  }

  lemma SameKeys<T>(parent: map<T, T>, rep: map<T, T>, rank: map<T, nat>)
    requires KeyForest(parent, rep, rank)
    ensures parent.Keys == rep.Keys == rank.Keys
  {
  }

  lemma NodeAt<T>(parent: map<T, T>, rep: map<T, T>, rank: map<T, nat>, k: T)
    requires KeyForest(parent, rep, rank) && k in parent
    ensures k in rep && k in rank && parent[k] in parent && parent[k] in rep && parent[k] in rank && rep[k] in parent
    ensures rep[parent[k]] == rep[k] && parent[rep[k]] == rep[k]
    ensures parent[k] == k ==> rep[k] == k
    ensures parent[k] != k ==> rank[k] < rank[parent[k]]
  {
    assert Node(parent, rep, rank, k);
  }

  ghost function MaxRank<T>(rank: map<T, nat>): (m: nat)
    ensures forall k :: k in rank ==> rank[k] <= m
    decreases |rank|
  {
    if rank == map[] then 0
    else
      var k :| k in rank;
      var m := MaxRank(rank - {k});
      assert forall j :: j in rank ==> j == k || (j in rank - {k} && rank[j] == (rank - {k})[j]);
      if rank[k] > m then rank[k] else m
  }

  lemma RepointKeepsForest<T>(parent: map<T, T>, rep: map<T, T>, rank: map<T, nat>, i: T, j: T)
    requires KeyForest(parent, rep, rank) && i in parent && j in parent
    requires parent[i] != i && rep[j] == rep[i] && rank[i] < rank[j]
    ensures KeyForest(parent[i := j], rep, rank)
  {
    var parent' := parent[i := j];
    forall k | k in parent'
      ensures Node(parent', rep, rank, k)
    {
      assert Node(parent, rep, rank, k);
      assert Node(parent, rep, rank, i);
    }
  }

  lemma HangKeepsForest<T>(parent: map<T, T>, rep: map<T, T>, rank: map<T, nat>, ra: T, rb: T, rank': map<T, nat>)
    requires KeyForest(parent, rep, rank) && ra in parent && rb in parent && ra != rb && rep[ra] == ra && rep[rb] == rb
    requires rank' == rank[ra := if rank[ra] <= rank[rb] then rank[rb] + 1 else rank[ra]]
    ensures KeyForest(parent[rb := ra], Merge(rep, ra, rb), rank')
  {
    var parent', rep' := parent[rb := ra], Merge(rep, ra, rb);
    assert rep'.Keys == rep.Keys;
    forall k | k in parent'
      ensures Node(parent', rep', rank', k)
    {
      HangNode(parent, rep, rank, ra, rb, rank', k);
    }
  }

  lemma MergedAt<T>(rep: map<T, T>, ra: T, rb: T, k: T)
    requires k in rep
    ensures k in Merge(rep, ra, rb) && Merge(rep, ra, rb)[k] == if rep[k] == rb then ra else rep[k]
  {
  }

  lemma HangNode<T>(parent: map<T, T>, rep: map<T, T>, rank: map<T, nat>, ra: T, rb: T, rank': map<T, nat>, k: T)
    requires KeyForest(parent, rep, rank) && ra in parent && rb in parent && ra != rb && rep[ra] == ra && rep[rb] == rb
    requires rank' == rank[ra := if rank[ra] <= rank[rb] then rank[rb] + 1 else rank[ra]]
    requires k in parent && Merge(rep, ra, rb).Keys == rep.Keys
    ensures Node(parent[rb := ra], Merge(rep, ra, rb), rank', k)
  {
    NodeAt(parent, rep, rank, ra);
    NodeAt(parent, rep, rank, rb);
    NodeAt(parent, rep, rank, k);
    NodeAt(parent, rep, rank, parent[k]);
    hide KeyForest, Merge;
    MergedAt(rep, ra, rb, k);
    MergedAt(rep, ra, rb, parent[k]);
    MergedAt(rep, ra, rb, ra);
  }

  lemma NewKeyKeepsForest<T(!new)>(parent: map<T, T>, rep: map<T, T>, rank: map<T, nat>, edges: seq<(T, T)>, k: T)
    requires KeyForest(parent, rep, rank) && Represents(rep, edges) && k !in parent
    ensures KeyForest(parent[k := k], rep[k := k], rank[k := 0]) && Represents(rep[k := k], edges)
  {
    forall j | j in rep
      ensures rep[j] != k
    {
      assert Node(parent, rep, rank, j);
    }
    SingletonRepresents(rep, edges, k);
    var parent' := parent[k := k];
    forall j | j in parent'
      ensures Node(parent[k := k], rep[k := k], rank[k := 0], j)
    {
      if j != k {
        assert Node(parent, rep, rank, j);
      }
    }
  }

  /** `parent` is the only concrete state; the ghost fields record the unions, the representatives and ranks. */
  class KeyedSet<T(==, !new)> {
    var parent: map<T, T>
    ghost var rep: map<T, T>
    ghost var edges: seq<(T, T)>
    ghost var rank: map<T, nat>

    ghost predicate Valid()
      reads this
    {
      KeyForest(parent, rep, rank) && Represents(rep, edges)
    }

    constructor ()
      ensures Valid() && parent.Keys == {} && edges == []
    {
      parent, rep, edges, rank := map[], map[], [], map[];
      new;
      IdentityRepresents(rep);
    }

    /** Adds an unseen key as a cluster of its own, then walks to the root with path halving. */
    method FindRoot(k: T) returns (r: T)
      requires Valid()
      modifies this`parent, this`rep, this`rank
      ensures Valid() && parent.Keys == old(parent.Keys) + {k} && rep.Keys == parent.Keys
      ensures r in rep && r == rep[k] && rep[r] == r && parent[r] == r
      ensures rep == if k in old(parent) then old(rep) else old(rep)[k := k]
    {
      hide Represents, KeyForest, Node;
      SameKeys(parent, rep, rank);
      if k !in parent {
        NewKeyKeepsForest(parent, rep, rank, edges, k);
        parent := parent[k := k];
        rep := rep[k := k];
        rank := rank[k := 0];
        SameKeys(parent, rep, rank);
      }
      r := WalkToRoot(k);
    }

    method WalkToRoot(k: T) returns (r: T)
      requires Valid() && k in parent
      modifies this`parent
      ensures Valid() && parent.Keys == old(parent.Keys) && rep.Keys == parent.Keys
      ensures r in rep && r == rep[k] && rep[r] == r && parent[r] == r
    {
      hide Represents, KeyForest, Node;
      ghost var keys := parent.Keys;
      ghost var top := MaxRank(rank);
      SameKeys(parent, rep, rank);
      r := k;
      while parent[r] != r
        invariant parent.Keys == keys == rep.Keys == rank.Keys && r in parent && KeyForest(parent, rep, rank)
        invariant rep[r] == rep[k]
        decreases top - rank[r]
      {
        NodeAt(parent, rep, rank, r);
        NodeAt(parent, rep, rank, parent[r]);
        ghost var p := parent[r];
        assert rank[r] < rank[parent[p]];
        RepointKeepsForest(parent, rep, rank, r, parent[p]);
        parent := parent[r := parent[parent[r]]];
        r := parent[r];
      }
      NodeAt(parent, rep, rank, r);
    }

    lemma MergeSame(rep: map<T, T>, r: T)
      ensures Merge(rep, r, r) == rep
    {
    }

    method Unite(a: T, b: T)
      requires Valid()
      modifies this
      ensures Valid() && edges == old(edges) + [(a, b)] && parent.Keys == old(parent.Keys) + {a, b}
    {
      hide Represents, KeyForest, Node, Merge;
      var ra := FindRoot(a);
      var rb := FindRoot(b);
      MergeRepresents(rep, edges, a, b);
      SameKeys(parent, rep, rank);
      if ra != rb {
        ghost var higher := rank[ra := if rank[ra] <= rank[rb] then rank[rb] + 1 else rank[ra]];
        HangKeepsForest(parent, rep, rank, ra, rb, higher);
        rank := higher;
        parent := parent[rb := ra];
      } else {
        MergeSame(rep, ra);
      }
      edges := edges + [(a, b)];
      rep := Merge(rep, ra, rb);
    }
  }
}

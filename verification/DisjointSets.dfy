/** The union-find forests of the PCB router and of the connectivity audit. */
module DisjointSets {
  import opened Closure

  /** Parent links as a forest: walking them keeps the representative, ends at it, and climbs in rank. */
  ghost predicate Forest(parent: seq<nat>, rep: map<nat, nat>, rank: seq<nat>) {
    && |rank| == |parent|
    && (forall i :: i in rep <==> 0 <= i < |parent|)
    && forall i :: 0 <= i < |parent| ==> Node(parent, rep, rank, i)
  }

  ghost predicate Node(parent: seq<nat>, rep: map<nat, nat>, rank: seq<nat>, i: nat)
    requires i < |parent| == |rank| && i in rep
  {
    && parent[i] < |parent| && parent[i] in rep && rep[i] < |parent|
    && rep[parent[i]] == rep[i]
    && parent[rep[i]] == rep[i]
    && (parent[i] == i ==> rep[i] == i)
    && (parent[i] != i ==> rank[i] < rank[parent[i]])
  }

  ghost function MaxRank(rank: seq<nat>): (m: nat)
    ensures forall i :: 0 <= i < |rank| ==> rank[i] <= m
  {
    if rank == [] then 0
    else
      var m := MaxRank(rank[..|rank| - 1]);
      if rank[|rank| - 1] > m then rank[|rank| - 1] else m
  }

  /** The representative outranks every other member of its class. */
  lemma RootOutranks(parent: seq<nat>, rep: map<nat, nat>, rank: seq<nat>, i: nat, top: nat)
    requires Forest(parent, rep, rank) && i < |parent| && rep[i] != i
    requires forall k :: 0 <= k < |rank| ==> rank[k] <= top
    ensures rep[i] < |rank| && rank[i] < rank[rep[i]]
    decreases top - rank[i]
  {
    assert Node(parent, rep, rank, i);
    var p := parent[i];
    if rep[p] != p {
      RootOutranks(parent, rep, rank, p, top);
    }
  }

  /** Re-pointing an element at any higher-ranked element of its own class keeps the forest. */
  lemma RepointKeepsForest(parent: seq<nat>, rep: map<nat, nat>, rank: seq<nat>, i: nat, j: nat)
    requires Forest(parent, rep, rank) && i < |parent| && j < |parent|
    requires parent[i] != i && rep[j] == rep[i] && rank[i] < rank[j]
    ensures Forest(parent[i := j], rep, rank)
  {
    var parent' := parent[i := j];
    forall k | 0 <= k < |parent'|
      ensures Node(parent', rep, rank, k)
    {
      assert Node(parent, rep, rank, k);
      assert Node(parent, rep, rank, i);
    }
  }

  /** Hanging one root under another keeps the forest for the merged classes. */
  lemma HangKeepsForest(parent: seq<nat>, rep: map<nat, nat>, rank: seq<nat>, a: nat, b: nat, rank': seq<nat>)
    requires Forest(parent, rep, rank) && a < |parent| && b < |parent| && rep[a] != rep[b]
    requires rep[a] < |rank| && rep[b] < |rank|
    requires rank' == rank[rep[a] := if rank[rep[a]] <= rank[rep[b]] then rank[rep[b]] + 1 else rank[rep[a]]]
    ensures Forest(parent[rep[b] := rep[a]], Merge(rep, rep[a], rep[b]), rank')
  {
    var ra, rb := rep[a], rep[b];
    var parent' := parent[rb := ra];
    var rep' := Merge(rep, ra, rb);
    assert Node(parent, rep, rank, a) && Node(parent, rep, rank, b);
    assert Node(parent, rep, rank, ra) && Node(parent, rep, rank, rb);
    forall k | 0 <= k < |parent'|
      ensures Node(parent', rep', rank', k)
    {
      assert Node(parent, rep, rank, k);
      if parent[k] != k {
        assert Node(parent, rep, rank, parent[k]);
      }
    }
  }

  /** `parent` is the only concrete state. The ghost fields record the unions made so far (`edges`),
      the representative each element's walk ends at (`rep`) and a rank that grows along parent links. */
  class DisjointSet {
    var parent: array<nat>
    ghost var rep: map<nat, nat>
    ghost var edges: seq<(nat, nat)>
    ghost var rank: seq<nat>

    ghost predicate Valid()
      reads this, parent
    {
      Forest(parent[..], rep, rank) && Represents(rep, edges)
    }

    constructor (n: nat)
      ensures Valid() && fresh(parent) && parent.Length == n && edges == []
    {
      parent := new nat[n](i => i);
      rep := map i: nat {:trigger i < n} | i < n :: i;
      edges := [];
      rank := seq(n, i => 0);
      new;
      IdentityRepresents(rep);
    }

    /** Path halving: every other node of the walk is pointed at its grandparent.
        The partition is untouched and the walk ends at the representative. */
    method Find(a: nat) returns (r: nat)
      requires Valid() && a < parent.Length
      modifies parent
      ensures Valid() && a in rep && r in rep && r == rep[a] && r < parent.Length
      ensures parent[r] == r
    {
      r := a;
      ghost var top := MaxRank(rank);
      while parent[r] != r
        invariant r < parent.Length && Forest(parent[..], rep, rank) && rep[r] == rep[a]
        decreases top - rank[r]
      {
        assert Node(parent[..], rep, rank, r) && Node(parent[..], rep, rank, parent[r]);
        RepointKeepsForest(parent[..], rep, rank, r, parent[parent[r]]);
        ghost var before := parent[..];
        parent[r] := parent[parent[r]];
        assert parent[..] == before[r := parent[r]];
        r := parent[r];
      }
      assert Node(parent[..], rep, rank, r);
    }

    /** The audit's variant: walk to the root first, then point the whole walk at it. */
    method FindCompress(a: nat) returns (r: nat)
      requires Valid() && a < parent.Length
      modifies parent
      ensures Valid() && a in rep && r in rep && r == rep[a] && r < parent.Length
      ensures parent[r] == r
    {
      r := a;
      ghost var top := MaxRank(rank);
      while parent[r] != r
        invariant r < parent.Length && rep[r] == rep[a]
        decreases top - rank[r]
      {
        assert Node(parent[..], rep, rank, r);
        r := parent[r];
      }
      assert Node(parent[..], rep, rank, r);
      var x: nat := a;
      while parent[x] != r
        invariant Forest(parent[..], rep, rank) && x < parent.Length && rep[x] == r && parent[r] == r
        decreases top - rank[x]
      {
        assert Node(parent[..], rep, rank, x) && Node(parent[..], rep, rank, parent[x]);
        RootOutranks(parent[..], rep, rank, x, top);
        RepointKeepsForest(parent[..], rep, rank, x, r);
        var next := parent[x];
        ghost var before := parent[..];
        parent[x] := r;
        assert parent[..] == before[x := r];
        x := next;
      }
    }

    /** Joins the two classes: the closure gains exactly the union `(a, b)`. */
    method Unite(a: nat, b: nat)
      requires Valid() && a < parent.Length && b < parent.Length
      modifies this`rep, this`edges, this`rank, parent
      ensures Valid() && edges == old(edges) + [(a, b)]
    {
      var ra := Find(a);
      var rb := Find(b);
      MergeRepresents(rep, edges, a, b);
      ghost var before := parent[..];
      if ra != rb {
        ghost var higher := rank[ra := if rank[ra] <= rank[rb] then rank[rb] + 1 else rank[ra]];
        HangKeepsForest(before, rep, rank, a, b, higher);
        rank := higher;
        parent[rb] := ra;
        assert parent[..] == before[rb := ra];
      } else {
        assert Merge(rep, ra, rb) == rep;
      }
      edges := edges + [(a, b)];
      rep := Merge(rep, ra, rb);
    }
  }
}

/** Per-cell congestion counters: how many routed nets have a cell on their recorded list. */
module Counters {
  import opened Basics

  /** Counters are 16-bit, stamps 32-bit; both wrap around. */
  const COUNTER_RANGE: int := 0x1_0000
  const STAMP_RANGE: int := 0x1_0000_0000

  type Record = seq<int>

  /** The number of records that contain `id`. */
  function Tally(records: seq<Record>, id: int): (n: nat)
    ensures n <= |records|
  {
    if records == [] then 0
    else Tally(records[..|records| - 1], id) + (if id in records[|records| - 1] then 1 else 0)
  }

  /** All counters of `n` cells at once. */
  ghost function Tallies(records: seq<Record>, n: nat): (t: seq<int>)
    ensures |t| == n && forall id :: 0 <= id < n ==> t[id] == Tally(records, id)
  {
    seq(n, id requires 0 <= id < n => Tally(records, id))
  }

  lemma {:induction false} TallyUpdate(records: seq<Record>, k: nat, r: Record, id: int)
    requires k < |records|
    ensures Tally(records[k := r], id) + (if id in records[k] then 1 else 0) ==
            Tally(records, id) + (if id in r then 1 else 0)
  {
    var n := |records| - 1;
    if k == n {
      assert records[k := r][..n] == records[..n];
    } else {
      TallyUpdate(records[..n], k, r, id);
      assert records[k := r][..n] == records[..n][k := r];
    }
  }

  /** A count of one on a record's own cell means no other record contains it, and conversely. */
  lemma {:induction false} TallyOthers(records: seq<Record>, k: nat, id: int)
    requires k < |records| && id in records[k]
    ensures Tally(records, id) >= 1
    ensures Tally(records, id) > 1 <==> exists j :: 0 <= j < |records| && j != k && id in records[j]
  {
    var rest := records[k := []];
    TallyUpdate(records, k, [], id);
    TallyZero(rest, id);
    if j :| 0 <= j < |records| && j != k && id in records[j] {
      assert id in rest[j];
    }
    if j :| 0 <= j < |rest| && id in rest[j] {
      assert j != k && id in records[j];
    }
  }

  lemma {:induction false} TallyZero(records: seq<Record>, id: int)
    ensures Tally(records, id) == 0 <==> forall j :: 0 <= j < |records| ==> id !in records[j]
  {
    if records != [] {
      var n := |records| - 1;
      TallyZero(records[..n], id);
      if j :| 0 <= j < n && id in records[..n][j] {
        assert id in records[j];
      }
    }
  }

  ghost function NoRecords(n: nat): (none: seq<Record>)
    ensures |none| == n && forall k :: 0 <= k < n ==> none[k] == []
  {
    seq(n, _ => [])
  }

  class CoverCounter {
    const count: array<int>
    const stamp: array<int>
    var gen: int

    ghost function Arrays(): set<object> {
      {count, stamp}
    }

    /** Every counter is the exact number of records containing its cell; records repeat nothing. */
    ghost predicate Valid(records: seq<Record>)
      reads this, count, stamp
    {
      && Stamps()
      && |records| < COUNTER_RANGE
      && (forall id :: 0 <= id < count.Length ==> count[id] == Tally(records, id))
      && (forall k :: 0 <= k < |records| ==> InRange(records[k]))
    }

    ghost predicate Stamps()
      reads this, stamp
    {
      && count != stamp && count.Length == stamp.Length && 0 <= gen < STAMP_RANGE
      && forall id :: 0 <= id < stamp.Length ==> 0 <= stamp[id] <= gen
    }

    ghost predicate InRange(r: Record) {
      Distinct(r) && forall id :: id in r ==> 0 <= id < count.Length
    }

    /** While record `k` is being written, the current stamps are exactly its cells. */
    ghost predicate Writing(records: seq<Record>, k: nat)
      reads this, count, stamp
    {
      && k < |records| && Valid(records) && gen > 0
      && forall id :: 0 <= id < stamp.Length ==> (stamp[id] == gen <==> id in records[k])
    }

    constructor (cells: nat, n: nat)
      requires n < COUNTER_RANGE
      ensures Valid(NoRecords(n))
      ensures fresh(Arrays()) && count.Length == cells
    {
      count := new int[cells](_ => 0);
      stamp := new int[cells](_ => 0);
      gen := 0;
      new;
      var none := NoRecords(n);
      forall id | 0 <= id < cells
        ensures count[id] == Tally(none, id)
      {
        TallyZero(none, id);
      }
    }

    method Begin(ghost records: seq<Record>, ghost k: nat)
      requires Valid(records) && k < |records| && records[k] == []
      modifies this`gen, stamp
      ensures Writing(records, k)
    {
      gen := (gen + 1) % STAMP_RANGE;
      if gen == 0 {
        forall id | 0 <= id < stamp.Length {
          stamp[id] := 0;
        }
        gen := 1;
      }
    }

    /** Covers one cell: counted once however often the net's discs overlap on it. */
    method Cover(id: int, record: Record, ghost records: seq<Record>, ghost k: nat) returns (record': Record)
      requires Writing(records, k) && record == records[k] && 0 <= id < count.Length
      modifies count, stamp
      ensures Writing(records[k := record'], k)
      ensures record' == if id in record then record else record + [id]
    {
      record' := record;
      assert records[k := record] == records;
      if stamp[id] != gen {
        record' := record + [id];
        ghost var records' := records[k := record'];
        forall x | 0 <= x < count.Length
          ensures Tally(records', x) == count[x] + (if x == id then 1 else 0)
        {
          TallyUpdate(records, k, record', x);
        }
        stamp[id] := gen;
        count[id] := (count[id] + 1) % COUNTER_RANGE;
        assert InRange(record');
      }
    }

    lemma TailInRange(r: Record)
      requires r != [] && InRange(r)
      ensures InRange(r[1..]) && r[0] !in r[1..] && 0 <= r[0] < count.Length
    {
      assert r[0] in r;
      assert forall i :: 0 <= i < |r[1..]| ==> r[1..][i] == r[i + 1];
      assert forall id :: id in r[1..] ==> id in r;
    }

    /** Takes a net's record back. The guard against a zero counter is never what stops a decrement. */
    method Release(record: Record, ghost records: seq<Record>, ghost k: nat)
      requires Valid(records) && k < |records| && record == records[k]
      modifies count
      ensures Valid(records[k := []])
    {
      assert records[k := record[0..]] == records;
      for i := 0 to |record|
        invariant Valid(records[k := record[i..]])
      {
        var id := record[i];
        assert InRange(records[k := record[i..]][k]);
        assert record[i..][0] == id && record[i..][1..] == record[i + 1..] && id in record[i..];
        ghost var now := records[k := record[i..]];
        ghost var next := records[k := record[i + 1..]];
        assert next == now[k := record[i + 1..]];
        forall x | 0 <= x < count.Length
          ensures Tally(next, x) == count[x] - (if x == id then 1 else 0)
        {
          TallyUpdate(now, k, record[i + 1..], x);
          assert x in record[i..] <==> x == id || x in record[i + 1..];
        }
        if count[id] > 0 {
          count[id] := count[id] - 1;
        }
        TailInRange(record[i..]);
      }
      assert record[|record|..] == [];
    }
  }
}

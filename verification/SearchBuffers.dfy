/** The generation-stamped arrays of the bridge search: starting a search costs one increment, not a clear. */
module SearchBuffers {
  import opened Grid
  import opened SearchProof

  /** Stamps are 32-bit and wrap around. */
  const GENERATIONS: int := 0x1_0000_0000

  lemma IndexFacts(s: Size)
    ensures forall c {:trigger NodeIdx(s, c)} :: Inside(s, c) ==> 0 <= NodeIdx(s, c) < TotalCells(s)
    ensures forall c, d {:trigger NodeIdx(s, c), NodeIdx(s, d)} ::
              Inside(s, c) && Inside(s, d) && NodeIdx(s, c) == NodeIdx(s, d) ==> c == d
  {
    hide NodeIdx, TotalCells, DecodeCell;
    forall c | Inside(s, c)
      ensures 0 <= NodeIdx(s, c) < TotalCells(s) && DecodeCell(s, NodeIdx(s, c)) == c
    {
      NodeIdxDecodes(s, c);
    }
  }

  /** `labels` and `marks` are what the arrays mean in the current generation. */
  class Buffers {
    const size: Size
    const bestG: array<real>
    const parentCode: array<int>
    const visitGen: array<int>
    const markGen: array<int>
    const markRef: array<int>
    var gen: int
    ghost var labels: Labels
    ghost var marks: map<Cell, int>

    ghost function Arrays(): set<object> {
      {bestG as object, parentCode, visitGen, markGen, markRef}
    }

    ghost predicate Shaped() {
      && bestG.Length == parentCode.Length == visitGen.Length == TotalCells(size)
      && markGen.Length == markRef.Length == TotalCells(size)
      && visitGen != markGen && visitGen != markRef && visitGen != parentCode
      && markGen != markRef && markGen != parentCode && markRef != parentCode
    }

    /** No stamp is from the future. */
    ghost predicate Valid()
      reads this, visitGen, markGen
    {
      && Shaped() && 0 <= gen < GENERATIONS
      && (forall i :: 0 <= i < visitGen.Length ==> 0 <= visitGen[i] <= gen)
      && (forall i :: 0 <= i < markGen.Length ==> 0 <= markGen[i] <= gen)
    }

    ghost predicate HoldsLabel(c: Cell)
      requires Shaped() && 0 <= NodeIdx(size, c) < TotalCells(size)
      reads this, bestG, parentCode, visitGen
    {
      if visitGen[NodeIdx(size, c)] == gen
      then c in labels && labels[c] == Label(bestG[NodeIdx(size, c)], parentCode[NodeIdx(size, c)])
      else c !in labels
    }

    ghost predicate HoldsMark(c: Cell)
      requires Shaped() && 0 <= NodeIdx(size, c) < TotalCells(size)
      reads this, markGen, markRef
    {
      if markGen[NodeIdx(size, c)] == gen then c in marks && marks[c] == markRef[NodeIdx(size, c)] else c !in marks
    }

    /** During a search the current stamps spell out exactly `labels` and `marks`. */
    ghost predicate Active()
      reads this, bestG, parentCode, visitGen, markGen, markRef
    {
      && Valid() && gen > 0
      && (forall c :: c in labels || c in marks ==> Inside(size, c))
      && (forall c {:trigger HoldsLabel(c)} ::
            Inside(size, c) && 0 <= NodeIdx(size, c) < TotalCells(size) ==> HoldsLabel(c))
      && (forall c {:trigger HoldsMark(c)} ::
            Inside(size, c) && 0 <= NodeIdx(size, c) < TotalCells(size) ==> HoldsMark(c))
    }

    constructor (size: Size)
      ensures Valid() && this.size == size
      ensures fresh(Arrays())
    {
      this.size := size;
      bestG := new real[TotalCells(size)](_ => 0.0);
      parentCode := new int[TotalCells(size)](_ => 0);
      visitGen := new int[TotalCells(size)](_ => 0);
      markGen := new int[TotalCells(size)](_ => 0);
      markRef := new int[TotalCells(size)](_ => 0);
      gen := 0;
      labels := map[];
      marks := map[];
    }

    /** A fresh generation: everything is unvisited and unmarked, even across a wrap of the stamp. */
    method Begin()
      requires Valid()
      modifies this`gen, this`labels, this`marks, visitGen, markGen
      ensures Active() && labels == map[] && marks == map[]
    {
      hide NodeIdx, TotalCells;
      gen := (gen + 1) % GENERATIONS;
      if gen == 0 {
        forall i | 0 <= i < visitGen.Length {
          visitGen[i] := 0;
        }
        forall i | 0 <= i < markGen.Length {
          markGen[i] := 0;
        }
        gen := 1;
      }
      labels := map[];
      marks := map[];
    }

    function Visited(c: Cell): (v: bool)
      requires Active() && Inside(size, c)
      reads this, bestG, parentCode, visitGen, markGen, markRef
      ensures v <==> c in labels
    {
      IndexFacts(size);
      assert HoldsLabel(c);
      visitGen[NodeIdx(size, c)] == gen
    }

    function Cost(c: Cell): (g: real)
      requires Active() && c in labels
      reads this, bestG, parentCode, visitGen, markGen, markRef
      ensures g == labels[c].g
    {
      IndexFacts(size);
      assert HoldsLabel(c);
      bestG[NodeIdx(size, c)]
    }

    function Code(c: Cell): (code: int)
      requires Active() && c in labels
      reads this, bestG, parentCode, visitGen, markGen, markRef
      ensures code == labels[c].code
    {
      IndexFacts(size);
      assert HoldsLabel(c);
      parentCode[NodeIdx(size, c)]
    }

    function Marked(c: Cell): (m: bool)
      requires Active() && Inside(size, c)
      reads this, bestG, parentCode, visitGen, markGen, markRef
      ensures m <==> c in marks
    {
      IndexFacts(size);
      assert HoldsMark(c);
      markGen[NodeIdx(size, c)] == gen
    }

    function Mark(c: Cell): (r: int)
      requires Active() && c in marks
      reads this, bestG, parentCode, visitGen, markGen, markRef
      ensures r == marks[c]
    {
      IndexFacts(size);
      assert HoldsMark(c);
      markRef[NodeIdx(size, c)]
    }

    method SetMark(c: Cell, ref: int)
      requires Active() && Inside(size, c)
      modifies this`marks, markGen, markRef
      ensures Active() && marks == old(marks)[c := ref]
    {
      IndexFacts(size);
      hide NodeIdx, TotalCells;
      forall d | Inside(size, d)
        ensures HoldsMark(d) && HoldsLabel(d)
      {
      }
      markGen[NodeIdx(size, c)] := gen;
      markRef[NodeIdx(size, c)] := ref;
      marks := marks[c := ref];
    }

    method SetLabel(c: Cell, g: real, code: int)
      requires Active() && Inside(size, c)
      modifies this`labels, visitGen, bestG, parentCode
      ensures Active() && labels == old(labels)[c := Label(g, code)]
    {
      IndexFacts(size);
      hide NodeIdx, TotalCells;
      forall d | Inside(size, d)
        ensures HoldsMark(d) && HoldsLabel(d)
      {
      }
      visitGen[NodeIdx(size, c)] := gen;
      bestG[NodeIdx(size, c)] := g;
      parentCode[NodeIdx(size, c)] := code;
      labels := labels[c := Label(g, code)];
    }
  }
}

/** The routing grid: layered cells, the moves between them, and their flat array indices. */
module Grid {
  datatype Cell = Cell(l: int, x: int, y: int)

  /** `w` and `h` are the grid's columns and rows, `layers` its copper layers. */
  datatype Size = Size(w: nat, h: nat, layers: nat)

  predicate Inside(s: Size, c: Cell) {
    0 <= c.l < s.layers && 0 <= c.x < s.w && 0 <= c.y < s.h
  }

  function PlaneIdx(s: Size, x: int, y: int): int {
    y * s.w + x
  }

  function NodeIdx(s: Size, c: Cell): int {
    (c.l * s.h + c.y) * s.w + c.x
  }

  function DecodeCell(s: Size, cid: nat): Cell
    requires s.w > 0 && s.h > 0
  {
    Cell(cid / s.w / s.h, cid % s.w, cid / s.w % s.h)
  }

  function PlaneCells(s: Size): nat {
    s.w * s.h
  }

  function TotalCells(s: Size): nat {
    s.layers * s.h * s.w
  }

  lemma DivMod(q: int, d: int, r: int)
    requires 0 <= r < d
    ensures (q * d + r) / d == q && (q * d + r) % d == r
  {
    var n := q * d + r;
    var k := n / d - q;
    assert k * d == r - n % d by {
      assert n == n / d * d + n % d;
      assert (n / d - q) * d == n / d * d - q * d;
    }
    assert -k * d == -(k * d);
    if k > 0 {
      Product(1, k, d);
    } else if k < 0 {
      Product(1, -k, d);
    }
  }

  lemma RowMajorBound(q: int, n: int, d: int, r: int)
    requires 0 <= q < n && 0 <= r < d
    ensures 0 <= q * d + r < n * d
  {
    assert (q + 1) * d <= n * d;
  }

  /** Every inside cell has its own slot: the flat index is in range and decodes to the cell. */
  lemma NodeIdxDecodes(s: Size, c: Cell)
    requires Inside(s, c)
    ensures 0 <= NodeIdx(s, c) < TotalCells(s)
    ensures DecodeCell(s, NodeIdx(s, c)) == c
  {
    var row := c.l * s.h + c.y;
    RowMajorBound(c.l, s.layers, s.h, c.y);
    RowMajorBound(row, s.layers * s.h, s.w, c.x);
    DivMod(row, s.w, c.x);
    DivMod(c.l, s.h, c.y);
  }

  lemma QuotientBound(n: nat, d: nat, q: nat)
    requires d > 0 && n < q * d
    ensures n / d < q && n == n / d * d + n % d
  {
    if n / d >= q {
      Product(q, n / d, d);
    }
  }

  /** Every slot belongs to a cell: decoding an index and encoding it again gives the index back. */
  lemma DecodeEncodes(s: Size, cid: nat)
    requires cid < TotalCells(s) && s.w > 0 && s.h > 0
    ensures Inside(s, DecodeCell(s, cid)) && NodeIdx(s, DecodeCell(s, cid)) == cid
  {
    QuotientBound(cid, s.w, s.layers * s.h);
    var row := cid / s.w;
    QuotientBound(row, s.h, s.layers);
  }

  lemma Product(a: int, b: int, k: int)
    requires a <= b && k >= 0
    ensures a * k <= b * k
  {
  }

  lemma PlaneIdxDecodes(s: Size, x: int, y: int)
    requires 0 <= x < s.w && 0 <= y < s.h
    ensures 0 <= PlaneIdx(s, x, y) < PlaneCells(s)
    ensures PlaneIdx(s, x, y) % s.w == x && PlaneIdx(s, x, y) / s.w == y
  {
    RowMajorBound(y, s.h, s.w, x);
    DivMod(y, s.w, x);
    assert s.h * s.w == s.w * s.h;
  }

  lemma PlaneDecodes(s: Size, pid: int)
    requires 0 <= pid < PlaneCells(s) && s.w > 0
    ensures 0 <= pid % s.w < s.w && 0 <= pid / s.w < s.h
  {
    assert s.h * s.w == s.w * s.h;
    if pid / s.w >= s.h {
      Product(s.h, pid / s.w, s.w);
    }
  }

  lemma PlaneEncodes(s: Size, id: nat)
    requires s.w > 0
    ensures PlaneIdx(s, id % s.w, id / s.w) == id
  {
  }

  // ---- Moves -------------------------------------------------------------------------------

  /** A search step: one of the eight planar directions, or a through via to another layer. */
  datatype Move = Planar(d: nat) | Via(layer: int)

  const DIRECTIONS: nat := 8
  const FIRST_DIAGONAL: nat := 4

  function Dx(d: nat): int {
    match d
    case 0 => 1
    case 1 => -1
    case 4 => 1
    case 5 => 1
    case 6 => -1
    case 7 => -1
    case _ => 0
  }

  function Dy(d: nat): int {
    match d
    case 2 => 1
    case 3 => -1
    case 4 => 1
    case 5 => -1
    case 6 => 1
    case 7 => -1
    case _ => 0
  }

  function Target(c: Cell, m: Move): Cell {
    match m
    case Planar(d) => Cell(c.l, c.x + Dx(d), c.y + Dy(d))
    case Via(layer) => Cell(layer, c.x, c.y)
  }

  /** The directions are the eight neighbours, each once, the diagonals last. */
  lemma EightNeighbours(dx: int, dy: int)
    requires -1 <= dx <= 1 && -1 <= dy <= 1 && (dx != 0 || dy != 0)
    ensures exists d: nat :: d < 8 && Dx(d) == dx && Dy(d) == dy && (d >= 4 <==> dx != 0 && dy != 0)
    ensures forall d: nat, e: nat :: d < e < 8 ==> Dx(d) != Dx(e) || Dy(d) != Dy(e)
  {
    if {
      case dx == 1 && dy == 0 => assert Dx(0) == dx;
      case dx == -1 && dy == 0 => assert Dx(1) == dx;
      case dx == 0 && dy == 1 => assert Dx(2) == dx;
      case dx == 0 && dy == -1 => assert Dx(3) == dx;
      case dx == 1 && dy == 1 => assert Dx(4) == dx;
      case dx == 1 && dy == -1 => assert Dx(5) == dx;
      case dx == -1 && dy == 1 => assert Dx(6) == dx;
      case dx == -1 && dy == -1 => assert Dx(7) == dx;
    }
  }

  /** The byte stored with a reached cell: the direction taken, or 8 plus the layer the via came from. */
  function ParentCode(from: Cell, m: Move): int {
    match m
    case Planar(d) => d
    case Via(_) => DIRECTIONS + from.l
  }

  function ParentOf(c: Cell, code: int): Cell {
    if 0 <= code < DIRECTIONS then Cell(c.l, c.x - Dx(code), c.y - Dy(code))
    else Cell(code - DIRECTIONS, c.x, c.y)
  }

  function MoveInto(c: Cell, code: int): Move {
    if 0 <= code < DIRECTIONS then Planar(code) else Via(c.l)
  }

  /** The stored byte is enough to walk back over the step that was taken. */
  lemma ParentCodeInverts(from: Cell, m: Move)
    requires m.Planar? ==> m.d < DIRECTIONS
    requires from.l >= 0
    ensures ParentOf(Target(from, m), ParentCode(from, m)) == from
    ensures MoveInto(Target(from, m), ParentCode(from, m)) == m
  {
  }
}

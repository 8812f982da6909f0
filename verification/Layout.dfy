/** The address layout of registers: arrays of cells with a size and a stride.

The bytes between two cells of one register may belong to cells of another register.
*/
module Layout {

  /** An inclusive address range. */
  datatype Range = Range(start: nat, end: nat) {
    predicate Overlaps(other: Range) {
      other.end >= start && other.start <= end
    }
  }

  datatype Geometry = Geometry(cellSize: nat, cellCount: nat, cellStride: nat) {
    /** What the register constructor insists on. */
    predicate Valid() {
      cellSize > 0 && cellCount > 0 && cellStride >= cellSize
    }

    function Size(): nat
      requires Valid()
    {
      cellStride * (cellCount - 1) + cellSize
    }

    /** Offset `k` from the start of the register lies in one of its cells. */
    predicate Hit(k: int)
      requires Valid()
    {
      0 <= k < Size() && k % cellStride < cellSize
    }

    /** The offset of byte `off` of cell `i`. */
    function Place(i: nat, off: nat): nat {
      i * cellStride + off
    }

    /** The cell an offset belongs to, and where in the stride of that cell it is. */
    function Index(k: nat): nat
      requires Valid()
    {
      k / cellStride
    }

    function Offset(k: nat): nat
      requires Valid()
    {
      k % cellStride
    }
  }

  /** Address `a` lies in a cell of a register with layout `g` that starts at `off`. */
  predicate CellAt(g: Geometry, off: nat, a: int)
    requires g.Valid()
  {
    g.Hit(a - off)
  }

  /** Two placed registers have a byte in common. */
  ghost predicate ShareByte(g0: Geometry, off0: nat, g1: Geometry, off1: nat)
    requires g0.Valid() && g1.Valid()
  {
    exists a: int :: CellAt(g0, off0, a) && CellAt(g1, off1, a)
  }

  lemma MultipleAtLeast(d: int, s: int)
    requires s > 0
    ensures d >= 1 ==> d * s >= s
    ensures d <= -1 ==> d * s <= -s
  {
  }

  lemma MultipleInRange(d: int, s: int, x: int)
    requires s > 0 && d * s == x && -s < x < s
    ensures d == 0
  {
    MultipleAtLeast(d, s);
  }

  /** Quotient and remainder are determined by the division equation. */
  lemma DivModUnique(k: int, s: int, q: int, r: int)
    requires s > 0 && k == q * s + r && 0 <= r < s
    ensures k / s == q && k % s == r
  {
    var e, m := k / s, k % s;
    assert k == e * s + m && 0 <= m < s;
    assert (e - q) * s == e * s - q * s;
    MultipleInRange(e - q, s, r - m);
  }

  /** Cells below the count end within the register, the others begin behind it. */
  lemma CellEnds(g: Geometry, i: nat)
    requires g.Valid()
    ensures i < g.cellCount ==> i * g.cellStride + g.cellSize <= g.Size()
    ensures i >= g.cellCount ==> i * g.cellStride >= g.Size()
  {
    var d := i - (g.cellCount - 1);
    assert d * g.cellStride == i * g.cellStride - (g.cellCount - 1) * g.cellStride;
    MultipleAtLeast(d, g.cellStride);
  }

  /** The bytes of a cell are covered exactly if the cell exists. */
  lemma CellOf(g: Geometry, i: nat, k: nat)
    requires g.Valid() && k < g.cellSize
    ensures g.Hit(i * g.cellStride + k) <==> i < g.cellCount
  {
    DivModUnique(i * g.cellStride + k, g.cellStride, i, k);
    CellEnds(g, i);
  }

  lemma CellIndexInBounds(g: Geometry, k: nat)
    requires g.Valid() && (g.Hit(k) || k < g.Size())
    ensures g.Index(k) < g.cellCount && g.Offset(k) < g.cellStride
    ensures k == g.Place(g.Index(k), g.Offset(k))
    ensures g.Hit(k) ==> g.Offset(k) < g.cellSize
  {
    var i := g.Index(k);
    assert k == i * g.cellStride + k % g.cellStride;
    assert (i - (g.cellCount - 1)) * g.cellStride == i * g.cellStride - (g.cellCount - 1) * g.cellStride;
    if i >= g.cellCount {
      MultipleAtLeast(i - (g.cellCount - 1), g.cellStride);
    }
  }

  /** In a layout without gaps every offset below the size is covered. */
  lemma NoGaps(g: Geometry, k: int)
    requires g.Valid() && g.cellSize == g.cellStride
    ensures g.Hit(k) <==> 0 <= k < g.Size()
  {
  }

  /** The bytes `off..off + len` of cell `i` are the offsets from `lo` on. */
  lemma CellWindow(g: Geometry, i: nat, off: nat, len: nat, lo: nat, k: nat)
    requires g.Valid() && i < g.cellCount && off + len <= g.cellSize && lo == g.Place(i, off)
    ensures lo <= k < lo + len ==> g.Hit(k) && g.Index(k) == i && g.Offset(k) == off + (k - lo)
    ensures g.Hit(k) && g.Index(k) == i && off <= g.Offset(k) < off + len ==> lo <= k < lo + len
  {
    if lo <= k < lo + len {
      CellOf(g, i, off + (k - lo));
      DivModUnique(k, g.cellStride, i, off + (k - lo));
    } else if g.Hit(k) {
      CellIndexInBounds(g, k);
    }
  }

  /** Does a placed register meet an address range? */
  method OverlapsRange(g: Geometry, off: nat, r: Range) returns (hit: bool)
    requires g.Valid() && r.start <= r.end
    ensures hit <==> exists a: int :: r.start <= a <= r.end && CellAt(g, off, a)
  {
    if r.end < off || r.start >= off + g.Size() {
      return false;
    }
    if g.cellSize == g.cellStride {
      ghost var a := if r.start < off then off else r.start;
      NoGaps(g, a - off);
      assert CellAt(g, off, a);
      return true;
    }
    var i := 0;
    while i < g.cellCount
      invariant 0 <= i <= g.cellCount
      invariant forall a: int :: r.start <= a <= r.end && CellAt(g, off, a) ==> g.Index(a - off) >= i
    {
      var cell := Range(off + i * g.cellStride, off + i * g.cellStride + g.cellSize - 1);
      if r.Overlaps(cell) {
        ghost var a := if r.start < cell.start then cell.start else r.start;
        CellOf(g, i, a - cell.start);
        assert CellAt(g, off, a);
        return true;
      }
      forall a: int | r.start <= a <= r.end && CellAt(g, off, a)
        ensures g.Index(a - off) >= i + 1
      {
        CellIndexInBounds(g, a - off);
      }
      i := i + 1;
    }
    forall a: int | r.start <= a <= r.end && CellAt(g, off, a)
      ensures false
    {
      CellIndexInBounds(g, a - off);
    }
    return false;
  }

  /** Do two placed registers overlap? The answer is exact whichever of the three ways is taken. */
  method OverlapsRegister(g0: Geometry, off0: nat, g1: Geometry, off1: nat) returns (hit: bool)
    requires g0.Valid() && g1.Valid()
    ensures hit <==> ShareByte(g0, off0, g1, off1)
  {
    if g0.cellSize == g0.cellStride {
      hit := OverlapsRange(g1, off1, Range(off0, off0 + g0.Size() - 1));
      forall a: int ensures CellAt(g0, off0, a) <==> off0 <= a <= off0 + g0.Size() - 1 {
        NoGaps(g0, a - off0);
      }
      return;
    }
    if g1.cellSize == g1.cellStride {
      hit := OverlapsRange(g0, off0, Range(off1, off1 + g1.Size() - 1));
      forall a: int ensures CellAt(g1, off1, a) <==> off1 <= a <= off1 + g1.Size() - 1 {
        NoGaps(g1, a - off1);
      }
      return;
    }
    var i := 0;
    while i < g0.cellCount
      invariant 0 <= i <= g0.cellCount
      invariant forall a: int :: CellAt(g0, off0, a) && CellAt(g1, off1, a) ==> g0.Index(a - off0) >= i
    {
      var cell := Range(off0 + i * g0.cellStride, off0 + i * g0.cellStride + g0.cellSize - 1);
      var meets := OverlapsRange(g1, off1, cell);
      if meets {
        ghost var a: int :| cell.start <= a <= cell.end && CellAt(g1, off1, a);
        CellOf(g0, i, a - cell.start);
        assert CellAt(g0, off0, a);
        return true;
      }
      forall a: int | CellAt(g0, off0, a) && CellAt(g1, off1, a)
        ensures g0.Index(a - off0) >= i + 1
      {
        CellIndexInBounds(g0, a - off0);
      }
      i := i + 1;
    }
    forall a: int | CellAt(g0, off0, a) && CellAt(g1, off1, a)
      ensures false
    {
      CellIndexInBounds(g0, a - off0);
    }
    return false;
  }
}

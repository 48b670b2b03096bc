/**
 * The order in which a structure template visits its cells: x outermost,
 * then y, then z innermost, as forEachPredicate's three nested loops do; and
 * the positions StructureTemplateIterator steps through.
 */
module Enumeration {
  import opened Rotations

  /** The cells visited from (x, y, z) on, to the end of the box. */
  function CellsFrom(d: Dims, x: nat, y: nat, z: nat): seq<Pos>
    decreases d.x - x, d.y - y, d.z - z
  {
    if x >= d.x then []
    else if y >= d.y then CellsFrom(d, x + 1, 0, 0)
    else if z >= d.z then CellsFrom(d, x, y + 1, 0)
    else [Pos(x, y, z)] + CellsFrom(d, x, y, z + 1)
  }

  /** All cells of the box in visiting order. */
  function Cells(d: Dims): seq<Pos>
  {
    CellsFrom(d, 0, 0, 0)
  }

  /** Lexicographic order on (x, y, z): the visiting order. */
  predicate LexLess(p: Pos, q: Pos)
  {
    p.x < q.x || (p.x == q.x && (p.y < q.y || (p.y == q.y && p.z < q.z)))
  }

  /** The number of cells visited before (x, y, z). */
  function Index(d: Dims, x: int, y: int, z: int): int
  {
    (x * d.y + y) * d.z + z
  }

  lemma {:induction false} CellsFromBounds(d: Dims, x: nat, y: nat, z: nat)
    ensures forall i :: 0 <= i < |CellsFrom(d, x, y, z)| ==>
      InBox(CellsFrom(d, x, y, z)[i], d) && !LexLess(CellsFrom(d, x, y, z)[i], Pos(x, y, z))
    decreases d.x - x, d.y - y, d.z - z
  {
    if x >= d.x {
    } else if y >= d.y {
      CellsFromBounds(d, x + 1, 0, 0);
    } else if z >= d.z {
      CellsFromBounds(d, x, y + 1, 0);
    } else {
      CellsFromBounds(d, x, y, z + 1);
      var rest := CellsFrom(d, x, y, z + 1);
      assert forall i :: 1 <= i < |CellsFrom(d, x, y, z)| ==> CellsFrom(d, x, y, z)[i] == rest[i - 1];
    }
  }

  /** Strictly increasing in visiting order, so no cell is visited twice. */
  lemma {:induction false} CellsFromSorted(d: Dims, x: nat, y: nat, z: nat)
    ensures forall i, j :: 0 <= i < j < |CellsFrom(d, x, y, z)| ==>
      LexLess(CellsFrom(d, x, y, z)[i], CellsFrom(d, x, y, z)[j])
    decreases d.x - x, d.y - y, d.z - z
  {
    if x >= d.x {
    } else if y >= d.y {
      CellsFromSorted(d, x + 1, 0, 0);
    } else if z >= d.z {
      CellsFromSorted(d, x, y + 1, 0);
    } else {
      CellsFromSorted(d, x, y, z + 1);
      CellsFromBounds(d, x, y, z + 1);
      var all := CellsFrom(d, x, y, z);
      var rest := CellsFrom(d, x, y, z + 1);
      assert all == [Pos(x, y, z)] + rest;
      forall i, j | 0 <= i < j < |all| ensures LexLess(all[i], all[j]) {
        assert all[j] == rest[j - 1];
        if i > 0 {
          assert all[i] == rest[i - 1];
        } else {
          assert !LexLess(rest[j - 1], Pos(x, y, z + 1));
        }
      }
    }
  }

  /** Every cell of the box at or after (x, y, z) is visited. */
  lemma {:induction false} CellsFromComplete(d: Dims, x: nat, y: nat, z: nat, q: Pos)
    requires InBox(q, d) && !LexLess(q, Pos(x, y, z))
    ensures q in CellsFrom(d, x, y, z)
    decreases d.x - x, d.y - y, d.z - z
  {
    if x >= d.x {
    } else if y >= d.y {
      CellsFromComplete(d, x + 1, 0, 0, q);
    } else if z >= d.z {
      CellsFromComplete(d, x, y + 1, 0, q);
    } else if q != Pos(x, y, z) {
      CellsFromComplete(d, x, y, z + 1, q);
    }
  }

  lemma {:induction false} CellsFromLength(d: Dims, x: nat, y: nat, z: nat)
    requires x <= d.x && y <= d.y && z <= d.z
    requires x == d.x ==> y == 0 && z == 0
    requires y == d.y ==> z == 0
    ensures |CellsFrom(d, x, y, z)| == d.x * d.y * d.z - Index(d, x, y, z)
    decreases d.x - x, d.y - y, d.z - z
  {
    if x >= d.x {
      assert Index(d, x, y, z) == d.x * d.y * d.z;
    } else if y >= d.y {
      CellsFromLength(d, x + 1, 0, 0);
      assert Index(d, x + 1, 0, 0) == Index(d, x, d.y, 0);
    } else if z >= d.z {
      CellsFromLength(d, x, y + 1, 0);
      assert Index(d, x, y + 1, 0) == Index(d, x, y, d.z);
    } else {
      CellsFromLength(d, x, y, z + 1);
    }
  }

  /**
   * The visiting order covers each cell of the box exactly once: it has
   * xSize * ySize * zSize entries, all in the box, strictly increasing in
   * (x, y, z) order, and every cell of the box is among them.
   */
  lemma CellsExactlyOnce(d: Dims)
    ensures |Cells(d)| == d.x * d.y * d.z
    ensures forall i :: 0 <= i < |Cells(d)| ==> InBox(Cells(d)[i], d)
    ensures forall i, j :: 0 <= i < j < |Cells(d)| ==> LexLess(Cells(d)[i], Cells(d)[j])
    ensures forall q :: InBox(q, d) ==> q in Cells(d)
  {
    CellsFromLength(d, 0, 0, 0);
    CellsFromBounds(d, 0, 0, 0);
    CellsFromSorted(d, 0, 0, 0);
    forall q | InBox(q, d) ensures q in Cells(d) {
      CellsFromComplete(d, 0, 0, 0, q);
    }
  }

  // --- StructureTemplateIterator's cursor ---

  /** `next()`'s advance: z first, wrapping into y, wrapping into x. */
  function Advance(d: Dims, p: Pos): (q: Pos)
    ensures LexLess(p, q)
  {
    if p.z + 1 < d.z then Pos(p.x, p.y, p.z + 1)
    else if p.y + 1 < d.y then Pos(p.x, p.y + 1, 0)
    else Pos(p.x + 1, 0, 0)
  }

  /**
   * `hasNext()` as written: every coordinate strictly below its size minus one.
   * From a cursor inside the box it only ever answers true where the intended
   * guard does, and the cell it lets `next()` read and the cursor after it stay in the box.
   */
  predicate HasNextAsWritten(d: Dims, p: Pos)
    ensures HasNextAsWritten(d, p) && 0 <= p.x && 0 <= p.y && 0 <= p.z ==>
      HasNextIntended(d, p) && InBox(p, d) && InBox(Advance(d, p), d)
  {
    p.x < d.x - 1 && p.y < d.y - 1 && p.z < d.z - 1
  }

  /** The positions a caller draining the iterator from cursor `p` receives. */
  function DrainAsWritten(d: Dims, p: Pos): seq<Pos>
    decreases d.x - p.x, d.y - p.y, d.z - p.z
  {
    if HasNextAsWritten(d, p) then [p] + DrainAsWritten(d, Advance(d, p)) else []
  }

  lemma {:induction false} DrainAsWrittenAlongZ(d: Dims, z: nat)
    requires d.x >= 2 && d.y >= 2 && d.z >= 2 && z <= d.z - 1
    ensures DrainAsWritten(d, Pos(0, 0, z)) == seq(d.z - 1 - z, k => Pos(0, 0, z + k))
    decreases d.z - z
  {
    if z < d.z - 1 {
      DrainAsWrittenAlongZ(d, z + 1);
      assert Advance(d, Pos(0, 0, z)) == Pos(0, 0, z + 1);
    }
  }

  /**
   * As written, a fresh iterator yields the cells (0, 0, z) for z < zSize - 1
   * when every size is at least 2, and nothing otherwise.
   */
  lemma DrainAsWrittenYields(d: Dims)
    ensures DrainAsWritten(d, Origin) ==
      if d.x >= 2 && d.y >= 2 && d.z >= 2 then seq(d.z - 1, k => Pos(0, 0, k)) else []
  {
    if d.x >= 2 && d.y >= 2 && d.z >= 2 {
      DrainAsWrittenAlongZ(d, 0);
    }
  }

  lemma {:induction false} CellsAlongZ(d: Dims, z: nat)
    requires d.x >= 1 && d.y >= 1 && z <= d.z
    ensures seq(d.z - z, k => Pos(0, 0, z + k)) <= CellsFrom(d, 0, 0, z)
    decreases d.z - z
  {
    if z < d.z {
      CellsAlongZ(d, z + 1);
      var s := seq(d.z - z, k => Pos(0, 0, z + k));
      assert s == [Pos(0, 0, z)] + seq(d.z - (z + 1), k => Pos(0, 0, z + 1 + k));
    }
  }

  /** What the iterator yields, as written, is a prefix of forEachPredicate's order. */
  lemma DrainAsWrittenIsPrefix(d: Dims)
    ensures DrainAsWritten(d, Origin) <= Cells(d)
    ensures |DrainAsWritten(d, Origin)| < |Cells(d)| || |Cells(d)| == 0
  {
    DrainAsWrittenYields(d);
    CellsFromLength(d, 0, 0, 0);
    if d.x >= 2 && d.y >= 2 && d.z >= 2 {
      CellsAlongZ(d, 0);
      var s := seq(d.z - 1, k => Pos(0, 0, k));
      var t := seq(d.z, k => Pos(0, 0, k));
      assert s <= t;
      assert d.x * d.y >= 1;
      assert d.x * d.y * d.z >= d.z;
    } else if |Cells(d)| != 0 {
      assert d.x * d.y * d.z > 0;
    }
  }

  /** The guard the iterator evidently intends: cells remain while x is below xSize. */
  predicate HasNextIntended(d: Dims, p: Pos)
  {
    p.x < d.x && d.y > 0 && d.z > 0
  }

  function DrainIntended(d: Dims, p: Pos): seq<Pos>
    requires 0 <= p.x
    decreases d.x - p.x, d.y - p.y, d.z - p.z
  {
    if HasNextIntended(d, p) && 0 <= p.y < d.y && 0 <= p.z < d.z then
      [p] + DrainIntended(d, Advance(d, p))
    else []
  }

  lemma {:induction false} DrainIntendedFrom(d: Dims, p: Pos)
    requires 0 <= p.x && 0 <= p.y && 0 <= p.z && (d.y > 0 ==> p.y < d.y) && (d.z > 0 ==> p.z < d.z)
    requires d.y == 0 ==> p.y == 0
    requires d.z == 0 ==> p.z == 0
    ensures DrainIntended(d, p) == CellsFrom(d, p.x, p.y, p.z)
    decreases d.x - p.x, d.y - p.y, d.z - p.z
  {
    if p.x < d.x && d.y > 0 && d.z > 0 {
      var q := Advance(d, p);
      DrainIntendedFrom(d, q);
      if p.z + 1 >= d.z {
        assert CellsFrom(d, p.x, p.y, p.z + 1) == CellsFrom(d, p.x, p.y + 1, 0);
        if p.y + 1 >= d.y {
          assert CellsFrom(d, p.x, p.y + 1, 0) == CellsFrom(d, p.x + 1, 0, 0);
        }
      }
    } else if p.x < d.x {
      if d.y == 0 {
        assert CellsFrom(d, p.x, p.y, p.z) == CellsFrom(d, p.x + 1, 0, 0);
        CellsFromLength(d, p.x + 1, 0, 0);
        assert Index(d, p.x + 1, 0, 0) == 0;
      } else {
        CellsFromLength(d, p.x, p.y, 0);
        assert d.x * d.y * d.z == 0 && Index(d, p.x, p.y, 0) == 0;
      }
    }
  }

  /** With the intended guard a fresh iterator yields exactly forEachPredicate's cells. */
  lemma DrainIntendedYieldsAll(d: Dims)
    ensures DrainIntended(d, Origin) == Cells(d)
  {
    DrainIntendedFrom(d, Origin);
  }
}

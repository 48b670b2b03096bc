/**
 * StructureTemplate: a 3-D array of block-state predicates with its sizes,
 * anchor and per-category predicate counts; its traversal (forEachPredicate,
 * forEach and the iterator), the queries built on it (countValidStates,
 * validate, predicatesOfType) and parse, which builds one from its definition.
 */
module Template {
  import opened Rotations
  import opened Predicates
  import opened Wrappers
  import opened Legend
  import opened Enumeration
  import opened Grid

  /** What forEachPredicate hands its action for one cell: the cell's (rotated) position and predicate. */
  type Visit = (Pos, Option<Predicate>)

  function GridDims(grid: array3<Option<Predicate>>): Dims
  {
    Dims(grid.Length0, grid.Length1, grid.Length2)
  }

  /** The array cell at `p`, or null outside the array. */
  function CellAt(grid: array3<Option<Predicate>>, p: Pos): Option<Predicate>
    reads grid
  {
    if InBox(p, GridDims(grid)) then grid[p.x, p.y, p.z] else None
  }

  /** The visits for the array cells `cs`, placed by rotation `r` in a template of size `size`. */
  function VisitsOf(grid: array3<Option<Predicate>>, cs: seq<Pos>, size: Dims, r: Rotation): (vs: seq<Visit>)
    reads grid
    ensures |vs| == |cs|
  {
    if cs == [] then [] else [(Forward(r, cs[0], size), CellAt(grid, cs[0]))] + VisitsOf(grid, cs[1..], size, r)
  }

  /** forEachPredicate's whole sequence of visits, over the array's own lengths. */
  function Visits(grid: array3<Option<Predicate>>, size: Dims, r: Rotation): seq<Visit>
    reads grid
  {
    VisitsOf(grid, Cells(GridDims(grid)), size, r)
  }

  lemma VisitsOfCons(grid: array3<Option<Predicate>>, p: Pos, cs: seq<Pos>, size: Dims, r: Rotation)
    ensures VisitsOf(grid, [p] + cs, size, r) == [(Forward(r, p, size), CellAt(grid, p))] + VisitsOf(grid, cs, size, r)
  {
    assert ([p] + cs)[1..] == cs;
  }

  lemma {:induction false} VisitsOfIndex(grid: array3<Option<Predicate>>, cs: seq<Pos>, size: Dims, r: Rotation)
    ensures forall i :: 0 <= i < |cs| ==> VisitsOf(grid, cs, size, r)[i] == (Forward(r, cs[i], size), CellAt(grid, cs[i]))
    decreases |cs|
  {
    if cs != [] {
      VisitsOfIndex(grid, cs[1..], size, r);
    }
  }

  /** The rotation changes where each cell is reported, never which predicate or in what order. */
  lemma VisitsSamePredicates(grid: array3<Option<Predicate>>, size: Dims, r: Rotation)
    ensures |Visits(grid, size, r)| == |Visits(grid, size, NoRotation)|
    ensures forall i :: 0 <= i < |Visits(grid, size, r)| ==>
      Visits(grid, size, r)[i] == (Forward(r, Visits(grid, size, NoRotation)[i].0, size), Visits(grid, size, NoRotation)[i].1)
  {
    var cs := Cells(GridDims(grid));
    VisitsOfIndex(grid, cs, size, r);
    VisitsOfIndex(grid, cs, size, NoRotation);
    forall i | 0 <= i < |cs|
      ensures Visits(grid, size, r)[i] == (Forward(r, Visits(grid, size, NoRotation)[i].0, size), Visits(grid, size, NoRotation)[i].1)
    {
      assert Visits(grid, size, NoRotation)[i].0 == Forward(NoRotation, cs[i], size) == cs[i];
    }
  }

  /** Each array cell is visited exactly once, every visit carrying that cell's predicate. */
  lemma VisitsCoverGrid(grid: array3<Option<Predicate>>, size: Dims, r: Rotation)
    ensures |Visits(grid, size, r)| == grid.Length0 * grid.Length1 * grid.Length2
    ensures forall p :: InBox(p, GridDims(grid)) ==>
      exists i :: (0 <= i < |Visits(grid, size, r)| && Cells(GridDims(grid))[i] == p
        && Visits(grid, size, r)[i] == (Forward(r, p, size), grid[p.x, p.y, p.z]))
    ensures forall i, j :: 0 <= i < j < |Visits(grid, size, r)| ==> Cells(GridDims(grid))[i] != Cells(GridDims(grid))[j]
  {
    var d := GridDims(grid);
    CellsExactlyOnce(d);
    VisitsOfIndex(grid, Cells(d), size, r);
    forall p | InBox(p, d)
      ensures exists i :: (0 <= i < |Visits(grid, size, r)| && Cells(d)[i] == p
        && Visits(grid, size, r)[i] == (Forward(r, p, size), grid[p.x, p.y, p.z]))
    {
      var i :| 0 <= i < |Cells(d)| && Cells(d)[i] == p;
      assert Visits(grid, size, r)[i] == (Forward(r, p, size), grid[p.x, p.y, p.z]);
    }
  }

  /** No visit is null exactly when no array cell is. */
  lemma NoNullCells(grid: array3<Option<Predicate>>, size: Dims, r: Rotation)
    ensures AllPresent(Visits(grid, size, r)) <==>
      forall i, j, k :: 0 <= i < grid.Length0 && 0 <= j < grid.Length1 && 0 <= k < grid.Length2 ==> grid[i, j, k].Some?
  {
    var d := GridDims(grid);
    var vs := Visits(grid, size, r);
    CellsExactlyOnce(d);
    VisitsOfIndex(grid, Cells(d), size, r);
    if AllPresent(vs) {
      forall i, j, k | 0 <= i < grid.Length0 && 0 <= j < grid.Length1 && 0 <= k < grid.Length2
        ensures grid[i, j, k].Some?
      {
        assert InBox(Pos(i, j, k), d) && Pos(i, j, k) in Cells(d);
        var n :| 0 <= n < |Cells(d)| && Cells(d)[n] == Pos(i, j, k);
        assert vs[n].1 == grid[i, j, k];
      }
    }
  }

  // --- category counts ---

  /** Every visited cell holds a predicate. */
  predicate AllPresent(vs: seq<Visit>)
  {
    forall i :: 0 <= i < |vs| ==> vs[i].1.Some?
  }

  /** How many visits carry a predicate of category `c`. */
  function CountIn(vs: seq<Visit>, c: MatchCategory): (n: nat)
    ensures n <= |vs|
  {
    if vs == [] then 0
    else CountIn(vs[..|vs| - 1], c) + (if vs[|vs| - 1].1.Some? && IsOf(vs[|vs| - 1].1.value, c) then 1 else 0)
  }

  /** The count map the constructor builds: a category is present only once one predicate falls into it. */
  function CountMap(vs: seq<Visit>, cats: seq<MatchCategory>): map<MatchCategory, nat>
  {
    map c | c in cats && CountIn(vs, c) > 0 :: CountIn(vs, c)
  }

  lemma {:induction false} CountsPartition(vs: seq<Visit>)
    requires AllPresent(vs)
    ensures CountIn(vs, Air) + CountIn(vs, NonAir) == |vs|
    ensures CountIn(vs, Null) + CountIn(vs, NonNull) == |vs|
  {
    if vs != [] {
      CountsPartition(vs[..|vs| - 1]);
    }
  }

  lemma {:induction false} CountInAll(vs: seq<Visit>, c: MatchCategory)
    ensures CountIn(vs, c) == |vs| <==> forall i :: 0 <= i < |vs| ==> vs[i].1.Some? && IsOf(vs[i].1.value, c)
  {
    if vs != [] {
      var init := vs[..|vs| - 1];
      CountInAll(init, c);
      assert forall i :: 0 <= i < |init| ==> init[i] == vs[i];
    }
  }

  lemma {:induction false} CountInNone(vs: seq<Visit>, c: MatchCategory)
    ensures CountIn(vs, c) == 0 <==> forall i :: 0 <= i < |vs| ==> !(vs[i].1.Some? && IsOf(vs[i].1.value, c))
  {
    if vs != [] {
      var init := vs[..|vs| - 1];
      CountInNone(init, c);
      assert forall i :: 0 <= i < |init| ==> init[i] == vs[i];
    }
  }

  lemma {:induction false} CountInSamePredicates(vs: seq<Visit>, ws: seq<Visit>, c: MatchCategory)
    requires |vs| == |ws| && forall i :: 0 <= i < |vs| ==> vs[i].1 == ws[i].1
    ensures CountIn(vs, c) == CountIn(ws, c)
  {
    if vs != [] {
      CountInSamePredicates(vs[..|vs| - 1], ws[..|ws| - 1], c);
    }
  }

  // --- validation ---

  /** The world: the block state at every position. */
  type World = Pos -> BlockState

  /**
   * The visits of category `filter` whose predicate matches the world's
   * state at the visit's position moved by `at`, turned back by the
   * inverse of `r`.
   */
  predicate ValidAt(reg: Registry, world: World, at: Pos, r: Rotation, filter: MatchCategory, v: Visit)
  {
    v.1.Some? && IsOf(v.1.value, filter) && Matches(reg, v.1.value, reg.rotateState(world(v.0.Add(at)), Inverse(r)))
  }

  function ValidIn(reg: Registry, world: World, at: Pos, r: Rotation, filter: MatchCategory, vs: seq<Visit>): nat
  {
    if vs == [] then 0
    else ValidIn(reg, world, at, r, filter, vs[..|vs| - 1]) + (if ValidAt(reg, world, at, r, filter, vs[|vs| - 1]) then 1 else 0)
  }

  /** At most the cells of the category can match, and all of them do exactly when the count reaches theirs. */
  lemma {:induction false} ValidInBounded(reg: Registry, world: World, at: Pos, r: Rotation, filter: MatchCategory, vs: seq<Visit>)
    ensures ValidIn(reg, world, at, r, filter, vs) <= CountIn(vs, filter)
    ensures ValidIn(reg, world, at, r, filter, vs) == CountIn(vs, filter) <==>
      forall i :: 0 <= i < |vs| && vs[i].1.Some? && IsOf(vs[i].1.value, filter) ==> ValidAt(reg, world, at, r, filter, vs[i])
  {
    if vs != [] {
      var init := vs[..|vs| - 1];
      ValidInBounded(reg, world, at, r, filter, init);
      assert forall i :: 0 <= i < |init| ==> init[i] == vs[i];
    }
  }

  /** Two worlds that agree at every cell holding a non-wildcard predicate give the same NON_NULL count. */
  lemma {:induction false} WildcardsIgnored(reg: Registry, w1: World, w2: World, at: Pos, r: Rotation, vs: seq<Visit>)
    requires forall i :: 0 <= i < |vs| && vs[i].1.Some? && !vs[i].1.value.AnyState? ==>
      w1(vs[i].0.Add(at)) == w2(vs[i].0.Add(at))
    ensures ValidIn(reg, w1, at, r, NonNull, vs) == ValidIn(reg, w2, at, r, NonNull, vs)
  {
    if vs != [] {
      var init := vs[..|vs| - 1];
      assert forall i :: 0 <= i < |init| ==> init[i] == vs[i];
      WildcardsIgnored(reg, w1, w2, at, r, init);
    }
  }

  /** Two visit sequences that agree, position by position, on whether the visit counts give the same count. */
  lemma {:induction false} ValidInPointwise(reg: Registry, w1: World, at1: Pos, r1: Rotation, w2: World, at2: Pos, r2: Rotation,
                                            filter: MatchCategory, vs1: seq<Visit>, vs2: seq<Visit>)
    requires |vs1| == |vs2|
    requires forall i :: 0 <= i < |vs1| ==>
      (ValidAt(reg, w1, at1, r1, filter, vs1[i]) <==> ValidAt(reg, w2, at2, r2, filter, vs2[i]))
    ensures ValidIn(reg, w1, at1, r1, filter, vs1) == ValidIn(reg, w2, at2, r2, filter, vs2)
    decreases |vs1|
  {
    if vs1 != [] {
      var n := |vs1| - 1;
      var init1, init2 := vs1[..n], vs2[..n];
      forall i | 0 <= i < n
        ensures ValidAt(reg, w1, at1, r1, filter, init1[i]) <==> ValidAt(reg, w2, at2, r2, filter, init2[i])
      {
        assert init1[i] == vs1[i] && init2[i] == vs2[i];
      }
      ValidInPointwise(reg, w1, at1, r1, w2, at2, r2, filter, init1, init2);
      assert ValidAt(reg, w1, at1, r1, filter, vs1[n]) <==> ValidAt(reg, w2, at2, r2, filter, vs2[n]);
    }
  }

  /**
   * Turning a built structure turns the count with it: when the world `w'`
   * holds, at each cell's rotated position, the state `w` holds at the
   * unrotated one turned by `r`, countValidStates under `r` in `w'` equals the
   * unrotated count in `w`. This rests on the block-state rotation leaving
   * states alone under NONE and being undone by the inverse rotation.
   */
  lemma RotatedWorldSameCount(reg: Registry, w: World, w': World, at: Pos, grid: array3<Option<Predicate>>,
                              size: Dims, r: Rotation, filter: MatchCategory)
    requires forall s :: reg.rotateState(s, NoRotation) == s
    requires forall s :: reg.rotateState(reg.rotateState(s, r), Inverse(r)) == s
    requires forall p :: InBox(p, GridDims(grid)) ==>
      w'(Forward(r, p, size).Add(at)) == reg.rotateState(w(p.Add(at)), r)
    ensures ValidIn(reg, w', at, r, filter, Visits(grid, size, r)) ==
            ValidIn(reg, w, at, NoRotation, filter, Visits(grid, size, NoRotation))
  {
    var cs := Cells(GridDims(grid));
    var vr := Visits(grid, size, r);
    var v0 := Visits(grid, size, NoRotation);
    CellsExactlyOnce(GridDims(grid));
    VisitsOfIndex(grid, cs, size, r);
    VisitsOfIndex(grid, cs, size, NoRotation);
    forall i | 0 <= i < |vr|
      ensures ValidAt(reg, w', at, r, filter, vr[i]) <==> ValidAt(reg, w, at, NoRotation, filter, v0[i])
    {
      var c := cs[i];
      assert vr[i] == (Forward(r, c, size), CellAt(grid, c));
      assert v0[i] == (c, CellAt(grid, c));
      assert reg.rotateState(w'(vr[i].0.Add(at)), Inverse(r)) == w(c.Add(at));
      assert reg.rotateState(w(v0[i].0.Add(at)), Inverse(NoRotation)) == w(c.Add(at));
    }
    ValidInPointwise(reg, w', at, r, w, at, NoRotation, filter, vr, v0);
  }

  /** countValidStates' action over the visits: one for each visit of the filter's category that matches. */
  method CountMatching(reg: Registry, world: World, at: Pos, r: Rotation, filter: MatchCategory, vs: seq<Visit>)
    returns (count: nat)
    requires AllPresent(vs)
    ensures count == ValidIn(reg, world, at, r, filter, vs)
  {
    count := 0;
    var i := 0;
    while i < |vs|
      invariant 0 <= i <= |vs|
      invariant count == ValidIn(reg, world, at, r, filter, vs[..i])
    {
      assert vs[..i + 1][..i] == vs[..i];
      var pred := vs[i].1.value;
      if IsOf(pred, filter) && Matches(reg, pred, reg.rotateState(world(vs[i].0.Add(at)), Inverse(r))) {
        count := count + 1;
      }
      i := i + 1;
    }
    assert vs[..i] == vs;
  }

  class StructureTemplate {
    const id: string
    const predicates: array3<Option<Predicate>>
    const xSize: nat
    const ySize: nat
    const zSize: nat
    const anchor: Pos
    var predicateCountByType: map<MatchCategory, nat>

    function Size(): Dims
    {
      Dims(xSize, ySize, zSize)
    }

    /** Every cell holds a predicate and the counts are those of the cells. */
    ghost predicate Valid()
      reads this, predicates
    {
      var vs := Visits(predicates, Size(), NoRotation);
      AllPresent(vs) && predicateCountByType == CountMap(vs, AllCategories)
    }

    /** The fields, with an empty count map still to be filled. */
    constructor Init(id: string, predicates: array3<Option<Predicate>>, xSize: nat, ySize: nat, zSize: nat, anchor: Pos)
      ensures this.id == id && this.predicates == predicates && this.anchor == anchor
      ensures this.xSize == xSize && this.ySize == ySize && this.zSize == zSize
      ensures predicateCountByType == map[]
    {
      this.id := id;
      this.predicates := predicates;
      this.xSize := xSize;
      this.ySize := ySize;
      this.zSize := zSize;
      this.anchor := anchor;
      predicateCountByType := map[];
    }

    /**
     * The StructureTemplate constructor: the anchor defaults to
     * (xSize / 2, 0, ySize / 2) (the z part taken from ySize, as written), and
     * for each category in declaration order each visited predicate of that
     * category adds one to the category's count. A null cell makes the
     * first pass fail.
     */
    static method Create(id: string, predicates: array3<Option<Predicate>>, xSize: nat, ySize: nat, zSize: nat, anchor: Option<Pos>)
      returns (r: Result<StructureTemplate>)
      ensures r.Err? <==> exists i, j, k :: (0 <= i < predicates.Length0 && 0 <= j < predicates.Length1 && 0 <= k < predicates.Length2
        && predicates[i, j, k].None?)
      ensures r.Err? ==> r.error == NullCell
      ensures r.Ok? ==> var t := r.value;
        && fresh(t) && t.id == id && t.predicates == predicates
        && t.xSize == xSize && t.ySize == ySize && t.zSize == zSize
        && t.anchor == (if anchor.Some? then anchor.value else Pos(xSize / 2, 0, ySize / 2))
        && t.Valid()
    {
      var t := new StructureTemplate.Init(id, predicates, xSize, ySize, zSize,
                                          if anchor.Some? then anchor.value else Pos(xSize / 2, 0, ySize / 2));
      var vs := t.ForEachPredicate(NoRotation);
      NoNullCells(predicates, t.Size(), NoRotation);
      var ok := t.CountByType(vs);
      if !ok {
        return Err(NullCell);
      }
      r := Ok(t);
    }

    /** The constructor's counting: one pass over the visits per category, in declaration order. */
    method CountByType(vs: seq<Visit>) returns (ok: bool)
      requires predicateCountByType == map[]
      modifies this
      ensures ok <==> AllPresent(vs)
      ensures ok ==> predicateCountByType == CountMap(vs, AllCategories)
    {
      var k := 0;
      while k < |AllCategories|
        invariant 0 <= k <= |AllCategories|
        invariant k > 0 ==> AllPresent(vs)
        invariant predicateCountByType == CountMap(vs, AllCategories[..k])
      {
        var c := AllCategories[k];
        assert c !in AllCategories[..k];
        ok := Tally(vs, c);
        if !ok {
          return false;
        }
        assert AllCategories[..k + 1] == AllCategories[..k] + [c];
        k := k + 1;
      }
      assert AllCategories[..k] == AllCategories;
      ok := true;
    }

    /** One pass of the constructor's counting: each visited predicate of category `c` adds one to its count. */
    method Tally(vs: seq<Visit>, c: MatchCategory) returns (ok: bool)
      requires c !in predicateCountByType
      modifies this
      ensures ok <==> AllPresent(vs)
      ensures ok ==>
        predicateCountByType == old(predicateCountByType) + (if CountIn(vs, c) > 0 then map[c := CountIn(vs, c)] else map[])
    {
      var i := 0;
      while i < |vs|
        invariant 0 <= i <= |vs|
        invariant forall j :: 0 <= j < i ==> vs[j].1.Some?
        invariant predicateCountByType ==
          old(predicateCountByType) + (if CountIn(vs[..i], c) > 0 then map[c := CountIn(vs[..i], c)] else map[])
      {
        assert vs[..i + 1][..i] == vs[..i];
        if vs[i].1.None? {
          return false;
        }
        if IsOf(vs[i].1.value, c) {
          var counts := predicateCountByType;
          predicateCountByType := counts[c := (if c in counts then counts[c] else 0) + 1];
        }
        i := i + 1;
      }
      assert vs[..i] == vs;
      ok := true;
    }

    /**
     * forEachPredicate: x, then y, then z over the array's own lengths,
     * reporting each cell at its position turned by `r`; the sequence
     * returned is the sequence of calls the action receives.
     */
    method ForEachPredicate(r: Rotation) returns (vs: seq<Visit>)
      ensures vs == Visits(predicates, Size(), r)
    {
      var d := GridDims(predicates);
      vs := [];
      var x := 0;
      while x < predicates.Length0
        invariant 0 <= x <= predicates.Length0
        invariant Visits(predicates, Size(), r) == vs + VisitsOf(predicates, CellsFrom(d, x, 0, 0), Size(), r)
      {
        var slice := VisitSlice(r, x);
        ConcatStep(Visits(predicates, Size(), r), vs, slice,
          VisitsOf(predicates, CellsFrom(d, x, 0, 0), Size(), r), VisitsOf(predicates, CellsFrom(d, x + 1, 0, 0), Size(), r));
        vs := vs + slice;
        x := x + 1;
      }
      assert CellsFrom(d, x, 0, 0) == [];
    }

    /** The middle loop of forEachPredicate: the cells (x, y, z) for every y and z. */
    method VisitSlice(r: Rotation, x: nat) returns (slice: seq<Visit>)
      requires x < predicates.Length0
      ensures VisitsOf(predicates, CellsFrom(GridDims(predicates), x, 0, 0), Size(), r)
        == slice + VisitsOf(predicates, CellsFrom(GridDims(predicates), x + 1, 0, 0), Size(), r)
    {
      var d := GridDims(predicates);
      slice := [];
      var y := 0;
      while y < predicates.Length1
        invariant 0 <= y <= predicates.Length1
        invariant VisitsOf(predicates, CellsFrom(d, x, 0, 0), Size(), r) == slice + VisitsOf(predicates, CellsFrom(d, x, y, 0), Size(), r)
      {
        var column := VisitColumn(r, x, y);
        ConcatStep(VisitsOf(predicates, CellsFrom(d, x, 0, 0), Size(), r), slice, column,
          VisitsOf(predicates, CellsFrom(d, x, y, 0), Size(), r), VisitsOf(predicates, CellsFrom(d, x, y + 1, 0), Size(), r));
        slice := slice + column;
        y := y + 1;
      }
      assert CellsFrom(d, x, y, 0) == CellsFrom(d, x + 1, 0, 0);
    }

    /** The innermost loop of forEachPredicate: the cells (x, y, z) for every z. */
    method VisitColumn(r: Rotation, x: nat, y: nat) returns (column: seq<Visit>)
      requires x < predicates.Length0 && y < predicates.Length1
      ensures VisitsOf(predicates, CellsFrom(GridDims(predicates), x, y, 0), Size(), r)
        == column + VisitsOf(predicates, CellsFrom(GridDims(predicates), x, y + 1, 0), Size(), r)
    {
      var d := GridDims(predicates);
      column := [];
      var z := 0;
      while z < predicates.Length2
        invariant 0 <= z <= predicates.Length2
        invariant VisitsOf(predicates, CellsFrom(d, x, y, 0), Size(), r) == column + VisitsOf(predicates, CellsFrom(d, x, y, z), Size(), r)
      {
        var p := Pos(x, y, z);
        var rest := VisitsOf(predicates, CellsFrom(d, x, y, z + 1), Size(), r);
        var v := (Forward(r, p, Size()), predicates[x, y, z]);
        assert CellsFrom(d, x, y, z) == [p] + CellsFrom(d, x, y, z + 1);
        VisitsOfCons(predicates, p, CellsFrom(d, x, y, z + 1), Size(), r);
        assert CellAt(predicates, p) == predicates[x, y, z];
        ConcatStep(VisitsOf(predicates, CellsFrom(d, x, y, 0), Size(), r), column, [v],
          VisitsOf(predicates, CellsFrom(d, x, y, z), Size(), r), rest);
        column := column + [v];
        z := z + 1;
      }
      assert CellsFrom(d, x, y, z) == CellsFrom(d, x, y + 1, 0);
    }

    /** The array's lengths are the template's sizes, as parse makes them. */
    predicate SizesMatch()
    {
      predicates.Length0 == xSize && predicates.Length1 == ySize && predicates.Length2 == zSize
    }

    /**
     * predicatesOfType: the stored count of a category. A category no
     * predicate falls into has no entry, and the source's lookup then throws
     * (None here).
     */
    function PredicatesOfType(c: MatchCategory): (r: Option<nat>)
      requires Valid()
      reads this, predicates
      ensures r.Some? <==> CountIn(Visits(predicates, Size(), NoRotation), c) > 0
      ensures r.Some? ==> r.value == CountIn(Visits(predicates, Size(), NoRotation), c)
    {
      if c in predicateCountByType then Some(predicateCountByType[c]) else None
    }

    /**
     * countValidStates: over the cells visited with rotation `r`, the
     * predicates of category `filter` that match the world's state at the
     * cell's position plus `at`, turned back by the inverse rotation.
     */
    method CountValidStates(reg: Registry, world: World, at: Pos, r: Rotation, filter: MatchCategory) returns (count: nat)
      requires Valid()
      ensures count == ValidIn(reg, world, at, r, filter, Visits(predicates, Size(), r))
      ensures count <= CountIn(Visits(predicates, Size(), NoRotation), filter)
    {
      var vs := ForEachPredicate(r);
      VisitsSamePredicates(predicates, Size(), r);
      count := CountMatching(reg, world, at, r, filter, vs);
      ValidInBounded(reg, world, at, r, filter, vs);
      CountInSamePredicates(vs, Visits(predicates, Size(), NoRotation), filter);
    }

    /**
     * validate: the NON_NULL count equals the number of NON_NULL
     * predicates, that is, every predicate other than the wildcard matches.
     * A template without one has no NON_NULL entry and the lookup throws (None).
     */
    method Validate(reg: Registry, world: World, at: Pos, r: Rotation) returns (ok: Option<bool>)
      requires Valid()
      ensures ok.None? <==> CountIn(Visits(predicates, Size(), NoRotation), NonNull) == 0
      ensures ok.Some? ==> (ok.value <==>
        forall i :: 0 <= i < |Visits(predicates, Size(), r)| && Visits(predicates, Size(), r)[i].1.Some? && IsOf(Visits(predicates, Size(), r)[i].1.value, NonNull) ==>
          ValidAt(reg, world, at, r, NonNull, Visits(predicates, Size(), r)[i]))
    {
      var count := CountValidStates(reg, world, at, r, NonNull);
      var expected := PredicatesOfType(NonNull);
      if expected.None? {
        return None;
      }
      ok := Some(count == expected.value);
      var vs := Visits(predicates, Size(), r);
      VisitsSamePredicates(predicates, Size(), r);
      CountInSamePredicates(vs, Visits(predicates, Size(), NoRotation), NonNull);
      ValidInBounded(reg, world, at, r, NonNull, vs);
    }

    /** forEach: the unrotated visits, each handed over as a (position, predicate) pair. */
    method ForEach() returns (pairs: seq<Visit>)
      ensures pairs == Visits(predicates, Size(), NoRotation)
    {
      pairs := ForEachPredicate(NoRotation);
    }
  }

  /** Re-associating a traversal's done part with the next piece of its rest. */
  lemma ConcatStep<T>(whole: seq<T>, done: seq<T>, piece: seq<T>, rest: seq<T>, rest': seq<T>)
    requires whole == done + rest && rest == piece + rest'
    ensures whole == (done + piece) + rest'
  {
  }

  lemma {:induction false} VisitsOfPrefix(grid: array3<Option<Predicate>>, a: seq<Pos>, b: seq<Pos>, size: Dims, r: Rotation)
    requires a <= b
    ensures VisitsOf(grid, a, size, r) <= VisitsOf(grid, b, size, r)
    decreases |a|
  {
    if a != [] {
      assert a[1..] <= b[1..];
      VisitsOfPrefix(grid, a[1..], b[1..], size, r);
    }
  }

  /**
   * StructureTemplateIterator: a cursor over the template's cells that
   * reports each cell at its rotated position and advances z, then y, then x.
   */
  class StructureTemplateIterator {
    const template: StructureTemplate
    const rotation: Rotation
    var posX: int
    var posY: int
    var posZ: int

    function Cursor(): Pos
      reads this
    {
      Pos(posX, posY, posZ)
    }

    ghost predicate Valid()
      reads this
    {
      0 <= posX && 0 <= posY && 0 <= posZ
    }

    constructor (template: StructureTemplate, rotation: Rotation)
      ensures this.template == template && this.rotation == rotation
      ensures Cursor() == Origin && Valid()
    {
      this.template := template;
      this.rotation := rotation;
      posX, posY, posZ := 0, 0, 0;
    }

    /** hasNext, as written: every coordinate below its size minus one; when it holds, the cursor is a cell of the grid. */
    predicate HasNext()
      reads this
      ensures HasNext() && Valid() ==> InBox(Cursor(), template.Size())
    {
      HasNextAsWritten(template.Size(), Cursor())
    }

    /**
     * next: without a next element it throws NoSuchElementException (None);
     * otherwise it yields the cell under the cursor at its rotated position
     * and advances the cursor.
     */
    method Next() returns (e: Option<Visit>)
      requires Valid() && template.SizesMatch()
      modifies this
      ensures Valid()
      ensures old(HasNext()) ==>
        && e == Some((Forward(rotation, old(Cursor()), template.Size()), CellAt(template.predicates, old(Cursor()))))
        && Cursor() == Advance(template.Size(), old(Cursor()))
      ensures !old(HasNext()) ==> e == None && Cursor() == old(Cursor())
    {
      if !HasNext() {
        return None;
      }
      var d := template.Size();
      var current := Forward(rotation, Cursor(), d);
      e := Some((current, template.predicates[posX, posY, posZ]));
      var next := Advance(d, Cursor());
      posX, posY, posZ := next.x, next.y, next.z;
    }
  }

  /**
   * A caller draining a fresh iterator (`while (it.hasNext()) it.next()`):
   * it receives the visits of the cells `DrainAsWritten` lists, which are a
   * prefix of forEachPredicate's visits, and strictly shorter unless the
   * template is empty.
   */
  method DrainIterator(t: StructureTemplate, rotation: Rotation) returns (items: seq<Visit>)
    requires t.SizesMatch()
    ensures |items| == |DrainAsWritten(t.Size(), Origin)|
    ensures items == VisitsOf(t.predicates, DrainAsWritten(t.Size(), Origin), t.Size(), rotation)
    ensures items <= Visits(t.predicates, t.Size(), rotation)
    ensures |items| < |Visits(t.predicates, t.Size(), rotation)| || |Visits(t.predicates, t.Size(), rotation)| == 0
  {
    var it := new StructureTemplateIterator(t, rotation);
    items := [];
    ghost var d := t.Size();
    ghost var whole := VisitsOf(t.predicates, DrainAsWritten(d, Origin), d, rotation);
    while it.HasNext()
      invariant it.Valid() && it.template == t && it.rotation == rotation
      invariant whole == items + VisitsOf(t.predicates, DrainAsWritten(d, it.Cursor()), d, rotation)
      decreases |DrainAsWritten(d, it.Cursor())|
    {
      ghost var p := it.Cursor();
      DrainStep(t.predicates, d, rotation, p);
      var e := it.Next();
      ConcatStep(whole, items, [e.value], VisitsOf(t.predicates, DrainAsWritten(d, p), d, rotation),
        VisitsOf(t.predicates, DrainAsWritten(d, it.Cursor()), d, rotation));
      items := items + [e.value];
    }
    DrainedVisitsArePrefix(t.predicates, d, rotation);
  }

  /** One step of draining: the cursor's visit, then the rest from the advanced cursor. */
  lemma DrainStep(grid: array3<Option<Predicate>>, size: Dims, r: Rotation, p: Pos)
    requires HasNextAsWritten(size, p)
    ensures |DrainAsWritten(size, p)| == 1 + |DrainAsWritten(size, Advance(size, p))|
    ensures VisitsOf(grid, DrainAsWritten(size, p), size, r)
      == [(Forward(r, p, size), CellAt(grid, p))] + VisitsOf(grid, DrainAsWritten(size, Advance(size, p)), size, r)
  {
    VisitsOfCons(grid, p, DrainAsWritten(size, Advance(size, p)), size, r);
  }

  lemma DrainedVisitsArePrefix(grid: array3<Option<Predicate>>, size: Dims, r: Rotation)
    requires GridDims(grid) == size
    ensures VisitsOf(grid, DrainAsWritten(size, Origin), size, r) <= Visits(grid, size, r)
    ensures |DrainAsWritten(size, Origin)| < |Visits(grid, size, r)| || |Visits(grid, size, r)| == 0
  {
    DrainAsWrittenIsPrefix(size);
    VisitsOfPrefix(grid, DrainAsWritten(size, Origin), Cells(size), size, r);
  }

  // --- parse ---

  /** What parse checks, in order: the legend, then the shape, then the cells. */
  function ParseCheck(reg: Registry, entries: seq<Entry>, layers: seq<Json>): Result<(map<char, Predicate>, Dims, Option<Pos>)>
  {
    match CompileKeys(reg, entries, map[])
    case Err(e) => Err(e)
    case Ok(keys) =>
      match Shape(layers)
      case Err(e) => Err(e)
      case Ok(d) =>
        match Scan(keys, Texts(layers), 0, 0, 0, None)
        case Err(e) => Err(e)
        case Ok(anchor) => Ok((keys, d, anchor))
  }

  /**
   * parse: compile the legend, take the sizes from the layers, allocate the
   * array and fill it cell by cell, then construct the template. The first
   * failing stage decides the error; when all pass, construction fails
   * exactly when some cell of the box is reached by no row.
   */
  method Parse(reg: Registry, id: string, entries: seq<Entry>, layers: seq<Json>) returns (r: Result<StructureTemplate>)
    ensures ParseCheck(reg, entries, layers).Err? ==> r.Err? && r.error == ParseCheck(reg, entries, layers).error
    ensures ParseCheck(reg, entries, layers).Ok? ==>
      var (keys, d, anchor) := ParseCheck(reg, entries, layers).value;
      && (r.Err? <==> exists p :: InBox(p, d) && !Exists(Texts(layers), p))
      && (r.Err? ==> r.error == NullCell)
      && (r.Ok? ==>
            && fresh(r.value) && r.value.id == id && r.value.Size() == d && r.value.SizesMatch()
            && r.value.anchor == (if anchor.Some? then anchor.value else Pos(d.x / 2, 0, d.y / 2))
            && r.value.Valid()
            && forall p :: InBox(p, d) ==> CellAt(r.value.predicates, p) == CellSpec(keys, Texts(layers), p))
  {
    var keys := BuildStructureKeysMap(reg, entries);
    if keys.Err? {
      return Err(keys.error);
    }
    var shape := CheckShape(layers);
    if shape.Err? {
      return Err(shape.error);
    }
    var d := shape.value;
    var g := Texts(layers);
    ShapeFits(layers);
    var grid, scan := FillGrid(keys.value, g, d);
    if scan.Err? {
      return Err(scan.error);
    }
    ScanCorrect(keys.value, g);
    r := StructureTemplate.Create(id, grid, d.x, d.y, d.z, scan.value);
    NullCellsAreUnreached(keys.value, g, d, grid);
  }

  /** After a successful cell pass, a cell is null exactly when no row reaches it. */
  lemma NullCellsAreUnreached(keys: map<char, Predicate>, g: seq<seq<string>>, d: Dims, grid: array3<Option<Predicate>>)
    requires GridDims(grid) == d
    requires forall p :: Exists(g, p) ==> Known(keys, CharAt(g, p))
    requires forall i, j, k :: 0 <= i < d.x && 0 <= j < d.y && 0 <= k < d.z ==> grid[i, j, k] == CellSpec(keys, g, Pos(i, j, k))
    ensures (exists i, j, k :: 0 <= i < d.x && 0 <= j < d.y && 0 <= k < d.z && grid[i, j, k].None?) <==>
      exists p :: InBox(p, d) && !Exists(g, p)
  {
    if exists p :: InBox(p, d) && !Exists(g, p) {
      var p :| InBox(p, d) && !Exists(g, p);
      assert grid[p.x, p.y, p.z].None?;
    }
    if exists i, j, k :: 0 <= i < d.x && 0 <= j < d.y && 0 <= k < d.z && grid[i, j, k].None? {
      var i, j, k :| 0 <= i < d.x && 0 <= j < d.y && 0 <= k < d.z && grid[i, j, k].None?;
      assert InBox(Pos(i, j, k), d) && !Exists(g, Pos(i, j, k));
    }
  }
}


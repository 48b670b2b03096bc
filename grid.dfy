/**
 * The `layers` half of StructureTemplate.parse: the shape pass that fixes
 * xSize, ySize and zSize, and the cell pass that resolves every character
 * of every row into a predicate, finds the anchor and fills the 3-D array.
 */
module Grid {
  import opened Rotations
  import opened Predicates
  import opened Wrappers
  import opened Legend

  // --- shape pass ---

  /**
   * The rows of one layer from index `j` on, with the row length found so
   * far: the first nonzero length fixes xSize, any other length after that fails.
   */
  function RowsFrom(rows: seq<Json>, j: nat, xSize: nat): Result<nat>
    decreases |rows| - j
  {
    if j >= |rows| then Ok(xSize)
    else if !rows[j].Prim? then Err(RowNotPrimitive)
    else
      var len := |rows[j].text|;
      if xSize == 0 then RowsFrom(rows, j + 1, len)
      else if xSize != len then Err(RowLength)
      else RowsFrom(rows, j + 1, xSize)
  }

  /** The layers from index `i` on, with zSize and xSize found so far. */
  function LayersFrom(layers: seq<Json>, i: nat, zSize: nat, xSize: nat): Result<(nat, nat)>
    decreases |layers| - i
  {
    if i >= |layers| then Ok((zSize, xSize))
    else if !layers[i].Arr? then Err(LayerNotArray)
    else
      var rows := layers[i].elems;
      if zSize != 0 && zSize != |rows| then Err(LayerRowCount)
      else
        var z' := if zSize == 0 then |rows| else zSize;
        match RowsFrom(rows, 0, xSize)
        case Err(e) => Err(e)
        case Ok(x') => LayersFrom(layers, i + 1, z', x')
  }

  /** The sizes the shape pass settles on, or its error. */
  function Shape(layers: seq<Json>): Result<Dims>
  {
    match LayersFrom(layers, 0, 0, 0)
    case Err(e) => Err(e)
    case Ok(zx) => Ok(Dims(zx.1, |layers|, zx.0))
  }

  lemma {:induction false} RowsFromFacts(rows: seq<Json>, j: nat, xSize: nat)
    requires RowsFrom(rows, j, xSize).Ok?
    ensures var x := RowsFrom(rows, j, xSize).value;
      && (xSize != 0 ==> x == xSize)
      && (forall a :: j <= a < |rows| ==>
            rows[a].Prim? && (|rows[a].text| == 0 || |rows[a].text| == x)
            && (xSize != 0 ==> |rows[a].text| == x))
      && (forall a, b :: j <= a < b < |rows| && |rows[a].text| != 0 ==> |rows[b].text| == x != 0)
      && (x == 0 <==> xSize == 0 && forall a :: j <= a < |rows| ==> |rows[a].text| == 0)
    decreases |rows| - j
  {
    if j < |rows| {
      var len := |rows[j].text|;
      RowsFromFacts(rows, j + 1, if xSize == 0 then len else xSize);
    }
  }

  lemma {:induction false} LayersFromFacts(layers: seq<Json>, i: nat, zSize: nat, xSize: nat)
    requires LayersFrom(layers, i, zSize, xSize).Ok?
    ensures var zx := LayersFrom(layers, i, zSize, xSize).value;
      && (zSize != 0 ==> zx.0 == zSize)
      && (xSize != 0 ==> zx.1 == xSize)
      && (forall a :: i <= a < |layers| ==>
            layers[a].Arr? && (|layers[a].elems| == 0 || |layers[a].elems| == zx.0)
            && (zSize != 0 ==> |layers[a].elems| == zx.0))
      && (forall a, b :: i <= a < b < |layers| && |layers[a].elems| != 0 ==> |layers[b].elems| != 0)
      && (forall a, b :: i <= a < |layers| && 0 <= b < |layers[a].elems| ==>
            layers[a].elems[b].Prim?
            && (|layers[a].elems[b].text| == 0 || |layers[a].elems[b].text| == zx.1))
    decreases |layers| - i
  {
    if i < |layers| {
      var rows := layers[i].elems;
      var z' := if zSize == 0 then |rows| else zSize;
      RowsFromFacts(rows, 0, xSize);
      var x' := RowsFrom(rows, 0, xSize).value;
      LayersFromFacts(layers, i + 1, z', x');
    }
  }

  /**
   * After a successful shape pass ySize is the number of layers, each layer
   * is an array with 0 or zSize rows (and an empty layer never follows a
   * nonempty one), and each row is a primitive of length 0 or xSize.
   */
  lemma ShapeFacts(layers: seq<Json>)
    requires Shape(layers).Ok?
    ensures var d := Shape(layers).value;
      && d.y == |layers|
      && (forall a :: 0 <= a < |layers| ==>
            layers[a].Arr? && (|layers[a].elems| == 0 || |layers[a].elems| == d.z))
      && (forall a, b :: 0 <= a < b < |layers| && |layers[a].elems| != 0 ==> |layers[b].elems| != 0)
      && (forall a, b :: 0 <= a < |layers| && 0 <= b < |layers[a].elems| ==>
            layers[a].elems[b].Prim?
            && (|layers[a].elems[b].text| == 0 || |layers[a].elems[b].text| == d.x))
  {
    LayersFromFacts(layers, 0, 0, 0);
  }

  lemma NonArrayLayerFails(layers: seq<Json>, a: nat)
    requires a < |layers| && !layers[a].Arr?
    ensures Shape(layers).Err?
  {
    if Shape(layers).Ok? { ShapeFacts(layers); }
  }

  lemma NonPrimitiveRowFails(layers: seq<Json>, a: nat, b: nat)
    requires a < |layers| && layers[a].Arr? && b < |layers[a].elems| && !layers[a].elems[b].Prim?
    ensures Shape(layers).Err?
  {
    if Shape(layers).Ok? { ShapeFacts(layers); }
  }

  /** A later layer with a different row count than a nonempty earlier one, zero included, fails. */
  lemma LayerSizesDifferFail(layers: seq<Json>, a: nat, b: nat)
    requires a < b < |layers| && layers[a].Arr? && layers[b].Arr?
    requires |layers[a].elems| != 0 && |layers[b].elems| != |layers[a].elems|
    ensures Shape(layers).Err?
  {
    if Shape(layers).Ok? { ShapeFacts(layers); }
  }

  /** Two nonempty rows of different lengths, in any layers, fail. */
  lemma RowLengthsDifferFail(layers: seq<Json>, a: nat, b: nat, a': nat, b': nat)
    requires a < |layers| && layers[a].Arr? && b < |layers[a].elems| && layers[a].elems[b].Prim?
    requires a' < |layers| && layers[a'].Arr? && b' < |layers[a'].elems| && layers[a'].elems[b'].Prim?
    requires |layers[a].elems[b].text| != 0 && |layers[a'].elems[b'].text| != 0
    requires |layers[a].elems[b].text| != |layers[a'].elems[b'].text|
    ensures Shape(layers).Err?
  {
    if Shape(layers).Ok? { ShapeFacts(layers); }
  }

  /** Every layer an array of zSize rows, every row a primitive of length xSize. */
  predicate Rectangular(layers: seq<Json>, xSize: nat, zSize: nat)
  {
    forall a :: 0 <= a < |layers| ==>
      layers[a].Arr? && |layers[a].elems| == zSize
      && forall b :: 0 <= b < zSize ==> layers[a].elems[b].Prim? && |layers[a].elems[b].text| == xSize
  }

  lemma {:induction false} RectangularRows(rows: seq<Json>, j: nat, xSize: nat, x: nat)
    requires j <= |rows| && (x == 0 || x == xSize)
    requires forall b :: j <= b < |rows| ==> rows[b].Prim? && |rows[b].text| == xSize
    ensures RowsFrom(rows, j, x) == Ok(if j < |rows| then xSize else x)
    decreases |rows| - j
  {
    if j < |rows| {
      RectangularRows(rows, j + 1, xSize, xSize);
    }
  }

  lemma {:induction false} RectangularLayers(layers: seq<Json>, i: nat, xSize: nat, zSize: nat, z: nat, x: nat)
    requires i <= |layers| && zSize > 0 && Rectangular(layers, xSize, zSize)
    requires if i == 0 then z == 0 && x == 0 else z == zSize && x == xSize
    ensures LayersFrom(layers, i, z, x) == Ok(if i < |layers| || i > 0 then (zSize, xSize) else (0, 0))
    decreases |layers| - i
  {
    if i < |layers| {
      RectangularRows(layers[i].elems, 0, xSize, x);
      RectangularLayers(layers, i + 1, xSize, zSize, zSize, xSize);
    }
  }

  /** A nonempty rectangular grid passes the shape check with exactly its sizes. */
  lemma RectangularShape(layers: seq<Json>, xSize: nat, zSize: nat)
    requires |layers| > 0 && zSize > 0 && Rectangular(layers, xSize, zSize)
    ensures Shape(layers) == Ok(Dims(xSize, |layers|, zSize))
  {
    RectangularLayers(layers, 0, xSize, zSize, 0, 0);
  }

  /** What remains of the shape pass once layer `i`'s rows have given `rows`. */
  function AfterRows(layers: seq<Json>, i: nat, zSize: nat, rows: Result<nat>): Result<(nat, nat)>
  {
    match rows
    case Err(e) => Err(e)
    case Ok(x) => LayersFrom(layers, i + 1, zSize, x)
  }

  /**
   * The shape pass of parse: for each layer, it must be an array, its row
   * count fixes or must equal zSize, and for each of its rows, it must be a
   * primitive whose length fixes or must equal xSize.
   */
  method CheckShape(layers: seq<Json>) returns (r: Result<Dims>)
    ensures r == Shape(layers)
  {
    var xSize: nat, ySize: nat, zSize: nat := 0, |layers|, 0;
    var i := 0;
    while i < |layers|
      invariant 0 <= i <= |layers|
      invariant LayersFrom(layers, 0, 0, 0) == LayersFrom(layers, i, zSize, xSize)
    {
      if !layers[i].Arr? {
        return Err(LayerNotArray);
      }
      var layer := layers[i].elems;
      ghost var x0 := xSize;
      if zSize == 0 {
        zSize := |layer|;
      } else if zSize != |layer| {
        return Err(LayerRowCount);
      }
      var j := 0;
      while j < |layer|
        invariant 0 <= j <= |layer|
        invariant LayersFrom(layers, 0, 0, 0) == AfterRows(layers, i, zSize, RowsFrom(layer, j, xSize))
      {
        if !layer[j].Prim? {
          return Err(RowNotPrimitive);
        }
        if xSize == 0 {
          xSize := |layer[j].text|;
        } else if xSize != |layer[j].text| {
          return Err(RowLength);
        }
        j := j + 1;
      }
      i := i + 1;
    }
    r := Ok(Dims(xSize, ySize, zSize));
  }

  // --- cell pass ---

  /** The row strings of the layers, as the cell pass reads them. */
  function Texts(layers: seq<Json>): (g: seq<seq<string>>)
    ensures |g| == |layers|
  {
    seq(|layers|, y requires 0 <= y < |layers| => RowTexts(layers[y]))
  }

  function RowTexts(layer: Json): (rows: seq<string>)
    ensures layer.Arr? ==> |rows| == |layer.elems|
  {
    match layer
    case Arr(es) => seq(|es|, z requires 0 <= z < |es| => if es[z].Prim? then es[z].text else "")
    case _ => []
  }

  /** Position (x, y, z) names a character: character x of row z of layer y. */
  predicate Exists(g: seq<seq<string>>, p: Pos)
  {
    0 <= p.y < |g| && 0 <= p.z < |g[p.y]| && 0 <= p.x < |g[p.y][p.z]|
  }

  function CharAt(g: seq<seq<string>>, p: Pos): char
    requires Exists(g, p)
  {
    g[p.y][p.z][p.x]
  }

  /** A character the grid may use: a legend key, the wildcard ' ' or the air marker '_'. */
  predicate Known(keys: map<char, Predicate>, c: char)
  {
    c in keys || c == NullKey || c == AirKey
  }

  /** A cell that declares the anchor: '#' where the legend has an "anchor" entry. */
  predicate AnchorAt(keys: map<char, Predicate>, g: seq<seq<string>>, p: Pos)
  {
    Exists(g, p) && CharAt(g, p) == AnchorKey && AnchorKey in keys
  }

  /** `p` is at or after (x, y, z) in the cell pass's order: y outermost, then z, then x. */
  predicate After(p: Pos, y: int, z: int, x: int)
  {
    p.y > y || (p.y == y && (p.z > z || (p.z == z && p.x >= x)))
  }

  /** The predicate a grid character stands for. */
  function Resolve(keys: map<char, Predicate>, c: char): (r: Option<Predicate>)
    ensures r.Some? <==> Known(keys, c)
    ensures c in keys ==> r == Some(keys[c])
    ensures c !in keys && c == NullKey ==> r == Some(AnyState)
    ensures c !in keys && c == AirKey ==> r == Some(AirState)
  {
    if c in keys then Some(keys[c])
    else if c == NullKey then Some(AnyState)
    else if c == AirKey then Some(AirState)
    else None
  }

  /** What the cell pass writes at array position `p`; cells no row reaches stay null. */
  function CellSpec(keys: map<char, Predicate>, g: seq<seq<string>>, p: Pos): Option<Predicate>
  {
    if Exists(g, p) then Resolve(keys, CharAt(g, p)) else None
  }

  /** One character of the cell pass, with the anchor found so far. */
  function Step(keys: map<char, Predicate>, c: char, p: Pos, anchor: Option<Pos>): Result<Option<Pos>>
  {
    if c in keys then
      if c == AnchorKey then
        if anchor.Some? then Err(DuplicateAnchor) else Ok(Some(p))
      else Ok(anchor)
    else if c == NullKey || c == AirKey then Ok(anchor)
    else Err(UnknownKey(c))
  }

  /** The cell pass from (x, y, z) on: its errors and the anchor it finds. */
  function Scan(keys: map<char, Predicate>, g: seq<seq<string>>, y: nat, z: nat, x: nat, anchor: Option<Pos>): Result<Option<Pos>>
    decreases |g| - y, (if y < |g| then |g[y]| - z else 0), (if y < |g| && z < |g[y]| then |g[y][z]| - x else 0)
  {
    if y >= |g| then Ok(anchor)
    else if z >= |g[y]| then Scan(keys, g, y + 1, 0, 0, anchor)
    else if x >= |g[y][z]| then Scan(keys, g, y, z + 1, 0, anchor)
    else
      match Step(keys, g[y][z][x], Pos(x, y, z), anchor)
      case Err(e) => Err(e)
      case Ok(a) => Scan(keys, g, y, z, x + 1, a)
  }

  /** The rest of the grid uses only known characters and declares the anchor at most once overall. */
  ghost predicate RestOk(keys: map<char, Predicate>, g: seq<seq<string>>, y: int, z: int, x: int, anchor: Option<Pos>)
  {
    && (forall p :: Exists(g, p) && After(p, y, z, x) ==> Known(keys, CharAt(g, p)))
    && (forall p, q :: AnchorAt(keys, g, p) && AnchorAt(keys, g, q) && After(p, y, z, x) && After(q, y, z, x) ==> p == q)
    && (anchor.Some? ==> forall p :: AnchorAt(keys, g, p) ==> !After(p, y, z, x))
  }

  lemma {:induction false} ScanFrom(keys: map<char, Predicate>, g: seq<seq<string>>, y: nat, z: nat, x: nat, anchor: Option<Pos>)
    ensures Scan(keys, g, y, z, x, anchor).Ok? <==> RestOk(keys, g, y, z, x, anchor)
    ensures Scan(keys, g, y, z, x, anchor).Err? ==>
      Scan(keys, g, y, z, x, anchor).error.UnknownKey? || Scan(keys, g, y, z, x, anchor).error == DuplicateAnchor
    ensures Scan(keys, g, y, z, x, anchor).Ok? ==>
      var b := Scan(keys, g, y, z, x, anchor).value;
      && (forall p :: AnchorAt(keys, g, p) && After(p, y, z, x) ==> b == Some(p))
      && ((forall p :: AnchorAt(keys, g, p) ==> !After(p, y, z, x)) ==> b == anchor)
    decreases |g| - y, (if y < |g| then |g[y]| - z else 0), (if y < |g| && z < |g[y]| then |g[y][z]| - x else 0), 1
  {
    if y >= |g| {
    } else if z >= |g[y]| {
      ScanFrom(keys, g, y + 1, 0, 0, anchor);
      assert forall p :: Exists(g, p) ==> (After(p, y, z, x) <==> After(p, y + 1, 0, 0));
    } else if x >= |g[y][z]| {
      ScanFrom(keys, g, y, z + 1, 0, anchor);
      assert forall p :: Exists(g, p) ==> (After(p, y, z, x) <==> After(p, y, z + 1, 0));
    } else {
      ScanFromCell(keys, g, y, z, x, anchor);
    }
  }

  /** ScanFrom at a character of a row: the step there, then the pass from the next character. */
  lemma {:induction false} ScanFromCell(keys: map<char, Predicate>, g: seq<seq<string>>, y: nat, z: nat, x: nat, anchor: Option<Pos>)
    requires y < |g| && z < |g[y]| && x < |g[y][z]|
    ensures Scan(keys, g, y, z, x, anchor).Ok? <==> RestOk(keys, g, y, z, x, anchor)
    ensures Scan(keys, g, y, z, x, anchor).Err? ==>
      Scan(keys, g, y, z, x, anchor).error.UnknownKey? || Scan(keys, g, y, z, x, anchor).error == DuplicateAnchor
    ensures Scan(keys, g, y, z, x, anchor).Ok? ==>
      var b := Scan(keys, g, y, z, x, anchor).value;
      && (forall p :: AnchorAt(keys, g, p) && After(p, y, z, x) ==> b == Some(p))
      && ((forall p :: AnchorAt(keys, g, p) ==> !After(p, y, z, x)) ==> b == anchor)
    decreases |g| - y, |g[y]| - z, |g[y][z]| - x, 0
  {
    var cur := Pos(x, y, z);
    var c := g[y][z][x];
    assert Exists(g, cur) && CharAt(g, cur) == c;
    assert forall p :: After(p, y, z, x) <==> p == cur || After(p, y, z, x + 1);
    var step := Step(keys, c, cur, anchor);
    if step.Ok? {
      ScanFrom(keys, g, y, z, x + 1, step.value);
      if AnchorAt(keys, g, cur) {
        assert step.value == Some(cur);
      }
    } else {
      assert !RestOk(keys, g, y, z, x, anchor) by {
        if step.error == DuplicateAnchor {
          assert AnchorAt(keys, g, cur) && After(cur, y, z, x);
        } else {
          assert !Known(keys, CharAt(g, cur));
        }
      }
    }
  }

  /**
   * The cell pass succeeds exactly when every character is '_', ' ' or a
   * legend key and '#' appears at most once; its anchor is then the '#'
   * cell, or none when there is no such cell. Any error is an unknown key
   * or a second anchor.
   */
  lemma ScanCorrect(keys: map<char, Predicate>, g: seq<seq<string>>)
    ensures Scan(keys, g, 0, 0, 0, None).Ok? <==>
      && (forall p :: Exists(g, p) ==> Known(keys, CharAt(g, p)))
      && (forall p, q :: AnchorAt(keys, g, p) && AnchorAt(keys, g, q) ==> p == q)
    ensures Scan(keys, g, 0, 0, 0, None).Err? ==>
      Scan(keys, g, 0, 0, 0, None).error.UnknownKey? || Scan(keys, g, 0, 0, 0, None).error == DuplicateAnchor
    ensures Scan(keys, g, 0, 0, 0, None).Ok? ==>
      var b := Scan(keys, g, 0, 0, 0, None).value;
      && (b.Some? ==> AnchorAt(keys, g, b.value))
      && (b.None? ==> forall p :: !AnchorAt(keys, g, p))
  {
    assert forall p :: Exists(g, p) ==> After(p, 0, 0, 0);
    ScanFrom(keys, g, 0, 0, 0, None);
  }

  /** Every row fits a box of size `d`, as the shape pass guarantees. */
  predicate Fits(g: seq<seq<string>>, d: Dims)
  {
    |g| == d.y
    && forall y :: 0 <= y < |g| ==> |g[y]| <= d.z && forall z :: 0 <= z < |g[y]| ==> |g[y][z]| <= d.x
  }

  lemma ShapeFits(layers: seq<Json>)
    requires Shape(layers).Ok?
    ensures Fits(Texts(layers), Shape(layers).value)
  {
    ShapeFacts(layers);
  }

  /** Cells the pass has already visited hold their predicate; the rest are still null. */
  ghost predicate FilledUpTo(grid: array3<Option<Predicate>>, keys: map<char, Predicate>, g: seq<seq<string>>, y: int, z: int, x: int)
    reads grid
  {
    forall i, j, k :: 0 <= i < grid.Length0 && 0 <= j < grid.Length1 && 0 <= k < grid.Length2 ==>
      grid[i, j, k] == if After(Pos(i, j, k), y, z, x) then None else CellSpec(keys, g, Pos(i, j, k))
  }

  /** Past the end of a row: the same cells remain as from the start of the next row. */
  lemma RowDone(grid: array3<Option<Predicate>>, keys: map<char, Predicate>, g: seq<seq<string>>, d: Dims, y: nat, z: nat)
    requires Fits(g, d) && grid.Length0 == d.x && grid.Length1 == d.y && grid.Length2 == d.z
    requires y < |g| && z < |g[y]| && FilledUpTo(grid, keys, g, y, z, |g[y][z]|)
    ensures FilledUpTo(grid, keys, g, y, z + 1, 0)
  {
    forall i, j, k | 0 <= i < d.x && 0 <= j < d.y && 0 <= k < d.z
      ensures grid[i, j, k] == if After(Pos(i, j, k), y, z + 1, 0) then None else CellSpec(keys, g, Pos(i, j, k))
    {
      if After(Pos(i, j, k), y, z, |g[y][z]|) != After(Pos(i, j, k), y, z + 1, 0) {
        assert !Exists(g, Pos(i, j, k));
      }
    }
  }

  /** Past the last row of a layer: the same cells remain as from the start of the next layer. */
  lemma LayerDone(grid: array3<Option<Predicate>>, keys: map<char, Predicate>, g: seq<seq<string>>, d: Dims, y: nat)
    requires Fits(g, d) && grid.Length0 == d.x && grid.Length1 == d.y && grid.Length2 == d.z
    requires y < |g| && FilledUpTo(grid, keys, g, y, |g[y]|, 0)
    ensures FilledUpTo(grid, keys, g, y + 1, 0, 0)
  {
    forall i, j, k | 0 <= i < d.x && 0 <= j < d.y && 0 <= k < d.z
      ensures grid[i, j, k] == if After(Pos(i, j, k), y + 1, 0, 0) then None else CellSpec(keys, g, Pos(i, j, k))
    {
      if After(Pos(i, j, k), y, |g[y]|, 0) != After(Pos(i, j, k), y + 1, 0, 0) {
        assert !Exists(g, Pos(i, j, k));
      }
    }
  }

  /**
   * One row of the cell pass: character by character, resolving each into
   * its predicate and writing it to the array. What remains of the pass
   * afterwards is `Scan` from the next row on.
   */
  method FillRow(grid: array3<Option<Predicate>>, keys: map<char, Predicate>, g: seq<seq<string>>, d: Dims,
                 y: nat, z: nat, anchor: Option<Pos>)
    returns (r: Result<Option<Pos>>)
    requires Fits(g, d) && grid.Length0 == d.x && grid.Length1 == d.y && grid.Length2 == d.z
    requires y < |g| && z < |g[y]| && FilledUpTo(grid, keys, g, y, z, 0)
    modifies grid
    ensures Scan(keys, g, y, z, 0, anchor) == if r.Err? then r else Scan(keys, g, y, z + 1, 0, r.value)
    ensures r.Ok? ==> FilledUpTo(grid, keys, g, y, z + 1, 0)
  {
    var row := g[y][z];
    var current := anchor;
    var x := 0;
    while x < |row|
      invariant 0 <= x <= |row|
      invariant Scan(keys, g, y, z, 0, anchor) == Scan(keys, g, y, z, x, current)
      invariant FilledUpTo(grid, keys, g, y, z, x)
    {
      var key := row[x];
      var pred: Predicate;
      if key in keys {
        pred := keys[key];
        if key == AnchorKey {
          if current.Some? {
            return Err(DuplicateAnchor);
          }
          current := Some(Pos(x, y, z));
        }
      } else if key == NullKey {
        pred := AnyState;
      } else if key == AirKey {
        pred := AirState;
      } else {
        return Err(UnknownKey(key));
      }
      WriteCell(grid, keys, g, d, y, z, x, pred);
      x := x + 1;
    }
    RowDone(grid, keys, g, d, y, z);
    r := Ok(current);
  }

  /** `result[x][y][z] = predicate` for the character at (x, y, z), extending the filled part by that cell. */
  method WriteCell(grid: array3<Option<Predicate>>, keys: map<char, Predicate>, g: seq<seq<string>>, d: Dims,
                   y: nat, z: nat, x: nat, pred: Predicate)
    requires Fits(g, d) && grid.Length0 == d.x && grid.Length1 == d.y && grid.Length2 == d.z
    requires y < |g| && z < |g[y]| && x < |g[y][z]| && FilledUpTo(grid, keys, g, y, z, x)
    requires Resolve(keys, g[y][z][x]) == Some(pred)
    modifies grid
    ensures FilledUpTo(grid, keys, g, y, z, x + 1)
  {
    assert Exists(g, Pos(x, y, z)) && CellSpec(keys, g, Pos(x, y, z)) == Some(pred);
    grid[x, y, z] := Some(pred);
  }

  /**
   * The cell pass of parse over a freshly allocated xSize by ySize by zSize
   * array of nulls: layer by layer, row by row, character by character.
   * Its outcome is `Scan`'s; on success every cell holds what its grid
   * character stands for and cells no row reaches stay null.
   */
  method FillGrid(keys: map<char, Predicate>, g: seq<seq<string>>, d: Dims)
    returns (grid: array3<Option<Predicate>>, r: Result<Option<Pos>>)
    requires Fits(g, d)
    ensures fresh(grid)
    ensures grid.Length0 == d.x && grid.Length1 == d.y && grid.Length2 == d.z
    ensures r == Scan(keys, g, 0, 0, 0, None)
    ensures r.Ok? ==> forall i, j, k :: 0 <= i < d.x && 0 <= j < d.y && 0 <= k < d.z ==>
      grid[i, j, k] == CellSpec(keys, g, Pos(i, j, k))
  {
    grid := new Option<Predicate>[d.x, d.y, d.z]((i, j, k) => None);
    var anchor: Option<Pos> := None;
    var y := 0;
    while y < |g|
      invariant 0 <= y <= |g|
      invariant Scan(keys, g, 0, 0, 0, None) == Scan(keys, g, y, 0, 0, anchor)
      invariant FilledUpTo(grid, keys, g, y, 0, 0)
    {
      var z := 0;
      while z < |g[y]|
        invariant 0 <= z <= |g[y]|
        invariant Scan(keys, g, 0, 0, 0, None) == Scan(keys, g, y, z, 0, anchor)
        invariant FilledUpTo(grid, keys, g, y, z, 0)
      {
        r := FillRow(grid, keys, g, d, y, z, anchor);
        if r.Err? {
          return;
        }
        anchor := r.value;
        z := z + 1;
      }
      LayerDone(grid, keys, g, d, y);
      y := y + 1;
    }
    r := Ok(anchor);
  }
}

# Lavender structure templates and overlays, in Dafny

This project models two parts of Lavender, a Minecraft guide-book mod:

- **Structure templates.** A multiblock structure is read from JSON: a legend maps characters to block-state predicates, and a stack of layers of rows of characters says which predicate sits in each cell. The template keeps, per cell, a predicate that is a single block state, a block tag with loose properties, an alternation of those, "must be air" (`_`) or "anything" (` `). It counts its predicates per match category. It can list its cells turned by a block rotation. It counts, and checks, how many predicates the world at an anchor satisfies.
- **Structure overlays.** These are the client's bookkeeping of the overlays placed in the world. A map goes from anchor block to entry, and at most one pending overlay follows the player's aim until a right click places it.

The modules are:

- `Rotations`: positions, box sizes, the four block rotations, `inverse`, and the cell turn that `forEachPredicate` applies.
- `Predicates`: the predicate variants, their three-valued `test`, their preview states, and the tag predicate's constructor.
- `Legend`: `blockstateKeyForEntry`, `parseStringToBlockStatePredicate` and `buildStructureKeysMap`. The JSON parts of a template are modelled as a small `Json` value.
- `Grid`: the two passes of `parse`. The first checks the shape of the layers. The second fills the predicate array cell by cell and finds the anchor.
- `Enumeration`: the order in which the cells are visited, and the positions the template iterator steps through.
- `Template`: the `StructureTemplate` class, its constructor's counting, `forEachPredicate`, `forEach`, `countValidStates`, `validate`, `predicatesOfType`, the iterator class, and `parse` as a whole.
- `Overlay`: `OverlayEntry` and the static state of `StructureOverlayRenderer`, as a class with the active map and the pending entry. It also has the use-block handler's commit and `getPendingOffset`.

Java exceptions become `Err` values of a `Result` datatype. The causes are a malformed legend, a malformed layer, an unknown key, a second anchor, and a null cell. A null cell is one that no row reached: the array slot stays `null`, and the constructor's counting pass then fails on it. Each reported visit stands for one call of the action that `forEachPredicate` is given. Where the source loops, the model loops. Those methods are proved equal to a recursive specification function, and the properties are proved about that function.

Two facts are modelled as written:

- The default anchor is `(xSize / 2, 0, ySize / 2)`. Its third coordinate comes from `ySize`.
- `getLayerRestriction` ignores its structure argument.

## Model

| member | source | states |
|---|---|---|
| Rotations.Inverse | src/main/java/io/wispforest/lavender/structure/StructureTemplate.java:92-99 | NONE and CLOCKWISE_180 are their own inverse. CLOCKWISE_90 and COUNTERCLOCKWISE_90 are each other's, in both directions. |
| Rotations.InverseInvolution | src/main/java/io/wispforest/lavender/structure/StructureTemplate.java:92-99 | Inverting twice gives back the rotation. |
| Rotations.ComposeInverseCancels | src/main/java/io/wispforest/lavender/client/StructureOverlayRenderer.java:131-134 | Rotating by a turn and then by its inverse restores the rotation. Rotating by NONE changes nothing. |
| Rotations.RotatedDims | src/main/java/io/wispforest/lavender/structure/StructureTemplate.java:350-355 | The footprint of a turned template keeps its height and its volume. |
| Rotations.Forward | src/main/java/io/wispforest/lavender/structure/StructureTemplate.java:350-355 | A turned cell keeps its y. A cell of the box lands in the turned box. |
| Rotations.Backward | src/main/java/io/wispforest/lavender/structure/StructureTemplate.java:350-355 | Every position has a preimage under the turn, and one in the turned box has a preimage in the box. |
| Rotations.ForwardBijective | src/main/java/io/wispforest/lavender/structure/StructureTemplate.java:350-355 | The turn never sends two cells to one position, and it covers the turned box. |
| Predicates.BestOfIsBest | src/main/java/io/wispforest/lavender/structure/StructureTemplate.java:399-411 | Combining results gives STATE_MATCH iff some result is one, BLOCK_MATCH iff none is a state match and some is a block match, and NO_MATCH otherwise. |
| Predicates.NestedTestIsBest | src/main/java/io/wispforest/lavender/structure/StructureTemplate.java:399-411 | An alternation state-matches iff some child does. It block-matches iff no child state-matches and some child block-matches. An empty one never matches. |
| Predicates.TestNested | src/main/java/io/wispforest/lavender/structure/StructureTemplate.java:399-411 | The early-return loop computes the alternation's test. |
| Predicates.SingleTestCases | src/main/java/io/wispforest/lavender/structure/StructureTemplate.java:436-446 | NO_MATCH iff the block differs. STATE_MATCH iff the block is the same and every constrained property has the given value. |
| Predicates.TestSingle | src/main/java/io/wispforest/lavender/structure/StructureTemplate.java:436-446 | The early-return loop computes the single-state test. |
| Predicates.TagTestCases | src/main/java/io/wispforest/lavender/structure/StructureTemplate.java:488-506 | NO_MATCH iff the state is not in the tag. BLOCK_MATCH iff it is in the tag and some loose property is unknown to the block, does not parse, or differs from the value its string parses to. STATE_MATCH iff every loose property is known and parses, and the state holds the parsed value. |
| Predicates.LooseValueComparedParsed | src/main/java/io/wispforest/lavender/structure/StructureTemplate.java:497-501 | With loose `age=01` on a block whose `age` parses "01" to 1, a state with age 1 is a STATE_MATCH. |
| Predicates.TestTag | src/main/java/io/wispforest/lavender/structure/StructureTemplate.java:488-506 | The early-return loop computes the tag test. It compares each state value with the parsed loose value, not with the raw string. |
| Predicates.AnyStateAlwaysMatches | src/main/java/io/wispforest/lavender/structure/StructureTemplate.java:160-161 | The predicate of a ` ` cell matches every block state. |
| Predicates.FlattenMembers | src/main/java/io/wispforest/lavender/structure/StructureTemplate.java:390-395 | Concatenating preview arrays keeps exactly the states of the parts, and their total length. |
| Predicates.NestedPreviewConcat | src/main/java/io/wispforest/lavender/structure/StructureTemplate.java:390-395 | An alternation's preview is its children's previews concatenated in order. A state is in it iff it is in some child's preview. |
| Predicates.SinglePreview | src/main/java/io/wispforest/lavender/structure/StructureTemplate.java:428-432 | A single-state predicate previews exactly its state. |
| Predicates.ApplyVagueSetsParsed | src/main/java/io/wispforest/lavender/structure/StructureTemplate.java:468-481 | A tag member's preview keeps the block. It sets each loose property the block knows and can parse, to the value its string parses to. Every other property keeps the default state's value. |
| Predicates.MakeTag | src/main/java/io/wispforest/lavender/structure/StructureTemplate.java:465-484 | The tag predicate keeps its tag and loose properties. It has one preview state per tag member, in order: that member's default state with each parseable loose property set to its parsed value. |
| Legend.KeyForEntry | src/main/java/io/wispforest/lavender/structure/StructureTemplate.java:202-219 | A legend key is accepted iff it is one character other than `#`, `_` and ` `, or is the word `anchor`. `anchor` maps to `#`, and an accepted key never maps to `_` or ` `. |
| Legend.CompileBlockOrTag | src/main/java/io/wispforest/lavender/structure/StructureTemplate.java:221-232 | Succeeds iff the block-or-tag string parses. A block gives a single-state predicate with its properties. A tag gives exactly the tag predicate built from the tag, its members' default states and its vague properties. |
| Legend.CompileAll | src/main/java/io/wispforest/lavender/structure/StructureTemplate.java:188-192 | An array value compiles iff every element is a string that parses, with one predicate per element, in order. |
| Legend.CompileValue | src/main/java/io/wispforest/lavender/structure/StructureTemplate.java:188-197 | A string compiles by itself. An array compiles iff all its elements compile, and then to the alternation of exactly those compiled elements, one per element and in order. Any other value is an error. |
| Legend.KeySetMembers | src/main/java/io/wispforest/lavender/structure/StructureTemplate.java:178-180 | The set of legend keys is exactly the key of some entry. |
| Legend.LegendOkCons | src/main/java/io/wispforest/lavender/structure/StructureTemplate.java:178-199 | A legend is well-formed iff its first entry has a valid key and value, that key does not reappear, and the rest is well-formed. |
| Legend.CompileKeysOkIff | src/main/java/io/wispforest/lavender/structure/StructureTemplate.java:177-200 | Building on top of existing keys succeeds iff the legend is well-formed and none of its keys is already present. |
| Legend.CompileKeysContents | src/main/java/io/wispforest/lavender/structure/StructureTemplate.java:177-200 | The result holds the old keys unchanged plus exactly the legend's keys, each mapped to its compiled value. |
| Legend.CompileKeysCorrect | src/main/java/io/wispforest/lavender/structure/StructureTemplate.java:177-200 | The key map is built iff the legend is well-formed. Its keys are exactly the entries' keys, never `_` or ` `, and each maps to its entry's compiled predicate. |
| Legend.ReservedKeyFails | src/main/java/io/wispforest/lavender/structure/StructureTemplate.java:204-212 | A legend with a `#`, `_` or ` ` key is rejected. |
| Legend.RepeatedKeyFails | src/main/java/io/wispforest/lavender/structure/StructureTemplate.java:181-183 | A legend in which two entries give the same key (`#` and `anchor` included) is rejected. In the source the check cannot fire: JSON object names are distinct, and only `anchor` gives `#`. The model reaches it only through a repeated name in its entry sequence. |
| Legend.BuildStructureKeysMap | src/main/java/io/wispforest/lavender/structure/StructureTemplate.java:177-200 | The loop over the entries builds exactly the specified key map, or fails as it does. |
| Grid.RowsFromFacts | src/main/java/io/wispforest/lavender/structure/StructureTemplate.java:122-131 | After a successful row check, every row is a primitive of length 0 or xSize, and a known nonzero xSize is kept. A nonempty row is never followed by an empty one. xSize stays 0 iff it was 0 and every row is empty. |
| Grid.LayersFromFacts | src/main/java/io/wispforest/lavender/structure/StructureTemplate.java:111-132 | After a successful layer check, every layer is an array of 0 or zSize rows, and no empty layer follows a nonempty one. Every row is a primitive of length 0 or xSize. |
| Grid.ShapeFacts | src/main/java/io/wispforest/lavender/structure/StructureTemplate.java:107-132 | The shape check yields ySize = number of layers, and the layer and row facts above, for the whole grid. |
| Grid.NonArrayLayerFails | src/main/java/io/wispforest/lavender/structure/StructureTemplate.java:112-114 | A layer that is not an array makes parsing fail. |
| Grid.NonPrimitiveRowFails | src/main/java/io/wispforest/lavender/structure/StructureTemplate.java:123-125 | A row that is not a primitive makes parsing fail. |
| Grid.LayerSizesDifferFail | src/main/java/io/wispforest/lavender/structure/StructureTemplate.java:116-120 | A nonempty layer followed by a layer with another row count makes parsing fail. |
| Grid.RowLengthsDifferFail | src/main/java/io/wispforest/lavender/structure/StructureTemplate.java:126-130 | Two nonempty rows of different lengths, wherever they are, make parsing fail. |
| Grid.RectangularRows | src/main/java/io/wispforest/lavender/structure/StructureTemplate.java:122-131 | Rows that all have length xSize pass the row check with xSize. |
| Grid.RectangularLayers | src/main/java/io/wispforest/lavender/structure/StructureTemplate.java:111-132 | Layers that all have zSize rows of length xSize pass with (zSize, xSize). |
| Grid.RectangularShape | src/main/java/io/wispforest/lavender/structure/StructureTemplate.java:107-132 | A nonempty rectangular grid of layers passes with exactly its sizes. |
| Grid.CheckShape | src/main/java/io/wispforest/lavender/structure/StructureTemplate.java:107-132 | The nested loops compute the specified shape check, failing on the first malformed element. |
| Grid.Resolve | src/main/java/io/wispforest/lavender/structure/StructureTemplate.java:148-169 | A character resolves iff it is a legend key, ` ` or `_`. A legend key resolves to its own predicate, even when it is ` ` or `_`. Otherwise ` ` resolves to the wildcard and `_` to air. |
| Grid.ScanFrom | src/main/java/io/wispforest/lavender/structure/StructureTemplate.java:142-173 | From any cell on, the fill pass succeeds iff every later character resolves and no second anchor appears. It fails only with an unknown key or a duplicate anchor. The anchor returned is the later `#` cell, or the one carried in. |
| Grid.ScanFromCell | src/main/java/io/wispforest/lavender/structure/StructureTemplate.java:146-169 | At one character: the pass from there succeeds iff that character resolves, it is not a second `#`, and the rest succeeds. It reports the same errors and anchor as above. |
| Grid.ScanCorrect | src/main/java/io/wispforest/lavender/structure/StructureTemplate.java:142-173 | The fill pass succeeds iff every character of every row resolves and at most one cell holds `#`. It fails only with an unknown key or a duplicate anchor. The anchor is the `#` cell, or absent when there is none. |
| Grid.ShapeFits | src/main/java/io/wispforest/lavender/structure/StructureTemplate.java:107-140 | Every character of a grid that passed the shape check lies inside the array allocated from the shape. |
| Grid.FillRow | src/main/java/io/wispforest/lavender/structure/StructureTemplate.java:146-169 | One row's loop writes each of its cells with the predicate its character resolves to. It continues the fill pass exactly as specified. |
| Grid.WriteCell | src/main/java/io/wispforest/lavender/structure/StructureTemplate.java:168 | Writing one cell's resolved predicate extends the filled part of the array by exactly that cell. |
| Grid.FillGrid | src/main/java/io/wispforest/lavender/structure/StructureTemplate.java:133-171 | Allocates an xSize by ySize by zSize array. Then it computes the specified fill pass and, on success, stores in every cell the predicate of its character, or null where no row reached it. |
| Template.VisitsOfCons | src/main/java/io/wispforest/lavender/structure/StructureTemplate.java:343-361 | Visiting one more cell first reports it, turned, with its predicate. |
| Template.VisitsOfIndex | src/main/java/io/wispforest/lavender/structure/StructureTemplate.java:343-361 | The i-th report is the i-th cell turned, with that cell's predicate. |
| Template.VisitsSamePredicates | src/main/java/io/wispforest/lavender/structure/StructureTemplate.java:343-361 | A rotated pass reports the same predicates in the same order as the unrotated one, at the turned positions. |
| Template.VisitsCoverGrid | src/main/java/io/wispforest/lavender/structure/StructureTemplate.java:343-361 | forEachPredicate reports every cell of the array exactly once, with its predicate, and nothing else. |
| Template.NoNullCells | src/main/java/io/wispforest/lavender/structure/StructureTemplate.java:82-87 | Every report has a predicate iff no cell of the array is null. |
| Template.CountsPartition | src/main/java/io/wispforest/lavender/structure/StructureTemplate.java:82-87 | Every predicate is AIR or NON_AIR, and NULL or NON_NULL: each pair of counts adds up to the number of cells. |
| Template.CountInAll | src/main/java/io/wispforest/lavender/structure/StructureTemplate.java:82-87 | A category's count is the number of cells iff every cell is of that category. |
| Template.CountInNone | src/main/java/io/wispforest/lavender/structure/StructureTemplate.java:82-87 | A category's count is zero iff no cell is of that category. |
| Template.CountInSamePredicates | src/main/java/io/wispforest/lavender/structure/StructureTemplate.java:272-285 | A count depends only on the predicates reported, not on their positions, so rotation does not change it. |
| Template.ValidInBounded | src/main/java/io/wispforest/lavender/structure/StructureTemplate.java:272-285 | Valid states never exceed the filter's predicate count. They equal it iff every predicate of the filter matches the world there. |
| Template.CountMatching | src/main/java/io/wispforest/lavender/structure/StructureTemplate.java:275-282 | The counting action adds one for each visit of the filter's category whose predicate matches the rotated-back world state. |
| Template.WildcardsIgnored | src/main/java/io/wispforest/lavender/structure/StructureTemplate.java:272-285 | Two worlds that agree on every cell except those of ` ` predicates give the same NON_NULL count. |
| Template.StructureTemplate.Create | src/main/java/io/wispforest/lavender/structure/StructureTemplate.java:70-88 | Keeps the fields given. The anchor defaults to (xSize / 2, 0, ySize / 2). Each category present maps to its number of predicates. It fails iff some cell is null. |
| Template.StructureTemplate.Tally | src/main/java/io/wispforest/lavender/structure/StructureTemplate.java:83-86 | One category's pass adds that category's count, and only when it is nonzero. |
| Template.StructureTemplate.CountByType | src/main/java/io/wispforest/lavender/structure/StructureTemplate.java:81-87 | Over the four categories in declaration order, the passes leave exactly the map of nonzero counts. The passes succeed iff no cell is null. |
| Template.StructureTemplate.ForEachPredicate | src/main/java/io/wispforest/lavender/structure/StructureTemplate.java:343-361 | The three nested loops report exactly the specified visits, x outermost and z innermost, at the turned positions. |
| Template.StructureTemplate.VisitSlice | src/main/java/io/wispforest/lavender/structure/StructureTemplate.java:347-359 | The middle loop reports one x slice, y by y. |
| Template.StructureTemplate.VisitColumn | src/main/java/io/wispforest/lavender/structure/StructureTemplate.java:348-358 | The innermost loop reports one (x, y) column. |
| Template.StructureTemplate.PredicatesOfType | src/main/java/io/wispforest/lavender/structure/StructureTemplate.java:297-299 | A stored count is the number of predicates of the category. A category with none has no entry. |
| Template.StructureTemplate.CountValidStates | src/main/java/io/wispforest/lavender/structure/StructureTemplate.java:272-285 | Counts the filter's predicates that match the world's state at turned position + anchor, rotated back. It never exceeds the filter's count. |
| Template.ValidInPointwise | src/main/java/io/wispforest/lavender/structure/StructureTemplate.java:272-285 | Two visit sequences that agree, position by position, on whether a visit matches give the same count. |
| Template.RotatedWorldSameCount | src/main/java/io/wispforest/lavender/structure/StructureTemplate.java:272-285 | Suppose the world holds, at each cell's turned position, the unrotated world's state turned by the same rotation. Then the count under that rotation equals the unrotated count. This assumes that a NONE rotation leaves states alone and that the inverse rotation undoes the rotation. |
| Template.StructureTemplate.Validate | src/main/java/io/wispforest/lavender/structure/StructureTemplate.java:246-248 | True iff every NON_NULL predicate matches. When the template has no NON_NULL predicate, its count lookup fails. |
| Template.StructureTemplate.ForEach | src/main/java/io/wispforest/lavender/structure/StructureTemplate.java:369-377 | Reports the unrotated visits. |
| Template.VisitsOfPrefix | src/main/java/io/wispforest/lavender/structure/StructureTemplate.java:343-361 | Visiting a prefix of the cells reports a prefix of the visits. |
| Template.StructureTemplateIterator.constructor | src/main/java/io/wispforest/lavender/structure/StructureTemplate.java:577-580 | A new iterator holds the template and the rotation, with its cursor at (0, 0, 0). |
| Template.StructureTemplateIterator.HasNext | src/main/java/io/wispforest/lavender/structure/StructureTemplate.java:583-585 | When it holds, the cursor is a cell of the template. |
| Template.StructureTemplateIterator.Next | src/main/java/io/wispforest/lavender/structure/StructureTemplate.java:587-614 | With `hasNext()` true, returns the cursor cell turned, with its predicate, and advances z, wrapping into y and then x. Otherwise it yields nothing and leaves the cursor as it was. |
| Template.DrainIterator | src/main/java/io/wispforest/lavender/structure/StructureTemplate.java:582-614 | Draining a fresh iterator yields a prefix of forEachPredicate's reports. The prefix is strictly shorter unless the template is empty. |
| Template.DrainStep | src/main/java/io/wispforest/lavender/structure/StructureTemplate.java:587-614 | One `next()` contributes the cursor cell's visit, and the rest is drained from the advanced cursor. |
| Template.DrainedVisitsArePrefix | src/main/java/io/wispforest/lavender/structure/StructureTemplate.java:582-614 | The positions the as-written iterator visits give a prefix of the visits, strictly shorter unless there are none. |
| Template.Parse | src/main/java/io/wispforest/lavender/structure/StructureTemplate.java:101-174 | Fails with the legend's, the shape check's or the fill pass's error. Otherwise it fails iff some in-box cell is not reached by a row. It succeeds with the parsed sizes, the `#` cell as anchor (or the default anchor when there is none), and every cell's predicate as its character resolves. |
| Template.NullCellsAreUnreached | src/main/java/io/wispforest/lavender/structure/StructureTemplate.java:133-174 | After a successful fill, a cell is null iff no row reached it. |
| Enumeration.CellsFromBounds | src/main/java/io/wispforest/lavender/structure/StructureTemplate.java:346-348 | Every cell visited from a point on is in the box and not before that point. |
| Enumeration.CellsFromSorted | src/main/java/io/wispforest/lavender/structure/StructureTemplate.java:346-348 | The visiting order is strictly increasing in (x, y, z). |
| Enumeration.CellsFromComplete | src/main/java/io/wispforest/lavender/structure/StructureTemplate.java:346-348 | Every cell of the box at or after a point is visited. |
| Enumeration.CellsFromLength | src/main/java/io/wispforest/lavender/structure/StructureTemplate.java:346-348 | The number of cells left is the volume minus the cells already passed. |
| Enumeration.CellsExactlyOnce | src/main/java/io/wispforest/lavender/structure/StructureTemplate.java:346-348 | The three loops visit xSize·ySize·zSize cells, each of the box exactly once, in lexicographic order. |
| Enumeration.Advance | src/main/java/io/wispforest/lavender/structure/StructureTemplate.java:605-611 | The iterator's step always moves forward in visiting order. |
| Enumeration.HasNextAsWritten | src/main/java/io/wispforest/lavender/structure/StructureTemplate.java:583-585 | From a cursor in the box, the as-written guard holds only where the corrected guard does. A cursor it lets through is a cell, and the cursor after the step is one too. |
| Enumeration.DrainAsWrittenAlongZ | src/main/java/io/wispforest/lavender/structure/StructureTemplate.java:582-614 | As written, an iterator at (0, 0, z) yields the cells (0, 0, z) to (0, 0, zSize - 2). |
| Enumeration.DrainAsWrittenYields | src/main/java/io/wispforest/lavender/structure/StructureTemplate.java:582-585 | As written, a fresh iterator yields (0, 0, z) for z < zSize - 1 when every size is at least 2, and nothing otherwise. |
| Enumeration.CellsAlongZ | src/main/java/io/wispforest/lavender/structure/StructureTemplate.java:346-348 | forEachPredicate starts with the column (0, 0, z) for every z. |
| Enumeration.DrainAsWrittenIsPrefix | src/main/java/io/wispforest/lavender/structure/StructureTemplate.java:582-585 | What the iterator yields as written is a proper prefix of forEachPredicate's cells, unless the box is empty. |
| Enumeration.DrainIntendedFrom | src/main/java/io/wispforest/lavender/structure/StructureTemplate.java:587-614 | With the corrected guard, an iterator from any cell yields exactly forEachPredicate's cells from that cell on. |
| Enumeration.DrainIntendedYieldsAll | src/main/java/io/wispforest/lavender/structure/StructureTemplate.java:582-614 | With the corrected guard, a fresh iterator yields exactly forEachPredicate's cells. |
| Overlay.NewEntry | src/main/java/io/wispforest/lavender/client/StructureOverlayRenderer.java:342-355 | A new entry has the given structure and rotation, shows every layer (-1), is not decaying (-1), and shows nothing complete (0). |
| Overlay.Restrict | src/main/java/io/wispforest/lavender/client/StructureOverlayRenderer.java:114-124 | Restricting an entry changes only its visible layer, and only when it is of the structure. |
| Overlay.TurnsCancel | src/main/java/io/wispforest/lavender/client/StructureOverlayRenderer.java:131-134 | Rotating the pending overlay one way and then the other restores its rotation. |
| Overlay.FourTurnsRestore | src/main/java/io/wispforest/lavender/client/StructureOverlayRenderer.java:131-134 | Four rotations the same way restore it. |
| Overlay.OverlayRenderer.constructor | src/main/java/io/wispforest/lavender/client/StructureOverlayRenderer.java:65-68 | Initially no overlay is placed and none is pending. |
| Overlay.OverlayRenderer.AddPendingOverlay | src/main/java/io/wispforest/lavender/client/StructureOverlayRenderer.java:77-79 | The pending entry becomes a fresh unrotated entry of the structure. The placed overlays are unchanged. |
| Overlay.OverlayRenderer.AddOverlay | src/main/java/io/wispforest/lavender/client/StructureOverlayRenderer.java:81-84 | The anchor maps to a fresh entry, replacing any entry there. Other keys and the pending entry are unchanged. |
| Overlay.OverlayRenderer.IsShowingOverlay | src/main/java/io/wispforest/lavender/client/StructureOverlayRenderer.java:86-94 | True iff the pending entry or some placed entry is of the structure. |
| Overlay.OverlayRenderer.RemoveAllOverlays | src/main/java/io/wispforest/lavender/client/StructureOverlayRenderer.java:96-103 | Exactly the placed entries of the structure go. A matching pending entry is replaced by one with no structure, so `hasPending()` keeps its value. Afterwards nothing shows the structure. |
| Overlay.OverlayRenderer.GetLayerRestriction | src/main/java/io/wispforest/lavender/client/StructureOverlayRenderer.java:105-112 | -1 iff no placed entry restricts its layer. Otherwise it is some placed entry's restricted layer. |
| Overlay.OverlayRenderer.RestrictVisibleLayer | src/main/java/io/wispforest/lavender/client/StructureOverlayRenderer.java:114-124 | Every entry of the structure, pending or placed, shows only the given layer. Every other entry and every key is unchanged. |
| Overlay.OverlayRenderer.ClearOverlays | src/main/java/io/wispforest/lavender/client/StructureOverlayRenderer.java:126-129 | No placed overlay is left. The pending one is kept. |
| Overlay.OverlayRenderer.RotatePending | src/main/java/io/wispforest/lavender/client/StructureOverlayRenderer.java:131-134 | With nothing pending, nothing changes. Otherwise only the pending entry's rotation turns a quarter, clockwise or counterclockwise. |
| Overlay.OverlayRenderer.HasPending | src/main/java/io/wispforest/lavender/client/StructureOverlayRenderer.java:136-138 | With nothing pending, every pending offset is zero. |
| Overlay.OverlayRenderer.PendingOffset | src/main/java/io/wispforest/lavender/client/StructureOverlayRenderer.java:311-322 | Zero with nothing pending. Otherwise its y is minus the anchor's y. |
| Overlay.OverlayRenderer.UseBlock | src/main/java/io/wispforest/lavender/client/StructureOverlayRenderer.java:294-308 | With nothing pending it passes and changes nothing. With an unregistered structure the offset throws and nothing changes. Otherwise the pending entry is placed at hit + offset, moved out of the hit face unless sneaking, nothing is pending, and the click is consumed. |
| Overlay.OverlayRenderer.IntendedPendingOffset | src/main/java/io/wispforest/lavender/client/StructureOverlayRenderer.java:311-322 | The corrected offset plus the anchor as forEachPredicate turns it is zero for every rotation. It equals getPendingOffset for NONE and 180, and for the quarter turns it differs only in x. |
| Overlay.OffsetCancelsAnchor | src/main/java/io/wispforest/lavender/client/StructureOverlayRenderer.java:311-322 | Unrotated or half-turned, the offset plus the turned anchor is zero, so the anchor cell lands on the target block. |
| Overlay.QuarterTurnOffsetMissesAnchor | src/main/java/io/wispforest/lavender/client/StructureOverlayRenderer.java:317 | For a clockwise quarter turn it does not: a 3×3 template anchored at its origin gets offset zero, while its anchor cell is reported at (2, 0, 0). |

## Left out

- Minecraft itself is left out, and each of these is a parameter instead:
  - blocks, tags, properties and `BlockState.rotate` are the `Registry` value;
  - `Property.parse` is a table in the `Registry`, from each value string a property accepts to the value it parses to (values are compared as their canonical strings);
  - the world is a function from position to block state;
  - `BlockArgumentParser.blockOrTag` is a lookup table, in which a missing string stands for a syntax error.
- BlockStatePredicate.java is not part of this model. The two sentinels `AIR_PREDICATE` and `NULL_PREDICATE` are modelled by their evident meaning:
  - AIR matches exactly the air blocks, and NULL matches everything;
  - `isOf` puts only AIR in AIR and only NULL in NULL;
  - previews give them none.
  `preview()`, which picks one preview state by the clock, is left out.
- Legend.KeyForEntry: strings are sequences of Unicode scalar values, while Java's `length()` and `charAt` count UTF-16 code units. A character outside the Basic Multilingual Plane is one character here and two in Java. For example, the legend key "\u{1F600}" is accepted here and rejected by Java.
- Grid.RowsFrom, Grid.Shape: for the same reason, a row holding a character outside the Basic Multilingual Plane is one cell shorter here than in Java. The shape check may then pass or fail differently.
- Grid.CharAt, Grid.Scan, Grid.FillRow: the fill pass reads one Unicode scalar value per cell. Java reads one UTF-16 code unit, so a row holding such a character fills different cells and looks up different keys. Only rows made of Basic Multilingual Plane characters are modelled exactly.
- Template.RotatedWorldSameCount: Minecraft's `BlockState.rotate` is an oracle. The lemma therefore assumes two things as preconditions: a NONE rotation leaves every state alone, and the inverse rotation undoes the rotation.
- Template.Parse: the Gson lookups of `"keys"` and `"layers"` are left out, together with their errors. `parse` receives the legend's entries and the layers' values. A row is read as the string of a JSON primitive.
- Template.StructureTemplate.Create: the Java constructor accepts any nested array, jagged ones included, and forEachPredicate walks those by each row's own length. An `array3` is always rectangular, so jagged arrays are not modelled. `parse` never builds one.
- Template.StructureTemplate.CountValidStates: the two shorthand overloads (StructureTemplate.java:256-258 and 264-266) are not separate members. They are this method with rotation NONE and category NON_NULL, or with category NON_NULL.
- Java's 32-bit `int` is modelled as an unbounded integer. This covers the counts, the sizes, the default anchor's `xSize / 2`, and the `Vec3i` arithmetic of getPendingOffset and the click target. Wrap-around would need sizes and coordinates far beyond any template or world, and is not modelled.
- Template.StructureTemplate.Create: `Create` returns the template after the counting pass. The Java constructor throws partway instead. The category map is a Dafny map, not a mutable `EnumMap` of `MutableInt`s.
- Template.StructureTemplate.PredicatesOfType, CountValidStates, Validate: they require the template's counting invariant `Valid()`. Every template that `Create` or `Parse` returns satisfies it. A caller that changes the array returned by `predicates()` afterwards is not modelled.
- Template.StructureTemplateIterator.Next: it requires the array's lengths to equal the recorded sizes. Otherwise the Java code may index out of bounds, and that exception is not modelled.
- The iterator and `forEach` make aliasing visible: the Java code hands out one mutable `BlockPos` and one mutable `Pair` on every call. The model reports fresh values, so that aliasing is not captured.
- `asBlockRenderView` and the `StructureTemplateRenderView` record are rendering helpers and are left out.
- Rotations.Compose: Minecraft's `BlockRotation.rotate` is modelled as adding quarter turns modulo four. Its source is not part of this model.
- Overlay: rendering, the HUD, framebuffers and shaders are left out, as are the persistence of the active overlays (`saveActiveOverlays`, reload at world join) and the second `OverlayEntry` constructor, which is used only by reloading.
- Overlay: the render loop's per-frame update is left out because it works with floats and the frame clock. That update includes the completion and decay timers, the removal of entries whose structure is gone, and the clearing of an unregistered pending overlay.
- Overlay.OverlayEntry: the timers `decayTime` and `visualCompleteness` are reals. Only their initial values matter here.
- Overlay.OverlayRenderer.GetLayerRestriction, IsShowingOverlay, RestrictVisibleLayer: `HashMap` iteration order is unspecified. The model picks keys in an arbitrary order and states only what holds for every order.
- Overlay.OverlayRenderer.UseBlock: `LavenderStructures` is a map from structure id to the template's anchor and sizes, and the hit face is its unit vector. The player's hand swing is left out. An entry moves from pending to placed by value, which is the same as the Java object move because nothing else keeps a reference to it. UseBlock places by the as-written offset `PendingOffset`. The corrected `IntendedPendingOffset` of "## Findings" is stated beside it.
- Overlay.OverlayRenderer: the Java methods are static and act on global state. Here they are methods of one renderer object.

## Findings

| source | as written | input that shows it | evidently intended | confidence | as-written member | corrected member |
|---|---|---|---|---|---|---|
| src/main/java/io/wispforest/lavender/structure/StructureTemplate.java:582-585 | `hasNext()` requires every coordinate of the cursor to be below its size minus one, so iteration stops at the end of the first z column or never starts | a 2×2×2 template: the iterator yields one cell, (0, 0, 0), where forEachPredicate visits eight; a template with any size 1 yields nothing | cells remain while the x cursor is below xSize, so the iterator yields every cell in forEachPredicate's order | not executed | Enumeration.DrainAsWrittenYields | Enumeration.DrainIntendedYieldsAll |
| src/main/java/io/wispforest/lavender/client/StructureOverlayRenderer.java:317-319 | getPendingOffset's quarter-turn cases have swapped x components: CLOCKWISE_90 gives x = -anchor.z, and COUNTERCLOCKWISE_90 gives x = -zSize + anchor.z + 1. forEachPredicate (StructureTemplate.java:351-352) puts the turned anchor at x = zSize - anchor.z - 1 and x = anchor.z respectively, so a placed quarter-turned overlay has its anchor off the clicked block | a 3×3 template anchored at (0, 0, 0), turned clockwise: the offset is (0, 0, 0) and the anchor cell lands at (2, 0, 0) from the target | the offset cancels the turned anchor for every rotation, as it does for NONE and CLOCKWISE_180 | not executed | Overlay.QuarterTurnOffsetMissesAnchor | Overlay.OverlayRenderer.IntendedPendingOffset |

/**
 * The bookkeeping of StructureOverlayRenderer: the overlays placed in the
 * world (anchor position to entry) and the one pending overlay that follows
 * the player's aim until it is placed.
 */
module Overlay {
  import opened Rotations
  import opened Wrappers

  type StructureId = string

  /**
   * OverlayEntry: the structure shown (null after removeAllOverlays cleared
   * a pending one), its rotation, the one layer shown (-1 for all), and the
   * completion animation's timers.
   */
  datatype OverlayEntry = OverlayEntry(
    structureId: Option<StructureId>,
    rotation: Rotation,
    visibleLayer: int,
    decayTime: real,
    visualCompleteness: real)

  /** A fresh entry: every layer visible, not decaying, nothing shown complete. */
  function NewEntry(structureId: Option<StructureId>, rotation: Rotation): (e: OverlayEntry)
    ensures e.structureId == structureId && e.rotation == rotation
    ensures e.visibleLayer == -1 && e.decayTime == -1.0 && e.visualCompleteness == 0.0
  {
    OverlayEntry(structureId, rotation, -1, -1.0, 0.0)
  }

  /** What restrictVisibleLayer does to one entry. */
  function Restrict(e: OverlayEntry, structure: StructureId, layer: int): (e': OverlayEntry)
    ensures e'.structureId == e.structureId && e'.rotation == e.rotation
    ensures e'.decayTime == e.decayTime && e'.visualCompleteness == e.visualCompleteness
    ensures e'.visibleLayer == if e.structureId == Some(structure) then layer else e.visibleLayer
  {
    if e.structureId == Some(structure) then e.(visibleLayer := layer) else e
  }

  /** The quarter turn rotatePending applies. */
  function Turn(clockwise: bool): Rotation
  {
    if clockwise then Clockwise90 else Counterclockwise90
  }

  /** A clockwise turn followed by a counterclockwise one (or the reverse) restores the rotation. */
  lemma TurnsCancel(r: Rotation, clockwise: bool)
    ensures Compose(Compose(r, Turn(clockwise)), Turn(!clockwise)) == r
  {
    ComposeInverseCancels(r, Turn(clockwise));
  }

  /** Four turns the same way restore the rotation. */
  lemma FourTurnsRestore(r: Rotation, clockwise: bool)
    ensures Compose(Compose(Compose(Compose(r, Turn(clockwise)), Turn(clockwise)), Turn(clockwise)), Turn(clockwise)) == r
  {
  }

  /** Some overlay, pending or placed, shows `structure`. */
  predicate Showing(active: map<Pos, OverlayEntry>, pending: Option<OverlayEntry>, structure: StructureId)
  {
    (pending.Some? && pending.value.structureId == Some(structure))
    || exists p :: p in active && active[p].structureId == Some(structure)
  }

  /** The anchor and sizes of a registered structure template, all getPendingOffset reads of it. */
  datatype Footprint = Footprint(anchor: Pos, xSize: int, zSize: int)

  /** The result of the use-block handler. */
  datatype UseResult = Pass | Fail | NullStructure

  class OverlayRenderer {
    var activeOverlays: map<Pos, OverlayEntry>
    var pendingOverlay: Option<OverlayEntry>

    constructor ()
      ensures activeOverlays == map[] && pendingOverlay == None
    {
      activeOverlays := map[];
      pendingOverlay := None;
    }

    /** addPendingOverlay: a fresh unrotated pending entry replaces any other. */
    method AddPendingOverlay(structure: Option<StructureId>)
      modifies this
      ensures pendingOverlay == Some(NewEntry(structure, NoRotation))
      ensures activeOverlays == old(activeOverlays)
    {
      pendingOverlay := Some(NewEntry(structure, NoRotation));
    }

    /** addOverlay: a fresh entry at `anchor`, replacing any entry there; nothing else changes. */
    method AddOverlay(anchor: Pos, structure: StructureId, rotation: Rotation)
      modifies this
      ensures activeOverlays == old(activeOverlays)[anchor := NewEntry(Some(structure), rotation)]
      ensures pendingOverlay == old(pendingOverlay)
    {
      activeOverlays := activeOverlays[anchor := NewEntry(Some(structure), rotation)];
    }

    /** isShowingOverlay: the pending entry first, then each placed entry. */
    method IsShowingOverlay(structure: StructureId) returns (showing: bool)
      ensures showing <==> Showing(activeOverlays, pendingOverlay, structure)
    {
      if pendingOverlay.Some? && pendingOverlay.value.structureId == Some(structure) {
        return true;
      }
      var todo := activeOverlays.Keys;
      while todo != {}
        invariant todo <= activeOverlays.Keys
        invariant forall p :: p in activeOverlays && p !in todo ==> activeOverlays[p].structureId != Some(structure)
        decreases |todo|
      {
        var p :| p in todo;
        if activeOverlays[p].structureId == Some(structure) {
          return true;
        }
        todo := todo - {p};
      }
      return false;
    }

    /**
     * removeAllOverlays: a matching pending entry is replaced by a fresh one
     * with no structure (so one is still pending), and every placed entry of
     * the structure goes; the others are untouched.
     */
    method RemoveAllOverlays(structure: StructureId)
      modifies this
      ensures activeOverlays ==
        map p | p in old(activeOverlays) && old(activeOverlays)[p].structureId != Some(structure) :: old(activeOverlays)[p]
      ensures pendingOverlay ==
        if old(pendingOverlay).Some? && old(pendingOverlay).value.structureId == Some(structure)
        then Some(NewEntry(None, NoRotation)) else old(pendingOverlay)
      ensures pendingOverlay.Some? == old(pendingOverlay).Some?
      ensures !Showing(activeOverlays, pendingOverlay, structure)
    {
      if pendingOverlay.Some? && pendingOverlay.value.structureId == Some(structure) {
        AddPendingOverlay(None);
      }
      activeOverlays := map p | p in activeOverlays && activeOverlays[p].structureId != Some(structure) :: activeOverlays[p];
    }

    /**
     * getLayerRestriction: the visible layer of the first placed entry (in
     * the map's unspecified order) that restricts one, else -1. The
     * structure argument is not consulted.
     */
    method GetLayerRestriction(structure: StructureId) returns (layer: int)
      ensures layer == -1 <==> forall p :: p in activeOverlays ==> activeOverlays[p].visibleLayer == -1
      ensures layer != -1 ==> exists p :: p in activeOverlays && activeOverlays[p].visibleLayer == layer
    {
      var todo := activeOverlays.Keys;
      while todo != {}
        invariant todo <= activeOverlays.Keys
        invariant forall p :: p in activeOverlays && p !in todo ==> activeOverlays[p].visibleLayer == -1
        decreases |todo|
      {
        var p :| p in todo;
        if activeOverlays[p].visibleLayer != -1 {
          return activeOverlays[p].visibleLayer;
        }
        todo := todo - {p};
      }
      return -1;
    }

    /**
     * restrictVisibleLayer: every entry of the structure, pending or placed,
     * shows only `layer`; every other entry and every key stay as they were.
     */
    method RestrictVisibleLayer(structure: StructureId, layer: int)
      modifies this
      ensures pendingOverlay ==
        if old(pendingOverlay).Some? then Some(Restrict(old(pendingOverlay).value, structure, layer)) else None
      ensures activeOverlays == map p | p in old(activeOverlays) :: Restrict(old(activeOverlays)[p], structure, layer)
    {
      if pendingOverlay.Some? && pendingOverlay.value.structureId == Some(structure) {
        pendingOverlay := Some(pendingOverlay.value.(visibleLayer := layer));
      }
      ghost var before := activeOverlays;
      ghost var pending := pendingOverlay;
      var todo := activeOverlays.Keys;
      while todo != {}
        invariant pendingOverlay == pending
        invariant todo <= before.Keys && activeOverlays.Keys == before.Keys
        invariant forall p :: p in before ==>
          activeOverlays[p] == if p in todo then before[p] else Restrict(before[p], structure, layer)
        decreases |todo|
      {
        var p :| p in todo;
        if activeOverlays[p].structureId == Some(structure) {
          activeOverlays := activeOverlays[p := activeOverlays[p].(visibleLayer := layer)];
        }
        todo := todo - {p};
      }
    }

    /** clearOverlays: no placed overlay is left; the pending one stays. */
    method ClearOverlays()
      modifies this
      ensures activeOverlays == map[]
      ensures pendingOverlay == old(pendingOverlay)
    {
      activeOverlays := map[];
    }

    /** rotatePending: a quarter turn of the pending entry only, if there is one. */
    method RotatePending(clockwise: bool)
      modifies this
      ensures activeOverlays == old(activeOverlays)
      ensures old(pendingOverlay).None? ==> pendingOverlay == None
      ensures old(pendingOverlay).Some? ==>
        pendingOverlay == Some(old(pendingOverlay).value.(rotation := Compose(old(pendingOverlay).value.rotation, Turn(clockwise))))
    {
      if pendingOverlay.None? {
        return;
      }
      var entry := pendingOverlay.value;
      pendingOverlay := Some(entry.(rotation := Compose(entry.rotation, Turn(clockwise))));
    }

    /** hasPending: without a pending overlay every pending offset is zero. */
    predicate HasPending()
      reads this
      ensures !HasPending() ==> forall f :: PendingOffset(f) == Origin
    {
      pendingOverlay.Some?
    }

    /**
     * getPendingOffset: where, relative to the targeted block, the template's
     * origin goes so that the pending overlay is placed by its anchor.
     */
    function PendingOffset(structure: Footprint): (o: Pos)
      reads this
      ensures pendingOverlay.None? ==> o == Origin
      ensures pendingOverlay.Some? ==> o.y == -structure.anchor.y
    {
      if pendingOverlay.None? then Origin
      else
        var a := structure.anchor;
        match pendingOverlay.value.rotation
        case NoRotation => Pos(-a.x, -a.y, -a.z)
        case Clockwise90 => Pos(-a.z, -a.y, -a.x)
        case Clockwise180 => Pos(-structure.xSize + a.x + 1, -a.y, -structure.zSize + a.z + 1)
        case Counterclockwise90 => Pos(-structure.zSize + a.z + 1, -a.y, -structure.xSize + a.x + 1)
    }

    /**
     * getPendingOffset with the quarter-turn cases corrected: the offset
     * that puts the anchor cell, as forEachPredicate turns it, on the
     * targeted block for every rotation. It differs from `PendingOffset`
     * only in the x components of the two quarter turns.
     */
    function IntendedPendingOffset(structure: Footprint): (o: Pos)
      reads this
      ensures pendingOverlay.None? ==> o == Origin
      ensures pendingOverlay.Some? && structure.xSize >= 0 && structure.zSize >= 0 ==>
        o.Add(Forward(pendingOverlay.value.rotation, structure.anchor, FootprintDims(structure))) == Origin
      ensures pendingOverlay.Some? && pendingOverlay.value.rotation in {NoRotation, Clockwise180} ==>
        o == PendingOffset(structure)
      ensures pendingOverlay.Some? && pendingOverlay.value.rotation in {Clockwise90, Counterclockwise90} ==>
        o.y == PendingOffset(structure).y && o.z == PendingOffset(structure).z
    {
      if pendingOverlay.None? then Origin
      else
        var a := structure.anchor;
        match pendingOverlay.value.rotation
        case NoRotation => Pos(-a.x, -a.y, -a.z)
        case Clockwise90 => Pos(-structure.zSize + a.z + 1, -a.y, -a.x)
        case Clockwise180 => Pos(-structure.xSize + a.x + 1, -a.y, -structure.zSize + a.z + 1)
        case Counterclockwise90 => Pos(-a.z, -a.y, -structure.xSize + a.x + 1)
    }

    /**
     * The use-block handler's commit: with nothing pending it passes and
     * changes nothing; otherwise the pending entry is placed at the targeted
     * block moved by the pending offset (and one block out of the hit face
     * unless sneaking) and nothing is pending any more. A pending structure
     * that is not registered makes the offset throw before anything changes.
     */
    method UseBlock(structures: map<StructureId, Footprint>, hit: Pos, side: Pos, sneaking: bool) returns (result: UseResult)
      modifies this
      ensures old(pendingOverlay).None? ==>
        result == Pass && activeOverlays == old(activeOverlays) && pendingOverlay == None
      ensures old(pendingOverlay).Some? && (old(pendingOverlay).value.structureId.None? || old(pendingOverlay).value.structureId.value !in structures) ==>
        result == NullStructure && activeOverlays == old(activeOverlays) && pendingOverlay == old(pendingOverlay)
      ensures old(pendingOverlay).Some? && old(pendingOverlay).value.structureId.Some? && old(pendingOverlay).value.structureId.value in structures ==>
        var target := hit.Add(old(PendingOffset(structures[pendingOverlay.value.structureId.value]))).Add(if sneaking then Origin else side);
        && result == Fail
        && activeOverlays == old(activeOverlays)[target := old(pendingOverlay).value]
        && pendingOverlay == None
    {
      if pendingOverlay.None? {
        return Pass;
      }
      var id := pendingOverlay.value.structureId;
      if id.None? || id.value !in structures {
        return NullStructure;
      }
      var target := hit.Add(PendingOffset(structures[id.value]));
      if !sneaking {
        target := target.Add(side);
      }
      activeOverlays := activeOverlays[target := pendingOverlay.value];
      pendingOverlay := None;
      return Fail;
    }
  }

  /** The template's size as getPendingOffset reads it, with the y size irrelevant to the turn. */
  function FootprintDims(f: Footprint): Dims
    requires f.xSize >= 0 && f.zSize >= 0
  {
    Dims(f.xSize, 0, f.zSize)
  }

  /**
   * Unrotated and half-turned, the pending offset cancels the rotated
   * anchor: forEachPredicate then puts the anchor cell on the target block.
   */
  lemma OffsetCancelsAnchor(o: OverlayRenderer, f: Footprint)
    requires o.pendingOverlay.Some? && f.xSize >= 0 && f.zSize >= 0
    requires o.pendingOverlay.value.rotation == NoRotation || o.pendingOverlay.value.rotation == Clockwise180
    ensures o.PendingOffset(f).Add(Forward(o.pendingOverlay.value.rotation, f.anchor, FootprintDims(f))) == Origin
  {
  }

  /**
   * For a quarter turn it does not: a 3 by 3 template anchored at its
   * origin and turned clockwise gets offset (0, 0, 0) while its anchor cell
   * is reported at (2, 0, 0).
   */
  lemma QuarterTurnOffsetMissesAnchor(o: OverlayRenderer)
    requires o.pendingOverlay.Some? && o.pendingOverlay.value.rotation == Clockwise90
    ensures var f := Footprint(Origin, 3, 3);
      o.PendingOffset(f).Add(Forward(Clockwise90, f.anchor, FootprintDims(f))) == Pos(2, 0, 0)
  {
  }
}

/**
 * Positions, box sizes and the four Y-axis rotations of a structure template,
 * with the coordinate map that places a template cell in world-relative space.
 */
module Rotations {

  /** A block position or offset (Minecraft's BlockPos / Vec3i). */
  datatype Pos = Pos(x: int, y: int, z: int)
  {
    function Add(o: Pos): Pos { Pos(x + o.x, y + o.y, z + o.z) }
  }

  const Origin := Pos(0, 0, 0)

  /** The size of a box of cells, xSize by ySize by zSize. */
  datatype Dims = Dims(x: nat, y: nat, z: nat)

  predicate InBox(p: Pos, d: Dims)
  {
    0 <= p.x < d.x && 0 <= p.y < d.y && 0 <= p.z < d.z
  }

  /** Minecraft's BlockRotation: turns about the Y axis only. */
  datatype Rotation = NoRotation | Clockwise90 | Clockwise180 | Counterclockwise90

  /** The rotation that undoes `r` (StructureTemplate.inverse). */
  function Inverse(r: Rotation): (i: Rotation)
    ensures r == NoRotation ==> i == NoRotation
    ensures r == Clockwise180 ==> i == Clockwise180
    ensures r == Clockwise90 <==> i == Counterclockwise90
    ensures r == Counterclockwise90 <==> i == Clockwise90
  {
    match r
    case NoRotation => NoRotation
    case Clockwise90 => Counterclockwise90
    case Counterclockwise90 => Clockwise90
    case Clockwise180 => Clockwise180
  }

  lemma InverseInvolution(r: Rotation)
    ensures Inverse(Inverse(r)) == r
  {
  }

  /** Clockwise quarter turns a rotation stands for. */
  function Quarters(r: Rotation): (q: nat)
    ensures q < 4
  {
    match r
    case NoRotation => 0
    case Clockwise90 => 1
    case Clockwise180 => 2
    case Counterclockwise90 => 3
  }

  function FromQuarters(q: nat): (r: Rotation)
    requires q < 4
    ensures Quarters(r) == q
  {
    if q == 0 then NoRotation
    else if q == 1 then Clockwise90
    else if q == 2 then Clockwise180
    else Counterclockwise90
  }

  /**
   * BlockRotation.rotate, which lives in Minecraft: composing two rotations
   * adds their quarter turns modulo four. This is an assumption about the
   * game library, written out because the model needs it for rotatePending.
   */
  function Compose(r: Rotation, turn: Rotation): Rotation
  {
    var sum := Quarters(r) + Quarters(turn);
    FromQuarters(if sum >= 4 then sum - 4 else sum)
  }

  lemma ComposeInverseCancels(r: Rotation, turn: Rotation)
    ensures Compose(Compose(r, turn), Inverse(turn)) == r
    ensures Compose(r, NoRotation) == r
  {
  }

  /** The size of the box a template of size `d` covers once rotated by `r`. */
  function RotatedDims(r: Rotation, d: Dims): (e: Dims)
    ensures e.y == d.y
    ensures e.x * e.y * e.z == d.x * d.y * d.z
  {
    match r
    case Clockwise90 => Dims(d.z, d.y, d.x)
    case Counterclockwise90 => Dims(d.z, d.y, d.x)
    case _ => d
  }

  /**
   * The coordinate forEachPredicate hands to its action for template cell `p`
   * of a template with sizes `xSize` and `zSize`.
   */
  function Forward(r: Rotation, p: Pos, d: Dims): (q: Pos)
    ensures q.y == p.y
    ensures InBox(p, d) ==> InBox(q, RotatedDims(r, d))
  {
    match r
    case Clockwise90 => Pos(d.z - p.z - 1, p.y, p.x)
    case Counterclockwise90 => Pos(p.z, p.y, d.x - p.x - 1)
    case Clockwise180 => Pos(d.x - p.x - 1, p.y, d.z - p.z - 1)
    case NoRotation => p
  }

  /** The template cell that `Forward` sends to world-relative coordinate `q`. */
  function Backward(r: Rotation, q: Pos, d: Dims): (p: Pos)
    ensures InBox(q, RotatedDims(r, d)) ==> InBox(p, d)
    ensures Forward(r, p, d) == q
  {
    match r
    case Clockwise90 => Pos(q.z, q.y, d.z - q.x - 1)
    case Counterclockwise90 => Pos(d.x - q.z - 1, q.y, q.x)
    case Clockwise180 => Pos(d.x - q.x - 1, q.y, d.z - q.z - 1)
    case NoRotation => q
  }

  /** Each rotation's coordinate map is a bijection from the box onto the rotated box. */
  lemma ForwardBijective(r: Rotation, d: Dims)
    ensures forall p, p' :: Forward(r, p, d) == Forward(r, p', d) ==> p == p'
    ensures forall q :: InBox(q, RotatedDims(r, d)) ==>
      exists p :: InBox(p, d) && Forward(r, p, d) == q
  {
    forall q | InBox(q, RotatedDims(r, d))
      ensures exists p :: InBox(p, d) && Forward(r, p, d) == q
    {
      var p := Backward(r, q, d);
      assert InBox(p, d) && Forward(r, p, d) == q;
    }
  }
}

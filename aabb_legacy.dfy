/**
 * Model of UselessEngine/Physics/AABB.swift: a reference-type box whose
 * `centerPosition` is kept in step with `position` and `anchorPosition` by
 * their observers, and whose halfwidths are fixed at initialisation.
 */
module LegacyAabb {
  import opened Wrappers
  import opened Numeric
  import opened LegacyGeometry
  import V2 = PackageVector2d
  import P2 = LegacyPosition2d

  /** `Hit`: the correcting offset, the contact normal and the contact point. */
  datatype Hit = Hit(delta: V2.Vector2d, normal: V2.Vector2d, position: P2.Position2d)

  /** How far the anchor puts the centre from the position: `2·(0.5 − anchor)·halfwidths` per axis. */
  function AnchorOffset(halfwidths: Vector, anchor: Vector): Vector {
    Vector(2.0 * (0.5 - anchor.dx) * halfwidths.dx,
           2.0 * (0.5 - anchor.dy) * halfwidths.dy,
           2.0 * (0.5 - anchor.dz) * halfwidths.dz)
  }

  /** The centre a box with these inputs has: `position + 2·(0.5 − anchor)·halfwidths`. */
  function CenterFor(position: Position, halfwidths: Vector, anchor: Vector): Position {
    var k := AnchorOffset(halfwidths, anchor);
    Position(position.x + k.dx, position.y + k.dy, position.z + k.dz)
  }

  class Aabb {
    var position: Position
    const halfwidths: Vector
    var anchor: Vector
    var center: Position

    /** The centre agrees with the position, halfwidths and anchor. */
    ghost predicate Valid()
      reads this
    {
      center == CenterFor(position, halfwidths, anchor)
    }

    /** `init(position:halfwidths:anchorPosition:)`; the observers do not run during `init`. */
    constructor (position: Position, halfwidths: Vector, anchor: Vector := Vector(0.5, 0.5, 0.5))
      ensures Valid()
      ensures this.position == position && this.halfwidths == halfwidths && this.anchor == anchor
    {
      this.position := position;
      this.halfwidths := halfwidths;
      this.anchor := anchor;
      new;
      UpdateCenterPosition();
    }

    /** `updateCenterPosition()`. */
    method UpdateCenterPosition()
      modifies this`center
      ensures Valid()
    {
      center := Position(position.x + (2.0 * (0.5 - anchor.dx) * halfwidths.dx),
                         position.y + (2.0 * (0.5 - anchor.dy) * halfwidths.dy),
                         position.z + (2.0 * (0.5 - anchor.dz) * halfwidths.dz));
    }

    /** A write to `position`: its observer shifts the centre by the same offset. */
    method SetPosition(p: Position)
      requires Valid()
      modifies this`position, this`center
      ensures Valid()
      ensures position == p && anchor == old(anchor)
      ensures PositionDifference(center, position) == old(PositionDifference(center, position))
    {
      var oldValue := position;
      ghost var k := AnchorOffset(halfwidths, anchor);
      position := p;
      center := Position(center.x + (position.x - oldValue.x),
                         center.y + (position.y - oldValue.y),
                         center.z + (position.z - oldValue.z));
      assert center == Position(p.x + k.dx, p.y + k.dy, p.z + k.dz);
    }

    /** A write to `anchorPosition`: its observer recomputes the centre. */
    method SetAnchor(a: Vector)
      modifies this`anchor, this`center
      ensures Valid()
      ensures anchor == a && position == old(position)
    {
      anchor := a;
      UpdateCenterPosition();
    }

    /** `intersects(with:)`, read from the two boxes' current fields. */
    function Intersects(other: Aabb): (r: Option<Hit>)
      reads this, other
    {
      Overlap(center, halfwidths, other.center, other.halfwidths)
    }
  }

  /**
   * `intersects(with:)` on the two boxes' centres and halfwidths: no hit when
   * any axis penetration is zero or less; otherwise the axis of smaller
   * penetration among x and y (x when `px < py`) with the offset signed
   * towards the other centre, and the hit point on this box's face on that
   * axis, level with the other centre.
   */
  function Overlap(c: Position, h: Vector, oc: Position, oh: Vector): (r: Option<Hit>)
    ensures var px := (h.dx + oh.dx) - Abs(oc.x - c.x);
      var py := (h.dy + oh.dy) - Abs(oc.y - c.y);
      var pz := (h.dz + oh.dz) - Abs(oc.z - c.z);
      && (r.None? <==> px <= 0.0 || py <= 0.0 || pz <= 0.0)
      && (r.Some? && px < py ==>
            && r.value.delta == V2.Vector2d(if oc.x < c.x then -px else px, 0.0)
            && r.value.normal == V2.Vector2d(if oc.x < c.x then -1.0 else 1.0, 0.0)
            && r.value.position == P2.Position2d(c.x + (if oc.x < c.x then -h.dx else h.dx), oc.y))
      && (r.Some? && px >= py ==>
            && r.value.delta == V2.Vector2d(0.0, if oc.y < c.y then -py else py)
            && r.value.normal == V2.Vector2d(0.0, if oc.y < c.y then -1.0 else 1.0)
            && r.value.position == P2.Position2d(oc.x, c.y + (if oc.y < c.y then -h.dy else h.dy)))
  {
    var dx := oc.x - c.x;
    var px := (h.dx + oh.dx) - Abs(dx);
    if px <= 0.0 then None
    else
      var dy := oc.y - c.y;
      var py := (h.dy + oh.dy) - Abs(dy);
      if py <= 0.0 then None
      else
        var dz := oc.z - c.z;
        var pz := (h.dz + oh.dz) - Abs(dz);
        if pz <= 0.0 then None
        else if px < py then
          var sx := if dx < 0.0 then -1.0 else 1.0;
          Some(Hit(V2.Vector2d(px * sx, 0.0), V2.Vector2d(sx, 0.0), P2.Position2d(c.x + (h.dx * sx), oc.y)))
        else
          var sy := if dy < 0.0 then -1.0 else 1.0;
          Some(Hit(V2.Vector2d(0.0, py * sy), V2.Vector2d(0.0, sy), P2.Position2d(oc.x, c.y + (h.dy * sy))))
  }

  /**
   * The reported offset never exceeds the smaller of the x and y penetrations
   * and is zero on the other axis, so z never becomes the reported axis.
   */
  lemma OverlapPicksShallowerAxis(c: Position, h: Vector, oc: Position, oh: Vector)
    requires Overlap(c, h, oc, oh).Some?
    ensures var d := Overlap(c, h, oc, oh).value.delta;
      var px := (h.dx + oh.dx) - Abs(oc.x - c.x);
      var py := (h.dy + oh.dy) - Abs(oc.y - c.y);
      && (d.dx == 0.0 || d.dy == 0.0)
      && Abs(d.dx) + Abs(d.dy) == Min(px, py)
      && Abs(d.dx) + Abs(d.dy) > 0.0
  {
  }

  /**
   * Moving the other box by the reported offset, that is further away from
   * this one along the reported axis, leaves the two just touching, which
   * is no hit.
   */
  lemma OverlapSeparates(c: Position, h: Vector, oc: Position, oh: Vector)
    requires Overlap(c, h, oc, oh).Some?
    ensures var d := Overlap(c, h, oc, oh).value.delta;
      var moved := Position(oc.x + d.dx, oc.y + d.dy, oc.z);
      Overlap(c, h, moved, oh).None?
  {
    var d := Overlap(c, h, oc, oh).value.delta;
    var px := (h.dx + oh.dx) - Abs(oc.x - c.x);
    var py := (h.dy + oh.dy) - Abs(oc.y - c.y);
    if px < py {
      assert Abs(oc.x + d.dx - c.x) == Abs(oc.x - c.x) + px;
    } else {
      assert Abs(oc.y + d.dy - c.y) == Abs(oc.y - c.y) + py;
    }
  }

  /** Two concrete boxes: the shallower x overlap is reported, pushing the other box right. */
  lemma OverlapExample()
    ensures Overlap(Position(0.0, 0.0, 0.0), Vector(5.0, 5.0, 5.0), Position(8.0, 1.0, 0.0), Vector(5.0, 5.0, 5.0))
      == Some(Hit(V2.Vector2d(2.0, 0.0), V2.Vector2d(1.0, 0.0), P2.Position2d(5.0, 1.0)))
  {
  }
}

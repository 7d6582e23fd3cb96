/**
 * The exact-arithmetic part of UselessEngine/Physics/Position2d.swift. Its
 * `Vector2d` is the one of PackageVector2d (the older tree's own file is not
 * part of this model), and `PlaneCoordinate` is LegacyGeometry's `Plane`.
 * The two source trees each declare their own `Position2d`, and the older
 * one adds the `PlaneCoordinate` operators; the type is therefore kept
 * apart from PackagePosition2d's, and `add(b:)` and `add(b:scaled:)`, which
 * read the same in both trees, are modelled once per tree, each on its own
 * type.
 */
module LegacyPosition2d {
  import opened PackageVector2d
  import LegacyGeometry

  datatype Position2d = Position2d(x: real, y: real)

  function AsPlane(p: Position2d): LegacyGeometry.Plane { LegacyGeometry.Plane(p.x, p.y) }

  /** The position moved by a vector: what `add(b:)` does. */
  function Moved(p: Position2d, b: Vector2d): Position2d { Position2d(p.x + b.dx, p.y + b.dy) }

  /** `offset(toPosition:)`: `self - q` componentwise. */
  function OffsetTo(p: Position2d, q: Position2d): Position2d { Position2d(p.x - q.x, p.y - q.y) }

  /** `Position2d + PlaneCoordinate`. */
  function PlusPlane(p: Position2d, c: LegacyGeometry.Plane): Position2d { Position2d(p.x + c.x, p.y + c.y) }

  /** `Position2d - PlaneCoordinate`. */
  function MinusPlane(p: Position2d, c: LegacyGeometry.Plane): Position2d { Position2d(p.x - c.x, p.y - c.y) }

  /** `PlaneCoordinate + Position2d`. */
  function PlanePlus(c: LegacyGeometry.Plane, p: Position2d): Position2d { Position2d(c.x + p.x, c.y + p.y) }

  /** `PlaneCoordinate - Position2d`. */
  function PlaneMinus(c: LegacyGeometry.Plane, p: Position2d): Position2d { Position2d(c.x - p.x, c.y - p.y) }

  predicate Equals(a: Position2d, b: Position2d) { a.x == b.x && a.y == b.y }

  predicate Differs(a: Position2d, b: Position2d) { a.x != b.x || a.y != b.y }

  /** `add(b:)`. */
  method Add(p: Position2d, b: Vector2d) returns (r: Position2d)
    ensures r == Moved(p, b)
  {
    r := p;
    r := r.(x := r.x + b.dx);
    r := r.(y := r.y + b.dy);
  }

  /** `add(b:scaled:)`. */
  method AddScaled(p: Position2d, b: Vector2d, s: real) returns (r: Position2d)
    ensures r == Moved(p, Scaled(b, s))
  {
    var step := Scaled(b, s);
    r := p;
    r := r.(x := r.x + step.dx);
    r := r.(y := r.y + step.dy);
  }

  /** `offset(toPosition:)` is the `-` operator with the other position as a plane coordinate, and undoes `+`. */
  lemma OffsetIsPlaneDifference(p: Position2d, q: Position2d)
    ensures OffsetTo(p, q) == MinusPlane(p, AsPlane(q))
    ensures PlusPlane(OffsetTo(p, q), AsPlane(q)) == p
    ensures OffsetTo(p, p) == Position2d(0.0, 0.0)
  {
  }

  /** The plane-coordinate operators agree in both argument orders. */
  lemma PlaneOperatorsBothOrders(p: Position2d, c: LegacyGeometry.Plane)
    ensures PlusPlane(p, c) == PlanePlus(c, p)
    ensures PlaneMinus(c, p) == Position2d(-MinusPlane(p, c).x, -MinusPlane(p, c).y)
    ensures MinusPlane(PlusPlane(p, c), c) == p
  {
  }

  lemma MovedComponentwise(p: Position2d, b: Vector2d, s: real)
    ensures Moved(Moved(p, b), Vector2d(-b.dx, -b.dy)) == p
    ensures Moved(p, Scaled(b, s)) == Position2d(p.x + s * b.dx, p.y + s * b.dy)
  {
  }

  lemma EqualityOperators(a: Position2d, b: Position2d)
    ensures Equals(a, b) <==> a == b
    ensures Differs(a, b) <==> !Equals(a, b)
  {
  }
}

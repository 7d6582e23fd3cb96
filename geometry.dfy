/**
 * The exact-arithmetic part of UselessEngine/Physics/Vector.swift and
 * UselessEngine/Physics/Position.swift, which both variants of the engine use.
 * Swift structs are values: a `mutating func` is a method from the old value
 * to the new one, proved equal to the operator or function that specifies it.
 */
module LegacyGeometry {

  /** `GeometryComponent`. */
  datatype Axis = X | Y | Z

  datatype Vector = Vector(dx: real, dy: real, dz: real)

  datatype Position = Position(x: real, y: real, z: real)

  /** Any `PlaneCoordinate`: a value with an `x` and a `y`. */
  datatype Plane = Plane(x: real, y: real)

  const ZeroVector: Vector := Vector(0.0, 0.0, 0.0)
  const Origin: Position := Position(0.0, 0.0, 0.0)

  // ----- Vector -----

  /** `Vector(dx:dy:dz:)`, whose `dz` defaults to zero. */
  function MakeVector(dx: real, dy: real, dz: real := 0.0): Vector { Vector(dx, dy, dz) }

  /** `vector[component]`. */
  function VectorComponent(v: Vector, a: Axis): real {
    match a
    case X => v.dx
    case Y => v.dy
    case Z => v.dz
  }

  function Plus(a: Vector, b: Vector): Vector { Vector(a.dx + b.dx, a.dy + b.dy, a.dz + b.dz) }

  function Minus(a: Vector, b: Vector): Vector { Vector(a.dx - b.dx, a.dy - b.dy, a.dz - b.dz) }

  /** `scaled(by:)`. */
  function Scaled(v: Vector, s: real): Vector { Vector(v.dx * s, v.dy * s, v.dz * s) }

  function Dot(a: Vector, b: Vector): real { a.dx * b.dx + a.dy * b.dy + a.dz * b.dz }

  function Cross(a: Vector, b: Vector): Vector {
    Vector(a.dy * b.dz - a.dz * b.dy, a.dz * b.dx - a.dx * b.dz, a.dx * b.dy - a.dy * b.dx)
  }

  /** The custom `==`: all three components equal. */
  predicate VectorEquals(a: Vector, b: Vector) { a.dx == b.dx && a.dy == b.dy && a.dz == b.dz }

  /** The custom `!=`: some component differs. */
  predicate VectorDiffers(a: Vector, b: Vector) { a.dx != b.dx || a.dy != b.dy || a.dz != b.dz }

  /** The square of `magnitude` (the square root itself is not modelled). */
  function SquaredMagnitude(v: Vector): real { Dot(v, v) }

  /** `add(b:)`. */
  method VectorAdd(v: Vector, b: Vector) returns (r: Vector)
    ensures r == Plus(v, b)
  {
    r := v;
    r := r.(dx := r.dx + b.dx);
    r := r.(dy := r.dy + b.dy);
    r := r.(dz := r.dz + b.dz);
  }

  /** `add(b:scaled:)`. */
  method VectorAddScaled(v: Vector, b: Vector, s: real) returns (r: Vector)
    ensures r == Plus(v, Scaled(b, s))
  {
    var step := Scaled(b, s);
    r := v;
    r := r.(dx := r.dx + step.dx);
    r := r.(dy := r.dy + step.dy);
    r := r.(dz := r.dz + step.dz);
  }

  /** `add(_ p: Position)`: the position's coordinates read as a vector. */
  method VectorAddPosition(v: Vector, p: Position) returns (r: Vector)
    ensures r == Plus(v, Vector(p.x, p.y, p.z))
  {
    r := v;
    r := r.(dx := r.dx + p.x);
    r := r.(dy := r.dy + p.y);
    r := r.(dz := r.dz + p.z);
  }

  /** `subtract(b:)`. */
  method VectorSubtract(v: Vector, b: Vector) returns (r: Vector)
    ensures r == Minus(v, b)
  {
    r := v;
    r := r.(dx := r.dx - b.dx);
    r := r.(dy := r.dy - b.dy);
    r := r.(dz := r.dz - b.dz);
  }

  /** `scale(by:)`. */
  method VectorScale(v: Vector, s: real) returns (r: Vector)
    ensures r == Scaled(v, s)
  {
    r := v;
    r := r.(dx := r.dx * s);
    r := r.(dy := r.dy * s);
    r := r.(dz := r.dz * s);
  }

  lemma VectorFromComponents(v: Vector)
    ensures MakeVector(VectorComponent(v, X), VectorComponent(v, Y)) == v.(dz := 0.0)
    ensures Vector(VectorComponent(v, X), VectorComponent(v, Y), VectorComponent(v, Z)) == v
  {
  }

  lemma AddThenSubtractRestoresVector(v: Vector, b: Vector)
    ensures Minus(Plus(v, b), b) == v
  {
  }

  lemma ScaledIsRepeatedAddition(v: Vector)
    ensures Scaled(v, 2.0) == Plus(v, v)
    ensures Scaled(v, 0.0) == ZeroVector
  {
  }

  lemma DotSymmetric(a: Vector, b: Vector)
    ensures Dot(a, b) == Dot(b, a)
  {
  }

  /** The cases of VectorTests.swift. */
  lemma DotAndCrossExamples()
    ensures Dot(Vector(9.0, 2.0, 7.0), Vector(4.0, 8.0, 10.0)) == 122.0
    ensures Dot(Vector(1.0, 1.0, 0.0), Vector(-1.0, -1.0, 0.0)) < 0.0
    ensures Cross(Vector(0.0, 1.0, 0.0), Vector(1.0, 0.0, 0.0)) == Vector(0.0, 0.0, -1.0)
  {
  }

  lemma CrossAnticommutes(a: Vector, b: Vector)
    ensures Cross(b, a) == Scaled(Cross(a, b), -1.0)
  {
  }

  /** The cross product is orthogonal to both of its factors. */
  lemma CrossOrthogonal(a: Vector, b: Vector)
    ensures Dot(Cross(a, b), a) == 0.0
    ensures Dot(Cross(a, b), b) == 0.0
  {
    calc {
      Dot(Cross(a, b), a);
      (a.dy * b.dz - a.dz * b.dy) * a.dx + (a.dz * b.dx - a.dx * b.dz) * a.dy + (a.dx * b.dy - a.dy * b.dx) * a.dz;
      a.dx * a.dy * b.dz - a.dx * a.dz * b.dy + a.dy * a.dz * b.dx - a.dx * a.dy * b.dz + a.dx * a.dz * b.dy - a.dy * a.dz * b.dx;
      0.0;
    }
    calc {
      Dot(Cross(a, b), b);
      (a.dy * b.dz - a.dz * b.dy) * b.dx + (a.dz * b.dx - a.dx * b.dz) * b.dy + (a.dx * b.dy - a.dy * b.dx) * b.dz;
      a.dy * b.dx * b.dz - a.dz * b.dx * b.dy + a.dz * b.dx * b.dy - a.dx * b.dy * b.dz + a.dx * b.dy * b.dz - a.dy * b.dx * b.dz;
      0.0;
    }
  }

  lemma VectorEqualityOperators(a: Vector, b: Vector)
    ensures VectorEquals(a, b) <==> a == b
    ensures VectorDiffers(a, b) <==> !VectorEquals(a, b)
  {
  }

  // ----- Position -----

  /** `Position(x:y:z:)`, whose `z` defaults to zero. */
  function MakePosition(x: real, y: real, z: real := 0.0): Position { Position(x, y, z) }

  /** `position[component]`. */
  function PositionComponent(p: Position, a: Axis): real {
    match a
    case X => p.x
    case Y => p.y
    case Z => p.z
  }

  /** The position moved by a vector: what `add(b:)` does to it. */
  function Translate(p: Position, v: Vector): Position { Position(p.x + v.dx, p.y + v.dy, p.z + v.dz) }

  /** `Position + Position`, which Swift types as a `Vector`. */
  function PositionSum(a: Position, b: Position): Vector { Vector(a.x + b.x, a.y + b.y, a.z + b.z) }

  /** `Position - Position`, which Swift types as a `Vector`. */
  function PositionDifference(a: Position, b: Position): Vector { Vector(a.x - b.x, a.y - b.y, a.z - b.z) }

  /** The position viewed as a `PlaneCoordinate`. */
  function AsPlane(p: Position): Plane { Plane(p.x, p.y) }

  /** `Position + PlaneCoordinate`: a `Position` built with the default `z`. */
  function PlusPlane(p: Position, c: Plane): Position { MakePosition(p.x + c.x, p.y + c.y) }

  /** `Position - PlaneCoordinate`. */
  function MinusPlane(p: Position, c: Plane): Position { MakePosition(p.x - c.x, p.y - c.y) }

  /** `PlaneCoordinate + Position`. */
  function PlanePlus(c: Plane, p: Position): Position { MakePosition(c.x + p.x, c.y + p.y) }

  /** `PlaneCoordinate - Position`. */
  function PlaneMinus(c: Plane, p: Position): Position { MakePosition(c.x - p.x, c.y - p.y) }

  predicate PositionEquals(a: Position, b: Position) { a.x == b.x && a.y == b.y && a.z == b.z }

  predicate PositionDiffers(a: Position, b: Position) { a.x != b.x || a.y != b.y || a.z != b.z }

  /** `add(b:)` on a position. */
  method PositionAdd(p: Position, b: Vector) returns (r: Position)
    ensures r == Translate(p, b)
  {
    r := p;
    r := r.(x := r.x + b.dx);
    r := r.(y := r.y + b.dy);
    r := r.(z := r.z + b.dz);
  }

  /** `add(b:scaled:)` on a position. */
  method PositionAddScaled(p: Position, b: Vector, s: real) returns (r: Position)
    ensures r == Translate(p, Scaled(b, s))
  {
    var step := Scaled(b, s);
    r := p;
    r := r.(x := r.x + step.dx);
    r := r.(y := r.y + step.dy);
    r := r.(z := r.z + step.dz);
  }

  /** `subtract(b:)` on a position: the translation by the opposite vector. */
  method PositionSubtract(p: Position, b: Vector) returns (r: Position)
    ensures r == Translate(p, Scaled(b, -1.0))
  {
    r := p;
    r := r.(x := r.x - b.dx);
    r := r.(y := r.y - b.dy);
    r := r.(z := r.z - b.dz);
  }

  lemma PositionFromComponents(p: Position)
    ensures Position(PositionComponent(p, X), PositionComponent(p, Y), PositionComponent(p, Z)) == p
  {
  }

  lemma PositionAddThenSubtractRestores(p: Position, b: Vector)
    ensures Translate(Translate(p, b), Scaled(b, -1.0)) == p
  {
  }

  /** `-` on positions measures exactly the translation between them. */
  lemma DifferenceInvertsTranslate(p: Position, v: Vector)
    ensures PositionDifference(Translate(p, v), p) == v
    ensures Translate(p, PositionDifference(Translate(p, v), p)) == Translate(p, v)
  {
  }

  /** Going through `PlaneCoordinate` drops `z`, in either argument order. */
  lemma PlaneOperatorsDropZ(p: Position, c: Plane)
    ensures PlusPlane(p, c).z == 0.0 && MinusPlane(p, c).z == 0.0
    ensures PlanePlus(c, p).z == 0.0 && PlaneMinus(c, p).z == 0.0
    ensures PlusPlane(p, c) == PlanePlus(c, p)
    ensures AsPlane(MinusPlane(PlusPlane(p, c), c)) == AsPlane(p)
    ensures PlaneMinus(c, p) == Translate(MinusPlane(Origin, AsPlane(p)), Vector(c.x, c.y, 0.0))
  {
  }

  lemma PositionSumAndDifference(a: Position, b: Position)
    ensures PositionSum(a, b) == PositionSum(b, a)
    ensures Translate(b, PositionDifference(a, b)) == a
  {
  }

  lemma PositionEqualityOperators(a: Position, b: Position)
    ensures PositionEquals(a, b) <==> a == b
    ensures PositionDiffers(a, b) <==> !PositionEquals(a, b)
  {
  }
}

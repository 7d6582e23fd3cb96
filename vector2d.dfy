/** The exact-arithmetic part of Sources/Physics/Vector2d.swift. */
module PackageVector2d {

  datatype Vector2d = Vector2d(dx: real, dy: real)

  const Zero2d: Vector2d := Vector2d(0.0, 0.0)

  /** `isNonZero`: `abs(dx) > 0 || abs(dy) > 0`. */
  predicate IsNonZero(v: Vector2d) {
    (if v.dx < 0.0 then -v.dx else v.dx) > 0.0 || (if v.dy < 0.0 then -v.dy else v.dy) > 0.0
  }

  function Plus(a: Vector2d, b: Vector2d): Vector2d { Vector2d(a.dx + b.dx, a.dy + b.dy) }

  /** The vector shifted back by `b`: what `subtract(b:)` does. */
  function Minus(a: Vector2d, b: Vector2d): Vector2d { Vector2d(a.dx - b.dx, a.dy - b.dy) }

  function Scaled(v: Vector2d, s: real): Vector2d { Vector2d(v.dx * s, v.dy * s) }

  predicate Equals(a: Vector2d, b: Vector2d) { a.dx == b.dx && a.dy == b.dy }

  predicate Differs(a: Vector2d, b: Vector2d) { a.dx != b.dx || a.dy != b.dy }

  /** `add(bx:by:)`. */
  method AddComponents(v: Vector2d, deltaX: real, deltaY: real) returns (r: Vector2d)
    ensures r == Plus(v, Vector2d(deltaX, deltaY))
  {
    r := v;
    r := r.(dx := r.dx + deltaX);
    r := r.(dy := r.dy + deltaY);
  }

  /** `add(b:)`. */
  method Add(v: Vector2d, b: Vector2d) returns (r: Vector2d)
    ensures r == Plus(v, b)
  {
    r := v;
    r := r.(dx := r.dx + b.dx);
    r := r.(dy := r.dy + b.dy);
  }

  /** `add(b:scaled:)`. */
  method AddScaled(v: Vector2d, b: Vector2d, s: real) returns (r: Vector2d)
    ensures r == Plus(v, Scaled(b, s))
  {
    var step := Scaled(b, s);
    r := v;
    r := r.(dx := r.dx + step.dx);
    r := r.(dy := r.dy + step.dy);
  }

  /** `subtract(bx:by:)`. */
  method SubtractComponents(v: Vector2d, deltaX: real, deltaY: real) returns (r: Vector2d)
    ensures r == Minus(v, Vector2d(deltaX, deltaY))
  {
    r := v;
    r := r.(dx := r.dx - deltaX);
    r := r.(dy := r.dy - deltaY);
  }

  /** `subtract(b:)`. */
  method Subtract(v: Vector2d, b: Vector2d) returns (r: Vector2d)
    ensures r == Minus(v, b)
  {
    r := v;
    r := r.(dx := r.dx - b.dx);
    r := r.(dy := r.dy - b.dy);
  }

  /** `scale(_:)`. */
  method Scale(v: Vector2d, s: real) returns (r: Vector2d)
    ensures r == Scaled(v, s)
  {
    r := v;
    r := r.(dx := r.dx * s);
    r := r.(dy := r.dy * s);
  }

  lemma NonZeroMeansSomeComponent(v: Vector2d)
    ensures IsNonZero(v) <==> v.dx != 0.0 || v.dy != 0.0
    ensures !IsNonZero(v) <==> v == Zero2d
  {
  }

  lemma AddThenSubtractRestores(v: Vector2d, b: Vector2d, deltaX: real, deltaY: real)
    ensures Minus(Plus(v, b), b) == v
    ensures Minus(Plus(v, Vector2d(deltaX, deltaY)), Vector2d(deltaX, deltaY)) == v
  {
  }

  lemma ScaledComponentwise(v: Vector2d, b: Vector2d, s: real)
    ensures Plus(v, Scaled(b, s)) == Vector2d(v.dx + s * b.dx, v.dy + s * b.dy)
    ensures Scaled(v, 1.0) == v && Scaled(v, 0.0) == Zero2d
  {
  }

  lemma PlusIsCommutative(a: Vector2d, b: Vector2d)
    ensures Plus(a, b) == Plus(b, a)
    ensures Plus(a, Zero2d) == a
  {
  }

  lemma EqualityOperators(a: Vector2d, b: Vector2d)
    ensures Equals(a, b) <==> a == b
    ensures Differs(a, b) <==> !Equals(a, b)
  {
  }
}

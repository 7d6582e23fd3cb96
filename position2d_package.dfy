/** The exact-arithmetic part of Sources/Physics/Position2d.swift. */
module PackagePosition2d {
  import opened PackageVector2d

  datatype Position2d = Position2d(x: real, y: real)

  /** The position moved by a vector: what `add(b:)` does. */
  function Moved(p: Position2d, b: Vector2d): Position2d { Position2d(p.x + b.dx, p.y + b.dy) }

  /** `distance(to:)`: the vector leading from `p` to `q`. */
  function DistanceTo(p: Position2d, q: Position2d): Vector2d { Vector2d(q.x - p.x, q.y - p.y) }

  function Sum(a: Position2d, b: Position2d): Position2d { Position2d(a.x + b.x, a.y + b.y) }

  function Difference(a: Position2d, b: Position2d): Position2d { Position2d(a.x - b.x, a.y - b.y) }

  predicate Equals(a: Position2d, b: Position2d) { a.x == b.x && a.y == b.y }

  predicate Differs(a: Position2d, b: Position2d) { a.x != b.x || a.y != b.y }

  /** `add(b:)`. */
  method Add(p: Position2d, b: Vector2d) returns (r: Position2d)
    ensures r == Moved(p, b)
  {
    r := p;
    r := r.(x := r.x + b.dx);
    r := r.(y := r.y + b.dy);
  }

  /** `add(b:scaled:)`. */
  method AddScaled(p: Position2d, b: Vector2d, s: real) returns (r: Position2d)
    ensures r == Moved(p, Scaled(b, s))
  {
    var step := Scaled(b, s);
    r := p;
    r := r.(x := r.x + step.dx);
    r := r.(y := r.y + step.dy);
  }

  /** Moving `p` by `distance(to: q)` lands on `q`; distances compose. */
  lemma MovingByDistanceReachesTarget(p: Position2d, q: Position2d, o: Position2d)
    ensures Moved(p, DistanceTo(p, q)) == q
    ensures DistanceTo(p, p) == Zero2d
    ensures Plus(DistanceTo(p, q), DistanceTo(q, o)) == DistanceTo(p, o)
  {
  }

  lemma SumThenDifferenceRestores(p: Position2d, q: Position2d)
    ensures Difference(Sum(p, q), q) == p
    ensures Sum(p, q) == Sum(q, p)
  {
  }

  lemma EqualityOperators(a: Position2d, b: Position2d)
    ensures Equals(a, b) <==> a == b
    ensures Differs(a, b) <==> !Equals(a, b)
  {
  }
}

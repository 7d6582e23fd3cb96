/**
 * Model of Sources/Physics/AABB.swift: an axis-aligned box whose cached
 * centre, minimum and maximum are recomputed by `updateRelativePositions`
 * whenever the position, the halfwidths or the anchor is written.
 */
module PackageAabb {
  import opened Wrappers
  import opened Numeric
  import opened LegacyGeometry
  import V2 = PackageVector2d

  /** `AABB.epsilon`. */
  const Epsilon: real := 0.000001

  const DefaultAnchor: Vector := Vector(0.5, 0.5, 0.5)

  /** The struct's stored fields: the three inputs and the three derived positions. */
  datatype Aabb = Aabb(position: Position, halfwidths: Vector, anchor: Vector,
                       center: Position, minimum: Position, maximum: Position)

  /** `Hit` as built by `intersect(_: AABB)`. */
  datatype Hit = Hit(delta: V2.Vector2d, normal: V2.Vector2d)

  /** `Ray`: an origin and a direction. */
  datatype Ray = Ray(position: Position, direction: Vector)

  // ----- Derived positions -----

  function CenterOf(position: Position, halfwidths: Vector, anchor: Vector): Position {
    Position(position.x + halfwidths.dx * 2.0 * (0.5 - anchor.dx),
             position.y + halfwidths.dy * 2.0 * (0.5 - anchor.dy),
             position.z + halfwidths.dz * 2.0 * (0.5 - anchor.dz))
  }

  /** The box with its derived positions computed from the three inputs. */
  function Make(position: Position, halfwidths: Vector, anchor: Vector := DefaultAnchor): (b: Aabb)
    ensures b.position == position && b.halfwidths == halfwidths && b.anchor == anchor
    ensures b.center == CenterOf(position, halfwidths, anchor)
    ensures b.minimum == Translate(b.center, Scaled(halfwidths, -1.0))
    ensures b.maximum == Translate(b.center, halfwidths)
  {
    var c := CenterOf(position, halfwidths, anchor);
    Aabb(position, halfwidths, anchor, c,
         Position(c.x - halfwidths.dx, c.y - halfwidths.dy, c.z - halfwidths.dz),
         Position(c.x + halfwidths.dx, c.y + halfwidths.dy, c.z + halfwidths.dz))
  }

  /** No derived field is stale. */
  predicate Consistent(b: Aabb) { b == Make(b.position, b.halfwidths, b.anchor) }

  /** `updateRelativePositions`: recompute centre, then minimum, then maximum. */
  method UpdateRelativePositions(b: Aabb) returns (r: Aabb)
    ensures Consistent(r)
    ensures r.position == b.position && r.halfwidths == b.halfwidths && r.anchor == b.anchor
  {
    r := b;
    r := r.(center := CenterOf(r.position, r.halfwidths, r.anchor));
    r := r.(minimum := Position(r.center.x - r.halfwidths.dx, r.center.y - r.halfwidths.dy, r.center.z - r.halfwidths.dz));
    r := r.(maximum := Position(r.center.x + r.halfwidths.dx, r.center.y + r.halfwidths.dy, r.center.z + r.halfwidths.dz));
  }

  /** `init(position:halfwidths:anchorPosition:)` and the decoding initializer. */
  method Init(position: Position, halfwidths: Vector, anchor: Vector := DefaultAnchor) returns (r: Aabb)
    ensures Consistent(r)
    ensures r.position == position && r.halfwidths == halfwidths && r.anchor == anchor
  {
    var raw := Aabb(position, halfwidths, anchor, Origin, Origin, Origin);
    r := UpdateRelativePositions(raw);
  }

  /** A write to `position` and its observer. */
  method SetPosition(b: Aabb, p: Position) returns (r: Aabb)
    ensures Consistent(r)
    ensures r.position == p && r.halfwidths == b.halfwidths && r.anchor == b.anchor
  {
    r := UpdateRelativePositions(b.(position := p));
  }

  /** A write to `halfwidths` and its observer. */
  method SetHalfwidths(b: Aabb, h: Vector) returns (r: Aabb)
    ensures Consistent(r)
    ensures r.position == b.position && r.halfwidths == h && r.anchor == b.anchor
  {
    r := UpdateRelativePositions(b.(halfwidths := h));
  }

  /** A write to `anchorPosition` and its observer. */
  method SetAnchor(b: Aabb, a: Vector) returns (r: Aabb)
    ensures Consistent(r)
    ensures r.position == b.position && r.halfwidths == b.halfwidths && r.anchor == a
  {
    r := UpdateRelativePositions(b.(anchor := a));
  }

  /** With the default anchor the centre is the position; the box spans centre ± halfwidths. */
  lemma DefaultAnchorCentersOnPosition(position: Position, halfwidths: Vector)
    ensures Make(position, halfwidths).center == position
    ensures Make(position, halfwidths).minimum == Position(position.x - halfwidths.dx, position.y - halfwidths.dy, position.z - halfwidths.dz)
  {
  }

  /** An anchor of 0 puts the position on the minimum corner, an anchor of 1 on the maximum corner. */
  lemma AnchorExtremes(position: Position, halfwidths: Vector)
    ensures Make(position, halfwidths, Vector(0.0, 0.0, 0.0)).minimum == position
    ensures Make(position, halfwidths, Vector(1.0, 1.0, 1.0)).maximum == position
  {
  }

  // ----- Containment -----

  /** `contains(_:)`: the three early-return tests in order. */
  predicate Contains(b: Aabb, p: Position) {
    if p.x < b.minimum.x || p.x > b.maximum.x then false
    else if p.y < b.minimum.y || p.y > b.maximum.y then false
    else if p.z < b.minimum.z || p.z > b.maximum.z then false
    else true
  }

  /** For a consistent box, containment is closeness to the centre on every axis. */
  lemma ContainsIsWithinHalfwidths(b: Aabb, p: Position)
    requires Consistent(b)
    ensures Contains(b, p) <==>
      (Abs(p.x - b.center.x) <= b.halfwidths.dx &&
       Abs(p.y - b.center.y) <= b.halfwidths.dy &&
       Abs(p.z - b.center.z) <= b.halfwidths.dz)
  {
  }

  /** The bounds are inclusive: both corners of a consistent box with non-negative halfwidths are inside. */
  lemma CornersAreContained(b: Aabb)
    requires Consistent(b)
    requires b.halfwidths.dx >= 0.0 && b.halfwidths.dy >= 0.0 && b.halfwidths.dz >= 0.0
    ensures Contains(b, b.minimum) && Contains(b, b.maximum) && Contains(b, b.center)
  {
  }

  // ----- Box against box -----

  /** Overlap of the two boxes along one axis: `(hwA + hwB) - |Δcentre|`. */
  function Penetration(hwA: real, hwB: real, d: real): real { (hwA + hwB) - Abs(d) }

  function SignOf(d: real): real { if d < 0.0 then -1.0 else 1.0 }

  /** `intersect(_: AABB)` as written: the normal repeats the y sign in its x component. */
  function IntersectAsWritten(a: Aabb, b: Aabb): (r: Option<Hit>)
    ensures r.None? <==>
      (Penetration(a.halfwidths.dx, b.halfwidths.dx, b.center.x - a.center.x) < Epsilon ||
       Penetration(a.halfwidths.dy, b.halfwidths.dy, b.center.y - a.center.y) < Epsilon ||
       Penetration(a.halfwidths.dz, b.halfwidths.dz, b.center.z - a.center.z) < Epsilon)
    ensures r.Some? ==>
      var px := Penetration(a.halfwidths.dx, b.halfwidths.dx, b.center.x - a.center.x);
      var py := Penetration(a.halfwidths.dy, b.halfwidths.dy, b.center.y - a.center.y);
      && px >= Epsilon && py >= Epsilon
      && Abs(r.value.delta.dx) == px && Abs(r.value.delta.dy) == py
      && (r.value.delta.dx < 0.0 <==> b.center.x < a.center.x)
      && (r.value.delta.dy < 0.0 <==> b.center.y < a.center.y)
      && r.value.normal.dx == r.value.normal.dy == SignOf(b.center.y - a.center.y)
  {
    var dx := b.center.x - a.center.x;
    var px := (a.halfwidths.dx + b.halfwidths.dx) - Abs(dx);
    if px < Epsilon then None
    else
      var dy := b.center.y - a.center.y;
      var py := (a.halfwidths.dy + b.halfwidths.dy) - Abs(dy);
      if py < Epsilon then None
      else
        var dz := b.center.z - a.center.z;
        var pz := (a.halfwidths.dz + b.halfwidths.dz) - Abs(dz);
        if pz < Epsilon then None
        else
          var sx := SignOf(dx);
          var sy := SignOf(dy);
          Some(Hit(V2.Vector2d(px * sx, py * sy), V2.Vector2d(sy, sy)))
  }

  /**
   * `intersect(_: AABB)` with the normal it evidently intends: the sign of the
   * centre offset on each axis, pointing from this box towards the other.
   */
  function Intersect(a: Aabb, b: Aabb): (r: Option<Hit>)
    ensures r.None? <==> IntersectAsWritten(a, b).None?
    ensures r.Some? ==> r.value.delta == IntersectAsWritten(a, b).value.delta
    ensures r.Some? ==>
      && r.value.normal.dx == SignOf(b.center.x - a.center.x)
      && r.value.normal.dy == SignOf(b.center.y - a.center.y)
  {
    match IntersectAsWritten(a, b)
    case None => None
    case Some(h) => Some(h.(normal := V2.Vector2d(SignOf(b.center.x - a.center.x), SignOf(b.center.y - a.center.y))))
  }

  /** Each component of the corrected normal points the way the overlap vector does. */
  lemma NormalFollowsDelta(a: Aabb, b: Aabb)
    requires Intersect(a, b).Some?
    ensures Intersect(a, b).value.normal.dx < 0.0 <==> Intersect(a, b).value.delta.dx < 0.0
    ensures Intersect(a, b).value.normal.dy < 0.0 <==> Intersect(a, b).value.delta.dy < 0.0
  {
  }

  /**
   * Swapping the boxes finds the same overlap; each component of `delta`
   * changes sign unless the centres coincide on that axis.
   */
  lemma IntersectSwapped(a: Aabb, b: Aabb)
    ensures Intersect(a, b).None? <==> Intersect(b, a).None?
    ensures Intersect(a, b).Some? ==>
      var d := Intersect(a, b).value.delta;
      var e := Intersect(b, a).value.delta;
      && e.dx == (if a.center.x == b.center.x then d.dx else -d.dx)
      && e.dy == (if a.center.y == b.center.y then d.dy else -d.dy)
  {
  }

  /** `minkowskiDifference(_:)`. */
  function MinkowskiDifference(a: Aabb, b: Aabb): (m: Aabb)
    ensures Consistent(m) && m.anchor == DefaultAnchor
    ensures m.halfwidths == Plus(a.halfwidths, b.halfwidths)
  {
    var h := Plus(a.halfwidths, b.halfwidths);
    Make(Position(a.minimum.x - b.maximum.x + h.dx, a.minimum.y - b.maximum.y + h.dy, a.minimum.z - b.maximum.z + h.dz), h)
  }

  /**
   * For consistent boxes the Minkowski difference is centred on the centre
   * offset, so it contains the origin exactly when no axis has a negative
   * penetration; in particular whenever `intersect` reports a hit.
   */
  lemma MinkowskiContainsOriginIffOverlap(a: Aabb, b: Aabb)
    requires Consistent(a) && Consistent(b)
    ensures MinkowskiDifference(a, b).center == Position(a.center.x - b.center.x, a.center.y - b.center.y, a.center.z - b.center.z)
    ensures Contains(MinkowskiDifference(a, b), Origin) <==>
      (Penetration(a.halfwidths.dx, b.halfwidths.dx, b.center.x - a.center.x) >= 0.0 &&
       Penetration(a.halfwidths.dy, b.halfwidths.dy, b.center.y - a.center.y) >= 0.0 &&
       Penetration(a.halfwidths.dz, b.halfwidths.dz, b.center.z - a.center.z) >= 0.0)
    ensures Intersect(a, b).Some? ==> Contains(MinkowskiDifference(a, b), Origin)
  {
  }

  /** Boxes whose centres are further apart on x or y than their halfwidths reach do not overlap. */
  lemma MinkowskiMissesApartBoxes(a: Aabb, b: Aabb)
    requires Consistent(a) && Consistent(b)
    requires Abs(b.center.x - a.center.x) > a.halfwidths.dx + b.halfwidths.dx ||
             Abs(b.center.y - a.center.y) > a.halfwidths.dy + b.halfwidths.dy
    ensures !Contains(MinkowskiDifference(a, b), Origin)
  {
    MinkowskiContainsOriginIffOverlap(a, b);
  }

  /** A `Float` that may be one of the infinities used as sentinels. */
  datatype Ext = NegInf | Fin(v: real) | PosInf

  predicate Less(a: Ext, b: Ext) {
    match a
    case NegInf => !b.NegInf?
    case Fin(x) => b.PosInf? || (b.Fin? && x < b.v)
    case PosInf => false
  }

  function ExtMax(a: Ext, b: Ext): Ext { if Less(a, b) then b else a }

  function ExtMin(a: Ext, b: Ext): Ext { if Less(b, a) then b else a }

  /** The running `(tNear, tFar)` pair. */
  datatype Window = Window(near: Ext, far: Ext)

  const Unbounded: Window := Window(NegInf, PosInf)

  /** The result of `intersect(_: Ray, ignoringZ:)`: nil, a point, or a point whose `Float` components are not finite. */
  datatype RayResult = Miss | HitPoint(point: Vector) | NonFinite

  /** The parameters at which the ray crosses the two planes of a slab, smaller first. */
  function Crossings(lo: real, hi: real, p: real, d: real): (real, real)
    requires d != 0.0
  {
    var t1 := (lo - p) / d;
    var t2 := (hi - p) / d;
    if t1 > t2 then (t2, t1) else (t1, t2)
  }

  /** Raise `tNear` to the entry, lower `tFar` to the exit, and reject an empty or past window. */
  function Narrow(w: Window, entry: real, exit: real): Option<Window> {
    var near := if Less(w.near, Fin(entry)) then Fin(entry) else w.near;
    var far := if Less(Fin(exit), w.far) then Fin(exit) else w.far;
    if Less(far, near) then None
    else if Less(far, Fin(0.0)) then None
    else Some(Window(near, far))
  }

  /** The slab helper `intersect(_:onAxis:_:_:)` on one axis, as a function of the incoming window (`None` is `false`). */
  function Slab(b: Aabb, ray: Ray, axis: Axis, w: Window): Option<Window> {
    var d := VectorComponent(ray.direction, axis);
    var p := PositionComponent(ray.position, axis);
    var lo := PositionComponent(b.minimum, axis);
    var hi := PositionComponent(b.maximum, axis);
    if d == 0.0 then
      if p < lo || p > hi then None else Some(w)
    else
      var c := Crossings(lo, hi, p, d);
      Narrow(w, c.0, c.1)
  }

  /** The window after the x, y and (unless ignored) z slabs; `None` when a slab rejects. */
  function RayWindow(b: Aabb, ray: Ray, ignoreZ: bool): Option<Window> {
    match Slab(b, ray, X, Unbounded)
    case None => None
    case Some(wx) =>
      match Slab(b, ray, Y, wx)
      case None => None
      case Some(wy) => if ignoreZ then Some(wy) else Slab(b, ray, Z, wy)
  }

  /** The chosen parameter: `max(tNear, tFar)` if either is negative, else `min(tNear, tFar)`. */
  function ChosenT(w: Window): Ext {
    if Less(w.near, Fin(0.0)) || Less(w.far, Fin(0.0)) then ExtMax(w.near, w.far) else ExtMin(w.near, w.far)
  }

  /** The point `direction * t + position`. */
  function PointAt(ray: Ray, t: real): Vector {
    Plus(Scaled(ray.direction, t), Vector(ray.position.x, ray.position.y, ray.position.z))
  }

  /** The result for the final window: the point at the chosen parameter. */
  function Finish(ray: Ray, w: Window): RayResult {
    match ChosenT(w)
    case Fin(t) => HitPoint(PointAt(ray, t))
    case _ => NonFinite
  }

  /** `intersect(_: Ray, ignoringZ:)`. */
  function RayCast(b: Aabb, ray: Ray, ignoreZ: bool): RayResult {
    match RayWindow(b, ray, ignoreZ)
    case None => Miss
    case Some(w) => Finish(ray, w)
  }

  /** The slab helper with its two `inout` parameters. */
  method SlabInPlace(b: Aabb, ray: Ray, axis: Axis, tNear: Ext, tFar: Ext) returns (ok: bool, near: Ext, far: Ext)
    ensures ok <==> Slab(b, ray, axis, Window(tNear, tFar)).Some?
    ensures ok ==> Slab(b, ray, axis, Window(tNear, tFar)) == Some(Window(near, far))
  {
    near, far := tNear, tFar;
    var d := VectorComponent(ray.direction, axis);
    var p := PositionComponent(ray.position, axis);
    if d == 0.0 {
      if p < PositionComponent(b.minimum, axis) || p > PositionComponent(b.maximum, axis) {
        return false, near, far;
      }
    } else {
      var t1 := (PositionComponent(b.minimum, axis) - p) / d;
      var t2 := (PositionComponent(b.maximum, axis) - p) / d;
      if t1 > t2 {
        t1, t2 := t2, t1;
      }
      if Less(near, Fin(t1)) {
        near := Fin(t1);
      }
      if Less(Fin(t2), far) {
        far := Fin(t2);
      }
      if Less(far, near) {
        return false, near, far;
      }
      if Less(far, Fin(0.0)) {
        return false, near, far;
      }
    }
    ok := true;
  }

  /** `intersect(_: Ray, ignoringZ:)` as written, with its early returns. */
  method IntersectRay(b: Aabb, ray: Ray, ignoreZ: bool) returns (r: RayResult)
    ensures r == RayCast(b, ray, ignoreZ)
  {
    var tNear, tFar := NegInf, PosInf;
    var ok;
    ok, tNear, tFar := SlabInPlace(b, ray, X, tNear, tFar);
    if !ok { return Miss; }
    ghost var wx := Window(tNear, tFar);
    ok, tNear, tFar := SlabInPlace(b, ray, Y, tNear, tFar);
    if !ok { return Miss; }
    if !ignoreZ {
      ghost var wy := Window(tNear, tFar);
      ok, tNear, tFar := SlabInPlace(b, ray, Z, tNear, tFar);
      if !ok {
        assert RayWindow(b, ray, ignoreZ) == Slab(b, ray, Z, wy);
        return Miss;
      }
    }
    assert RayWindow(b, ray, ignoreZ) == Some(Window(tNear, tFar));
    r := FinishRay(ray, tNear, tFar);
  }

  /** The tail of `intersect(_: Ray, ignoringZ:)`: choose `t`, then `direction * t + position`. */
  method FinishRay(ray: Ray, tNear: Ext, tFar: Ext) returns (r: RayResult)
    ensures r == Finish(ray, Window(tNear, tFar))
  {
    var t := if Less(tNear, Fin(0.0)) || Less(tFar, Fin(0.0)) then ExtMax(tNear, tFar) else ExtMin(tNear, tFar);
    if !t.Fin? {
      return NonFinite;
    }
    assert t == ChosenT(Window(tNear, tFar));
    var result := VectorScale(ray.direction, t.v);
    result := VectorAddPosition(result, ray.position);
    return HitPoint(result);
  }

  // ----- Meaning of the ray test -----

  /** Every slab of the box has its minimum plane below its maximum plane. */
  predicate Proper(b: Aabb) {
    b.minimum.x <= b.maximum.x && b.minimum.y <= b.maximum.y && b.minimum.z <= b.maximum.z
  }

  /** The ray's point at parameter `t` lies inside the box's slab on `axis`. */
  predicate InsideOnAxis(b: Aabb, ray: Ray, axis: Axis, t: real) {
    PositionComponent(b.minimum, axis)
      <= PositionComponent(ray.position, axis) + t * VectorComponent(ray.direction, axis)
      <= PositionComponent(b.maximum, axis)
  }

  /** A point at parameter `t` of the ray is inside every tested slab. */
  predicate InsideTested(b: Aabb, ray: Ray, ignoreZ: bool, t: real) {
    InsideOnAxis(b, ray, X, t) && InsideOnAxis(b, ray, Y, t) && (ignoreZ || InsideOnAxis(b, ray, Z, t))
  }

  predicate InWindow(t: real, w: Window) {
    !Less(Fin(t), w.near) && !Less(w.far, Fin(t))
  }

  /** A window the slabs can produce: not empty and not wholly behind the origin. */
  predicate Sane(w: Window) {
    !Less(w.far, w.near) && !Less(w.far, Fin(0.0))
  }

  /** One slab: `t` lies between the two crossings exactly when the point at `t` is between the planes. */
  lemma CrossingsBracket(lo: real, hi: real, p: real, d: real, t: real)
    requires d != 0.0 && lo <= hi
    ensures Crossings(lo, hi, p, d).0 <= t <= Crossings(lo, hi, p, d).1 <==> lo <= p + t * d <= hi
  {
    QuotientBound(lo - p, d, t);
    QuotientBound(hi - p, d, t);
    QuotientBound(lo - p, d, (hi - p) / d);
  }

  /** A window `Narrow` accepts lies inside the old window and the crossing interval, and is sane. */
  lemma NarrowSound(w: Window, entry: real, exit: real, t: real)
    requires Narrow(w, entry, exit).Some? && InWindow(t, Narrow(w, entry, exit).value)
    ensures InWindow(t, w) && entry <= t <= exit
  {
  }

  /** `Narrow` keeps every non-negative parameter of the window that is also between the crossings. */
  lemma NarrowComplete(w: Window, entry: real, exit: real, t: real)
    requires InWindow(t, w) && entry <= t <= exit && t >= 0.0
    ensures Narrow(w, entry, exit).Some? && InWindow(t, Narrow(w, entry, exit).value)
  {
  }

  /** An accepting slab keeps the window sane; a slab the ray is parallel to passes the window unchanged. */
  lemma SlabKeepsSane(b: Aabb, ray: Ray, axis: Axis, w: Window)
    requires Sane(w) && Slab(b, ray, axis, w).Some?
    ensures Sane(Slab(b, ray, axis, w).value)
    ensures VectorComponent(ray.direction, axis) == 0.0 ==> Slab(b, ray, axis, w).value == w
    ensures VectorComponent(ray.direction, axis) != 0.0 ==>
      Slab(b, ray, axis, w).value.near.Fin? && Slab(b, ray, axis, w).value.far.Fin?
  {
  }

  /** A slab that accepts narrows the window to parameters whose point is inside that slab. */
  lemma SlabSound(b: Aabb, ray: Ray, axis: Axis, w: Window, t: real)
    requires Proper(b)
    requires Slab(b, ray, axis, w).Some? && InWindow(t, Slab(b, ray, axis, w).value)
    ensures InWindow(t, w) && InsideOnAxis(b, ray, axis, t)
  {
    var d := VectorComponent(ray.direction, axis);
    var lo, hi, p := PositionComponent(b.minimum, axis), PositionComponent(b.maximum, axis), PositionComponent(ray.position, axis);
    assert lo <= hi by { ProperOnAxis(b, axis); }
    if d == 0.0 {
      assert Slab(b, ray, axis, w) == Some(w) && lo <= p <= hi;
      ZeroStep(p, d, t);
    } else {
      var c := Crossings(lo, hi, p, d);
      assert Slab(b, ray, axis, w) == Narrow(w, c.0, c.1);
      CrossingSound(lo, hi, p, d, w, t);
    }
  }

  /** Narrowing to the crossings of a slab keeps only parameters whose point is inside the slab. */
  lemma CrossingSound(lo: real, hi: real, p: real, d: real, w: Window, t: real)
    requires d != 0.0 && lo <= hi
    requires var c := Crossings(lo, hi, p, d); Narrow(w, c.0, c.1).Some? && InWindow(t, Narrow(w, c.0, c.1).value)
    ensures InWindow(t, w) && lo <= p + t * d <= hi
  {
    var c := Crossings(lo, hi, p, d);
    NarrowSound(w, c.0, c.1, t);
    CrossingsBracket(lo, hi, p, d, t);
  }

  /** A slab lets through every non-negative parameter of the window whose point is inside it. */
  lemma SlabComplete(b: Aabb, ray: Ray, axis: Axis, w: Window, t: real)
    requires Proper(b)
    requires InWindow(t, w) && t >= 0.0 && InsideOnAxis(b, ray, axis, t)
    ensures Slab(b, ray, axis, w).Some? && InWindow(t, Slab(b, ray, axis, w).value)
  {
    var d := VectorComponent(ray.direction, axis);
    var lo, hi, p := PositionComponent(b.minimum, axis), PositionComponent(b.maximum, axis), PositionComponent(ray.position, axis);
    assert lo <= hi by { ProperOnAxis(b, axis); }
    if d == 0.0 {
      assert Slab(b, ray, axis, w) == Some(w);
    } else {
      var c := Crossings(lo, hi, p, d);
      assert Slab(b, ray, axis, w) == Narrow(w, c.0, c.1);
      CrossingComplete(lo, hi, p, d, w, t);
    }
  }

  /** A ray that does not move along an axis stays at its start there. */
  lemma ZeroStep(p: real, d: real, t: real)
    requires d == 0.0
    ensures p + t * d == p
  {
  }

  /** A proper box spans no negative extent on any axis. */
  lemma ProperOnAxis(b: Aabb, axis: Axis)
    requires Proper(b)
    ensures PositionComponent(b.minimum, axis) <= PositionComponent(b.maximum, axis)
  {
  }

  /** Narrowing to the crossings of a slab keeps every non-negative parameter whose point is inside the slab. */
  lemma CrossingComplete(lo: real, hi: real, p: real, d: real, w: Window, t: real)
    requires d != 0.0 && lo <= hi
    requires InWindow(t, w) && t >= 0.0 && lo <= p + t * d <= hi
    ensures var c := Crossings(lo, hi, p, d); Narrow(w, c.0, c.1).Some? && InWindow(t, Narrow(w, c.0, c.1).value)
  {
    var c := Crossings(lo, hi, p, d);
    CrossingsBracket(lo, hi, p, d, t);
    NarrowComplete(w, c.0, c.1, t);
  }

  /** The window of an accepting ray test is sane. */
  lemma SlabKeepsSaneWindow(b: Aabb, ray: Ray, ignoreZ: bool)
    requires RayWindow(b, ray, ignoreZ).Some?
    ensures Sane(RayWindow(b, ray, ignoreZ).value)
  {
    var wx := Slab(b, ray, X, Unbounded).value;
    SlabKeepsSane(b, ray, X, Unbounded);
    SlabKeepsSane(b, ray, Y, wx);
    if !ignoreZ {
      SlabKeepsSane(b, ray, Z, Slab(b, ray, Y, wx).value);
    }
  }

  /** The chosen parameter of a sane window, when finite, lies in the window and is not negative. */
  lemma ChosenInWindow(w: Window)
    requires Sane(w) && ChosenT(w).Fin?
    ensures InWindow(ChosenT(w).v, w) && ChosenT(w).v >= 0.0
  {
  }

  /**
   * A hit is the point at a parameter `t >= 0` of the ray (in front of its
   * origin) that lies inside every tested slab of the box.
   */
  lemma RayHitIsInside(b: Aabb, ray: Ray, ignoreZ: bool)
    requires Proper(b) && RayCast(b, ray, ignoreZ).HitPoint?
    ensures var t := ChosenT(RayWindow(b, ray, ignoreZ).value);
      && t.Fin? && t.v >= 0.0 && InsideTested(b, ray, ignoreZ, t.v)
      && RayCast(b, ray, ignoreZ).point == PointAt(ray, t.v)
  {
    var wx := Slab(b, ray, X, Unbounded).value;
    SlabKeepsSane(b, ray, X, Unbounded);
    var wy := Slab(b, ray, Y, wx).value;
    SlabKeepsSane(b, ray, Y, wx);
    var w := RayWindow(b, ray, ignoreZ).value;
    if !ignoreZ {
      SlabKeepsSane(b, ray, Z, wy);
    }
    ChosenInWindow(w);
    var t := ChosenT(w).v;
    if !ignoreZ {
      SlabSound(b, ray, Z, wy, t);
    }
    SlabSound(b, ray, Y, wx, t);
    SlabSound(b, ray, X, Unbounded, t);
  }

  /** Conversely, if some point in front of the ray's origin is inside every tested slab, the test does not miss. */
  lemma RayCastFindsInsidePoint(b: Aabb, ray: Ray, ignoreZ: bool, t: real)
    requires Proper(b) && t >= 0.0 && InsideTested(b, ray, ignoreZ, t)
    ensures RayCast(b, ray, ignoreZ) != Miss
  {
    SlabComplete(b, ray, X, Unbounded, t);
    var wx := Slab(b, ray, X, Unbounded).value;
    SlabComplete(b, ray, Y, wx, t);
    var wy := Slab(b, ray, Y, wx).value;
    if !ignoreZ {
      SlabComplete(b, ray, Z, wy, t);
    }
  }

  /** The result is not finite exactly when no tested direction component is set and the origin is inside those slabs. */
  lemma RayNonFiniteIffParallel(b: Aabb, ray: Ray, ignoreZ: bool)
    ensures RayCast(b, ray, ignoreZ) == NonFinite <==>
      (&& ray.direction.dx == 0.0 && ray.direction.dy == 0.0 && (ignoreZ || ray.direction.dz == 0.0)
       && InsideTested(b, ray, ignoreZ, 0.0))
  {
    if Slab(b, ray, X, Unbounded).Some? {
      var wx := Slab(b, ray, X, Unbounded).value;
      SlabKeepsSane(b, ray, X, Unbounded);
      if Slab(b, ray, Y, wx).Some? {
        SlabKeepsSane(b, ray, Y, wx);
        if !ignoreZ && Slab(b, ray, Z, Slab(b, ray, Y, wx).value).Some? {
          SlabKeepsSane(b, ray, Z, Slab(b, ray, Y, wx).value);
        }
      }
    }
  }

  /** A window whose chosen parameter is `t` gives the point at `t`. */
  lemma RayCastAtWindow(b: Aabb, ray: Ray, ignoreZ: bool, w: Window, t: real)
    requires RayWindow(b, ray, ignoreZ) == Some(w) && ChosenT(w) == Fin(t)
    ensures RayCast(b, ray, ignoreZ) == HitPoint(PointAt(ray, t))
  {
  }

  /** On an axis whose direction component is 1, the slab crosses its planes at `lo - p` and `hi - p`. */
  lemma UnitSlab(b: Aabb, ray: Ray, axis: Axis, w: Window)
    requires VectorComponent(ray.direction, axis) == 1.0
    requires PositionComponent(b.minimum, axis) <= PositionComponent(b.maximum, axis)
    ensures Slab(b, ray, axis, w) == Narrow(w, PositionComponent(b.minimum, axis) - PositionComponent(ray.position, axis),
                                               PositionComponent(b.maximum, axis) - PositionComponent(ray.position, axis))
  {
  }
}

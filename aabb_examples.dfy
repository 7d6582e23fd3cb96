/**
 * Concrete cases from AABBTests.swift, stated over boxes whose derived
 * fields are written out and tied to `Make` by a lemma each.
 */
module PackageAabbExamples {
  import opened Wrappers
  import opened Numeric
  import opened LegacyGeometry
  import opened PackageAabb
  import V2 = PackageVector2d

  /** As written, a box overlapping from the left still gets a normal whose x component is +1. */
  lemma AsWrittenNormalIgnoresX()
    ensures var a := Make(Origin, Vector(5.0, 5.0, 5.0));
      var b := Make(Position(-1.0, 1.0, 0.0), Vector(5.0, 5.0, 5.0));
      && IntersectAsWritten(a, b).Some?
      && IntersectAsWritten(a, b).value.delta.dx < 0.0
      && IntersectAsWritten(a, b).value.normal.dx == 1.0
      && Intersect(a, b).value.normal.dx == -1.0
  {
  }

  /** AABBTests: boxes at (5, 5) and (5, 10) with halfwidths 5 overlap. */
  lemma MinkowskiHitExample()
    ensures Contains(MinkowskiDifference(Make(Position(5.0, 5.0, 0.0), Vector(5.0, 5.0, 5.0)),
                                         Make(Position(5.0, 10.0, 0.0), Vector(5.0, 5.0, 5.0))), Origin)
  {
  }

  /** The box of halfwidth 5 centred on (10, 10, 0), derived fields written out. */
  const BoxAtTen: Aabb := Aabb(Position(10.0, 10.0, 0.0), Vector(5.0, 5.0, 5.0), DefaultAnchor, Position(10.0, 10.0, 0.0),
                               Position(5.0, 5.0, -5.0), Position(15.0, 15.0, 5.0))

  lemma BoxAtTenIsMade()
    ensures Make(Position(10.0, 10.0, 0.0), Vector(5.0, 5.0, 5.0)) == BoxAtTen
  {
    DefaultAnchorCentersOnPosition(Position(10.0, 10.0, 0.0), Vector(5.0, 5.0, 5.0));
  }

  /** A box of halfwidth 5 whose centre is more than 10 from (10, 10) on x or y does not overlap the box of halfwidth 5 at (10, 10). */
  lemma MinkowskiMissesFarBox(b: Aabb)
    requires Consistent(b) && b.halfwidths == Vector(5.0, 5.0, 5.0)
    requires Abs(b.center.x - 10.0) > 10.0 || Abs(b.center.y - 10.0) > 10.0
    ensures !Contains(MinkowskiDifference(BoxAtTen, b), Origin)
  {
    BoxAtTenIsMade();
    MinkowskiMissesApartBoxes(BoxAtTen, b);
  }

  /** AABBTests: boxes 1e-5 further than touching, on either side of the box at (10, 10), do not overlap. */
  lemma MinkowskiMissExamples()
    ensures !Contains(MinkowskiDifference(BoxAtTen, Make(Position(-0.00001, 0.0, 0.0), Vector(5.0, 5.0, 5.0))), Origin)
    ensures !Contains(MinkowskiDifference(BoxAtTen, Make(Position(0.0, 20.00001, 0.0), Vector(5.0, 5.0, 5.0))), Origin)
    ensures !Contains(MinkowskiDifference(BoxAtTen, Make(Position(20.0, -0.00001, 0.0), Vector(5.0, 5.0, 5.0))), Origin)
    ensures !Contains(MinkowskiDifference(BoxAtTen, Make(Position(20.00001, 20.0, 0.0), Vector(5.0, 5.0, 5.0))), Origin)
  {
    assert Abs(-0.00001 - 10.0) > 10.0 && Abs(20.00001 - 10.0) > 10.0;
    var h := Vector(5.0, 5.0, 5.0);
    DefaultAnchorCentersOnPosition(Position(-0.00001, 0.0, 0.0), h);
    MinkowskiMissesFarBox(Make(Position(-0.00001, 0.0, 0.0), h));
    DefaultAnchorCentersOnPosition(Position(0.0, 20.00001, 0.0), h);
    MinkowskiMissesFarBox(Make(Position(0.0, 20.00001, 0.0), h));
    DefaultAnchorCentersOnPosition(Position(20.0, -0.00001, 0.0), h);
    MinkowskiMissesFarBox(Make(Position(20.0, -0.00001, 0.0), h));
    DefaultAnchorCentersOnPosition(Position(20.00001, 20.0, 0.0), h);
    MinkowskiMissesFarBox(Make(Position(20.00001, 20.0, 0.0), h));
  }

  /** AABBTests: boxes at (10, 10) and (15, 15) with halfwidths 5 intersect. */
  lemma SeparatingAxisExample()
    ensures Intersect(Make(Position(10.0, 10.0, 0.0), Vector(5.0, 5.0, 5.0)),
                      Make(Position(15.0, 15.0, 0.0), Vector(5.0, 5.0, 5.0))) == Some(Hit(V2.Vector2d(5.0, 5.0), V2.Vector2d(1.0, 1.0)))
  {
  }

  // ----- Box against ray -----

  /** AABBTests: rays that pass beside the box miss it. */
  lemma RayMissExamples()
    ensures RayCast(Cube, Ray(Position(0.0, 25.0, 0.0), Vector(1.0, 0.0, 0.0)), false) == Miss
    ensures RayCast(Cube, Ray(Position(50.0, 50.0, 0.0), Vector(0.0, 5.0, 0.0)), false) == Miss
  {
    var ray := Ray(Position(0.0, 25.0, 0.0), Vector(1.0, 0.0, 0.0));
    UnitSlab(Cube, ray, X, Unbounded);
    assert Slab(Cube, ray, X, Unbounded) == Some(Window(Fin(-10.0), Fin(10.0)));
    assert Slab(Cube, ray, Y, Window(Fin(-10.0), Fin(10.0))) == None;
    assert Slab(Cube, Ray(Position(50.0, 50.0, 0.0), Vector(0.0, 5.0, 0.0)), X, Unbounded) == None;
  }

  /** AABBTests: a diagonal ray from the minimum corner of the cube (`Cube` is `Make(Origin, (10, 10, 10))`) hits at that corner. */
  lemma RayHitFromMinimumCorner()
    ensures RayCast(Cube, Ray(Position(-10.0, -10.0, 0.0), Vector(1.0, 1.0, 0.0)), false)
      == HitPoint(Vector(-10.0, -10.0, 0.0))
  {
    var ray := Ray(Position(-10.0, -10.0, 0.0), Vector(1.0, 1.0, 0.0));
    var w := Window(Fin(0.0), Fin(20.0));
    MinimumCornerWindow();
    assert ChosenT(w) == Fin(0.0);
    RayCastAtWindow(Cube, ray, false, w, 0.0);
    assert PointAt(ray, 0.0) == Vector(-10.0, -10.0, 0.0);
  }

  /** AABBTests: a diagonal ray leaving from the maximum corner of the cube hits at that corner. */
  lemma RayHitFromMaximumCorner()
    ensures RayCast(Cube, Ray(Position(10.0, 10.0, 0.0), Vector(1.0, 1.0, 0.0)), false)
      == HitPoint(Vector(10.0, 10.0, 0.0))
  {
    var ray := Ray(Position(10.0, 10.0, 0.0), Vector(1.0, 1.0, 0.0));
    var w := Window(Fin(-20.0), Fin(0.0));
    MaximumCornerWindow();
    assert ChosenT(w) == Fin(0.0);
    RayCastAtWindow(Cube, ray, false, w, 0.0);
    assert PointAt(ray, 0.0) == Vector(10.0, 10.0, 0.0);
  }

  /** AABBTests: a ray rising over the box at (6, 6) (`BoxAtSix`) hits it when z is ignored. */
  lemma RayIgnoringZExample()
    ensures RayCast(BoxAtSix, Ray(Position(0.0, 0.0, 6.0), Vector(1.0, 1.0, 1.0)), true)
      == HitPoint(Vector(1.0, 1.0, 7.0))
  {
    var ray := Ray(Position(0.0, 0.0, 6.0), Vector(1.0, 1.0, 1.0));
    var w := Window(Fin(1.0), Fin(11.0));
    OverBoxAtSixWindow();
    assert RayWindow(BoxAtSix, ray, true) == Some(w);
    assert ChosenT(w) == Fin(1.0);
    RayCastAtWindow(BoxAtSix, ray, true, w, 1.0);
    assert PointAt(ray, 1.0) == Vector(1.0, 1.0, 7.0);
  }

  /** AABBTests: the same ray misses the box when z is tested. */
  lemma RayWithZExample()
    ensures RayCast(BoxAtSix, Ray(Position(0.0, 0.0, 6.0), Vector(1.0, 1.0, 1.0)), false) == Miss
  {
    var ray := Ray(Position(0.0, 0.0, 6.0), Vector(1.0, 1.0, 1.0));
    var w := Window(Fin(1.0), Fin(11.0));
    OverBoxAtSixWindow();
    UnitSlab(BoxAtSix, ray, Z, w);
    assert Slab(BoxAtSix, ray, Z, w) == Narrow(w, -11.0, -1.0);
  }

  /** The cube of halfwidth 10 centred on the origin, derived fields written out. */
  const Cube: Aabb := Aabb(Origin, Vector(10.0, 10.0, 10.0), DefaultAnchor, Origin,
                           Position(-10.0, -10.0, -10.0), Position(10.0, 10.0, 10.0))

  lemma CubeIsMade()
    ensures Make(Origin, Vector(10.0, 10.0, 10.0)) == Cube
  {
    assert CenterOf(Origin, Vector(10.0, 10.0, 10.0), DefaultAnchor) == Origin;
  }

  /** The box of halfwidth 5 centred on (6, 6, 0), derived fields written out. */
  const BoxAtSix: Aabb := Aabb(Position(6.0, 6.0, 0.0), Vector(5.0, 5.0, 5.0), DefaultAnchor, Position(6.0, 6.0, 0.0),
                               Position(1.0, 1.0, -5.0), Position(11.0, 11.0, 5.0))

  lemma BoxAtSixIsMade()
    ensures Make(Position(6.0, 6.0, 0.0), Vector(5.0, 5.0, 5.0)) == BoxAtSix
  {
    assert CenterOf(Position(6.0, 6.0, 0.0), Vector(5.0, 5.0, 5.0), DefaultAnchor) == Position(6.0, 6.0, 0.0);
  }

  /** The diagonal ray from the minimum corner keeps the window [0, 20] through every slab of the cube. */
  lemma MinimumCornerWindow()
    ensures RayWindow(Cube, Ray(Position(-10.0, -10.0, 0.0), Vector(1.0, 1.0, 0.0)), false) == Some(Window(Fin(0.0), Fin(20.0)))
  {
    var ray := Ray(Position(-10.0, -10.0, 0.0), Vector(1.0, 1.0, 0.0));
    var w := Window(Fin(0.0), Fin(20.0));
    UnitSlab(Cube, ray, X, Unbounded);
    assert Slab(Cube, ray, X, Unbounded) == Some(w);
    UnitSlab(Cube, ray, Y, w);
    assert Slab(Cube, ray, Y, w) == Some(w);
  }

  /** The diagonal ray from the maximum corner keeps the window [-20, 0] through every slab of the cube. */
  lemma MaximumCornerWindow()
    ensures RayWindow(Cube, Ray(Position(10.0, 10.0, 0.0), Vector(1.0, 1.0, 0.0)), false) == Some(Window(Fin(-20.0), Fin(0.0)))
  {
    var ray := Ray(Position(10.0, 10.0, 0.0), Vector(1.0, 1.0, 0.0));
    var w := Window(Fin(-20.0), Fin(0.0));
    UnitSlab(Cube, ray, X, Unbounded);
    assert Slab(Cube, ray, X, Unbounded) == Some(w);
    UnitSlab(Cube, ray, Y, w);
    assert Slab(Cube, ray, Y, w) == Some(w);
  }

  /** The x and y slabs of the box at (6, 6, 0) narrow the diagonal ray from (0, 0, 6) to the window [1, 11]. */
  lemma OverBoxAtSixWindow()
    ensures var ray := Ray(Position(0.0, 0.0, 6.0), Vector(1.0, 1.0, 1.0));
      var w := Window(Fin(1.0), Fin(11.0));
      Slab(BoxAtSix, ray, X, Unbounded) == Some(w) && Slab(BoxAtSix, ray, Y, w) == Some(w)
  {
    var ray := Ray(Position(0.0, 0.0, 6.0), Vector(1.0, 1.0, 1.0));
    var w := Window(Fin(1.0), Fin(11.0));
    UnitSlab(BoxAtSix, ray, X, Unbounded);
    assert Slab(BoxAtSix, ray, X, Unbounded) == Some(w);
    UnitSlab(BoxAtSix, ray, Y, w);
  }
}

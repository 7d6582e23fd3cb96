/**
 * The clamped value types of UselessEngine/GameWorldConfiguration.swift
 * and UselessEngine/Physics/PhysicsCoefficients.swift, and the global
 * defaults of UselessEngine/Settings.swift.
 */
module LegacySettings {
  import opened Numeric
  import V2 = PackageVector2d

  /** `Float.pi`, as the exact decimal it is written as here. */
  const Pi: real := 3.1415927

  /**
   * `GameWorldConfiguration`: the two sun-angle fields are private and
   * only the two setters write them.
   */
  datatype Configuration = Configuration(tileSize: V2.Vector2d, collisionCellSize: V2.Vector2d, gravity: real,
                                         sunAngleInDegrees: real, sunAngleInRadians: real)
  {
    /** Both angles in range and naming the same angle. */
    predicate Valid() {
      && 0.0 <= sunAngleInDegrees <= 180.0
      && 0.0 <= sunAngleInRadians <= Pi
      && sunAngleInRadians == sunAngleInDegrees * Pi / 180.0
    }

    /** The `sunAngleInDegrees` setter: clamp to `[0, 180]`, then derive the radians. */
    function WithSunAngleInDegrees(degrees: real): (c: Configuration)
      ensures c.Valid()
      ensures c.sunAngleInDegrees == Clamp(degrees, 0.0, 180.0)
      ensures c.tileSize == tileSize && c.collisionCellSize == collisionCellSize && c.gravity == gravity
    {
      var d := Clamp(degrees, 0.0, 180.0);
      assert d * Pi / 180.0 <= 180.0 * Pi / 180.0;
      this.(sunAngleInDegrees := d, sunAngleInRadians := d * Pi / 180.0)
    }

    /** The `sunAngleInRadians` setter: clamp to `[0, pi]`, then derive the degrees. */
    function WithSunAngleInRadians(radians: real): (c: Configuration)
      ensures c.Valid()
      ensures c.sunAngleInRadians == Clamp(radians, 0.0, Pi)
      ensures c.tileSize == tileSize && c.collisionCellSize == collisionCellSize && c.gravity == gravity
    {
      var r := Clamp(radians, 0.0, Pi);
      var d := r * 180.0 / Pi;
      assert d * Pi / 180.0 == r;
      assert d <= Pi * 180.0 / Pi;
      this.(sunAngleInDegrees := d, sunAngleInRadians := r)
    }
  }

  /**
   * `init(tileSize:collisionCellSize:gravity:sunAngleInDegrees:)`: the
   * defaults 90 and 1.5708, then the deferred degrees setter.
   */
  function NewConfiguration(tileSize: V2.Vector2d, collisionCellSize: V2.Vector2d, gravity: real, sunAngleInDegrees: real): (c: Configuration)
    ensures c.Valid() && c.sunAngleInDegrees == Clamp(sunAngleInDegrees, 0.0, 180.0)
    ensures c.tileSize == tileSize && c.collisionCellSize == collisionCellSize && c.gravity == gravity
  {
    Configuration(tileSize, collisionCellSize, gravity, 90.0, 1.5708).WithSunAngleInDegrees(sunAngleInDegrees)
  }

  /** Setting an angle through one setter and reading it back through the other setter's unit agrees. */
  lemma DegreesRadiansRoundTrip(c: Configuration, degrees: real)
    requires 0.0 <= degrees <= 180.0
    ensures c.WithSunAngleInDegrees(degrees).sunAngleInRadians == degrees * Pi / 180.0
    ensures c.WithSunAngleInRadians(degrees * Pi / 180.0).sunAngleInDegrees == degrees
  {
    var r := degrees * Pi / 180.0;
    assert 0.0 <= r <= Pi by {
      assert degrees * Pi <= 180.0 * Pi;
    }
    assert r * 180.0 / Pi == degrees;
  }

  /** Out-of-range angles land on the nearest end. */
  lemma SunAngleClampExamples(c: Configuration)
    ensures c.WithSunAngleInDegrees(-10.0).sunAngleInRadians == 0.0
    ensures c.WithSunAngleInDegrees(400.0).sunAngleInRadians == Pi
    ensures c.WithSunAngleInRadians(7.0).sunAngleInDegrees == 180.0
  {
  }

  /** `PhysicsCoefficients`. */
  datatype Coefficients = Coefficients(groundCof: real, dragCoeff: real, bounceCoeff: real)

  /** `init(groundCof:dragCoeff:bounceCoeff:)`: friction and drag at least 0, bounce within `[0, 0.95]`. */
  function NewCoefficients(groundCof: real, dragCoeff: real, bounceCoeff: real): (c: Coefficients)
    ensures c.groundCof >= 0.0 && (groundCof >= 0.0 ==> c.groundCof == groundCof) && (groundCof < 0.0 ==> c.groundCof == 0.0)
    ensures c.dragCoeff >= 0.0 && (dragCoeff >= 0.0 ==> c.dragCoeff == dragCoeff) && (dragCoeff < 0.0 ==> c.dragCoeff == 0.0)
    ensures c.bounceCoeff == Clamp(bounceCoeff, 0.0, 0.95)
  {
    Coefficients(Max(groundCof, 0.0), Max(dragCoeff, 0.0), Min(Max(bounceCoeff, 0.0), 0.95))
  }

  /** Building from coefficients that already lie in range keeps them. */
  lemma NewCoefficientsIdempotent(groundCof: real, dragCoeff: real, bounceCoeff: real)
    ensures var c := NewCoefficients(groundCof, dragCoeff, bounceCoeff);
      NewCoefficients(c.groundCof, c.dragCoeff, c.bounceCoeff) == c
  {
  }

  /** `Settings.defaults`: the two global defaults and their setters. */
  class Settings {
    /** `graphics.animationFrameRate`, a `UInt8`. */
    var animationFrameRate: nat
    /** `physics.minimumBoostDecayValue`. */
    var minimumBoostDecayValue: real

    predicate Valid()
      reads this
    {
      animationFrameRate < 256 && minimumBoostDecayValue > 0.0
    }

    /** The shipped defaults, 10 and 0.1. */
    constructor ()
      ensures Valid() && animationFrameRate == 10 && minimumBoostDecayValue == 0.1
    {
      animationFrameRate := 10;
      minimumBoostDecayValue := 0.1;
    }

    /** `setDefault(animationFrameRate:)`: any `UInt8`, zero included. */
    method SetDefaultAnimationFrameRate(newValue: nat)
      requires Valid() && newValue < 256
      modifies this
      ensures Valid() && animationFrameRate == newValue
      ensures minimumBoostDecayValue == old(minimumBoostDecayValue)
    {
      animationFrameRate := newValue;
    }

    /** `setDefault(minimumBoostDecayValue:)`: ignored unless positive. */
    method SetDefaultMinimumBoostDecayValue(newValue: real)
      requires Valid()
      modifies this
      ensures Valid()
      ensures minimumBoostDecayValue == if newValue > 0.0 then newValue else old(minimumBoostDecayValue)
      ensures animationFrameRate == old(animationFrameRate)
    {
      if newValue <= 0.0 {
        return;
      }
      minimumBoostDecayValue := newValue;
    }
  }
}

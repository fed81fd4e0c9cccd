/** The position/velocity integrator the camera moves with (src/core/movement.rs). */
module Movement {
  import opened Vectors

  /** `f32::EPSILON`, 2^-23. */
  const Epsilon: real := 0.00000011920928955078125

  /** The velocity `tick` keeps: v itself, or v rescaled to length maxSpeed when too fast. */
  function ClampSpeed(m: Maths, v: Vec3, maxSpeed: real): (r: Vec3) {
    if Magnitude(m, v) > maxSpeed + Epsilon then Normalize(m, v).Scale(maxSpeed) else v
  }

  /**
   * After the clamp the speed is at most maxSpeed + EPSILON; a velocity within
   * that bound is kept, and a faster one keeps its direction and gets length
   * exactly maxSpeed.
   */
  lemma ClampSpeedBound(m: Maths, v: Vec3, maxSpeed: real)
    requires SqrtLaw(m) && 0.0 <= maxSpeed
    ensures Magnitude(m, ClampSpeed(m, v, maxSpeed)) <= maxSpeed + Epsilon
    ensures Magnitude(m, v) <= maxSpeed + Epsilon ==> ClampSpeed(m, v, maxSpeed) == v
    ensures Magnitude(m, v) > maxSpeed + Epsilon ==>
      Magnitude(m, ClampSpeed(m, v, maxSpeed)) == maxSpeed &&
      ClampSpeed(m, v, maxSpeed) == v.Scale(maxSpeed / Magnitude(m, v))
  {
    if Magnitude(m, v) > maxSpeed + Epsilon {
      ClampedSpeed(m, v, maxSpeed);
    }
  }

  /** The clamped case: a non-zero v, rescaled by maxSpeed over its own length. */
  lemma ClampedSpeed(m: Maths, v: Vec3, maxSpeed: real)
    requires SqrtLaw(m) && 0.0 <= maxSpeed && Magnitude(m, v) > maxSpeed + Epsilon
    ensures Magnitude(m, Normalize(m, v).Scale(maxSpeed)) == maxSpeed
    ensures Normalize(m, v).Scale(maxSpeed) == v.Scale(maxSpeed / Magnitude(m, v))
  {
    MagnitudeZeroIff(m, v);
    NormalizeIsUnit(m, v);
    ScaledUnitMagnitude(m, Normalize(m, v), maxSpeed);
    var len := Magnitude(m, v);
    var k := 1.0 / len;
    assert Normalize(m, v) == v.Scale(k);
    assert k * maxSpeed == maxSpeed / len;
    ScaleTwice(v, k, maxSpeed);
  }

  lemma ScaleTwice(v: Vec3, a: real, b: real)
    ensures v.Scale(a).Scale(b) == v.Scale(a * b)
  {
    assert (v.x * a) * b == v.x * (a * b);
    assert (v.y * a) * b == v.y * (a * b);
    assert (v.z * a) * b == v.z * (a * b);
  }

  /** A zero velocity is never clamped. */
  lemma ClampSpeedZero(m: Maths, maxSpeed: real)
    requires SqrtLaw(m) && 0.0 <= maxSpeed
    ensures ClampSpeed(m, Zero, maxSpeed) == Zero
  {
    MagnitudeZeroIff(m, Zero);
  }

  class MovementComponent {
    var position: Vec3
    var velocity: Vec3
    var maxSpeed: real

    /** `MovementComponent::new`: at rest, with a top speed of 5. */
    constructor (initialPosition: Vec3)
      ensures position == initialPosition && velocity == Zero && maxSpeed == 5.0
    {
      position, velocity, maxSpeed := initialPosition, Zero, 5.0;
    }

    /** `set_velocity` replaces the velocity; nothing else changes. */
    method SetVelocity(v: Vec3)
      modifies this
      ensures velocity == v
      ensures position == old(position) && maxSpeed == old(maxSpeed)
    {
      velocity := v;
    }

    /** `tick`: clamp the speed, then integrate the position over dt. */
    method Tick(m: Maths, dt: Duration)
      modifies this
      ensures velocity == ClampSpeed(m, old(velocity), old(maxSpeed))
      ensures position == old(position).Add(velocity.Scale(dt))
      ensures maxSpeed == old(maxSpeed)
    {
      if Magnitude(m, velocity) > maxSpeed + Epsilon {
        velocity := Normalize(m, velocity).Scale(maxSpeed);
      }
      position := position.Add(velocity.Scale(dt));
    }
  }
}

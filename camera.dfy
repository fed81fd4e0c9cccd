/** The first-person camera: orientation, projection and per-frame steering (src/core/camera.rs). */
module Camera {
  import opened Vectors
  import opened Common
  import opened Input
  import opened Movement

  /** `std::f32::consts::PI`, exactly. */
  const Pi: real := 3.1415927410125732421875

  function ToRadians(degrees: real): (r: real) { degrees * (Pi / 180.0) }

  /** 89 degrees, the largest pitch `rotate` allows either way. */
  const PitchLimit: real := ToRadians(90.0 - 1.0)

  /** The pitch clamp of `rotate`. */
  function ClampPitch(p: real): (r: real)
    ensures -PitchLimit <= r <= PitchLimit
    ensures -PitchLimit <= p <= PitchLimit ==> r == p
    ensures p > PitchLimit ==> r == PitchLimit
    ensures p < -PitchLimit ==> r == -PitchLimit
  {
    if p > PitchLimit then PitchLimit else if p < -PitchLimit then -PitchLimit else p
  }

  /** The camera-space unit vector for each direction key, before rotation. */
  function BaseMovement(direction: MoveDirection): (r: Vec3) {
    match direction
    case Forward => Vec3(0.0, 0.0, -1.0)
    case Left => Vec3(-1.0, 0.0, 0.0)
    case Backward => Vec3(0.0, 0.0, 1.0)
    case Right => Vec3(1.0, 0.0, 0.0)
    case Up => Vec3(0.0, 1.0, 0.0)
    case Down => Vec3(0.0, -1.0, 0.0)
  }

  function Opposite(direction: MoveDirection): (r: MoveDirection) {
    match direction
    case Forward => Backward
    case Backward => Forward
    case Left => Right
    case Right => Left
    case Up => Down
    case Down => Up
  }

  /** Each key's vector is a unit vector. */
  lemma BaseMovementIsUnit(direction: MoveDirection)
    ensures BaseMovement(direction).Magnitude2() == 1.0
  {
    match direction
    case Forward => assert BaseMovement(direction) == Vec3(0.0, 0.0, -1.0);
    case Backward => assert BaseMovement(direction) == Vec3(0.0, 0.0, 1.0);
    case Left => assert BaseMovement(direction) == Vec3(-1.0, 0.0, 0.0);
    case Right => assert BaseMovement(direction) == Vec3(1.0, 0.0, 0.0);
    case Up => assert BaseMovement(direction) == Vec3(0.0, 1.0, 0.0);
    case Down => assert BaseMovement(direction) == Vec3(0.0, -1.0, 0.0);
  }

  /** Opposite keys give opposite vectors, so pressing both cancels out before rotation. */
  lemma OppositeMovesCancel(direction: MoveDirection)
    ensures Opposite(direction) != direction
    ensures BaseMovement(Opposite(direction)) == BaseMovement(direction).Neg()
  {
    var w := BaseMovement(Opposite(direction));
    match direction
    case Forward => assert w == Vec3(0.0, 0.0, 1.0);
    case Backward => assert w == Vec3(0.0, 0.0, -1.0);
    case Left => assert w == Vec3(1.0, 0.0, 0.0);
    case Right => assert w == Vec3(-1.0, 0.0, 0.0);
    case Up => assert w == Vec3(0.0, -1.0, 0.0);
    case Down => assert w == Vec3(0.0, 1.0, 0.0);
  }

  /** What the loop of `tick` carries from one action to the next. */
  datatype Steering = Steering(yaw: real, pitch: real, vel: Vec3)

  /**
   * One action of `tick`. A rotation turns the y component of the delta into yaw
   * (scaled by the projection scale) and the x component into pitch; a move adds
   * the key's vector rotated by the orientation reached so far.
   */
  function Steer(m: Maths, scale: real, s: Steering, action: SceneAction): (r: Steering) {
    match action
    case RotateCamera(dx, dy) =>
      var yawChange := (dy as real / 1000.0) * 2.0 * scale;
      var pitchChange := -(dx as real / 1000.0) * 2.0;
      Steering(s.yaw - yawChange, ClampPitch(s.pitch - pitchChange), s.vel)
    case Move(direction) =>
      Steering(s.yaw, s.pitch, s.vel.Add(m.rotate(s.yaw, s.pitch, BaseMovement(direction))))
  }

  /** A rotation action, spelled out: the steps `tick` takes to turn the delta into angles. */
  lemma RotateStep(m: Maths, scale: real, s: Steering, dx: I16, dy: I16, yawChange: real, pitchChange: real)
    requires yawChange == (dy as real / 1000.0) * 2.0 * scale
    requires pitchChange == -(dx as real / 1000.0) * 2.0
    ensures Steer(m, scale, s, RotateCamera(dx, dy)) == Steering(s.yaw - yawChange, ClampPitch(s.pitch - pitchChange), s.vel)
  {
  }

  /** The actions of one `tick`, in order. */
  function SteerAll(m: Maths, scale: real, s: Steering, actions: seq<SceneAction>): (r: Steering)
    decreases |actions|
  {
    if actions == [] then s
    else Steer(m, scale, SteerAll(m, scale, s, actions[..|actions| - 1]), actions[|actions| - 1])
  }

  lemma SteerAllStep(m: Maths, scale: real, s: Steering, actions: seq<SceneAction>, i: nat)
    requires i < |actions|
    ensures SteerAll(m, scale, s, actions[..i + 1]) == Steer(m, scale, SteerAll(m, scale, s, actions[..i]), actions[i])
  {
    assert actions[..i + 1][..i] == actions[..i];
  }

  lemma SteerAllPair(m: Maths, scale: real, s: Steering, a: SceneAction, b: SceneAction)
    ensures SteerAll(m, scale, s, [a, b]) == Steer(m, scale, Steer(m, scale, s, a), b)
  {
    assert [a][..0] == [];
    assert SteerAll(m, scale, s, [a]) == Steer(m, scale, s, a);
    assert [a, b][..1] == [a];
  }

  /**
   * Holding two opposite keys cancels out after the rotation too: the two moves
   * leave the summed movement vector, and the orientation, where they were.
   */
  lemma OppositeMovesCancelAfterRotation(m: Maths, scale: real, s: Steering, direction: MoveDirection)
    requires RotationOddLaw(m)
    ensures SteerAll(m, scale, s, [Move(direction), Move(Opposite(direction))]) == s
  {
    OppositeMovesCancel(direction);
    SteerAllPair(m, scale, s, Move(direction), Move(Opposite(direction)));
    var v := m.rotate(s.yaw, s.pitch, BaseMovement(direction));
    assert m.rotate(s.yaw, s.pitch, BaseMovement(Opposite(direction))) == v.Neg();
    AddThenSubtract(s.vel, v);
  }

  /**
   * The pitch is within +-89 degrees after a tick that started within them or
   * that rotated at least once, however large the deltas.
   */
  lemma {:induction false} SteeredPitchIsBounded(m: Maths, scale: real, s: Steering, actions: seq<SceneAction>)
    requires (-PitchLimit <= s.pitch <= PitchLimit) || (exists i :: 0 <= i < |actions| && actions[i].RotateCamera?)
    ensures -PitchLimit <= SteerAll(m, scale, s, actions).pitch <= PitchLimit
    decreases |actions|
  {
    if actions != [] {
      var n := |actions| - 1;
      if !actions[n].RotateCamera? {
        if !(-PitchLimit <= s.pitch <= PitchLimit) {
          var i :| 0 <= i < |actions| && actions[i].RotateCamera?;
          assert actions[..n][i].RotateCamera?;
        }
        SteeredPitchIsBounded(m, scale, s, actions[..n]);
      }
    }
  }

  /** Without a move the summed movement vector stays where it started. */
  lemma {:induction false} SteerWithoutMoves(m: Maths, scale: real, s: Steering, actions: seq<SceneAction>)
    requires forall i :: 0 <= i < |actions| ==> actions[i].RotateCamera?
    ensures SteerAll(m, scale, s, actions).vel == s.vel
    decreases |actions|
  {
    if actions != [] {
      SteerWithoutMoves(m, scale, s, actions[..|actions| - 1]);
    }
  }

  /** Without a rotation the orientation stays where it started. */
  lemma {:induction false} SteerWithoutRotations(m: Maths, scale: real, s: Steering, actions: seq<SceneAction>)
    requires forall i :: 0 <= i < |actions| ==> actions[i].Move?
    ensures SteerAll(m, scale, s, actions).yaw == s.yaw
    ensures SteerAll(m, scale, s, actions).pitch == s.pitch
    decreases |actions|
  {
    if actions != [] {
      SteerWithoutRotations(m, scale, s, actions[..|actions| - 1]);
    }
  }

  class Camera {
    const movement: MovementComponent
    var pitch: real
    var yaw: real
    const fov: real
    const aspectRatio: real
    const nearPlane: real
    const farPlane: real

    /**
     * `from_position_and_target`: default projection, an orientation facing the
     * target, and a movement component at the eye position. The pitch is not clamped.
     */
    constructor FromPositionAndTarget(m: Maths, position: Vec3, lookAt: Vec3)
      ensures fresh(movement)
      ensures movement.position == position && movement.velocity == Zero && movement.maxSpeed == 5.0
      ensures fov == ToRadians(45.0) && aspectRatio == 16.0 / 9.0
      ensures nearPlane == 0.1 && farPlane == 100.0
      ensures var forward := Normalize(m, lookAt.Sub(position));
              yaw == m.atan2(forward.x, forward.z) + Pi && pitch == -m.asin(forward.y)
    {
      var forward := Normalize(m, lookAt.Sub(position));
      movement := new MovementComponent(position);
      yaw := m.atan2(forward.x, forward.z) + Pi;
      pitch := -m.asin(forward.y);
      fov := ToRadians(45.0);
      aspectRatio := 16.0 / 9.0;
      nearPlane := 0.1;
      farPlane := 100.0;
    }

    /** `rotate`: turn by -deltaX in yaw and -deltaY in pitch, clamping the pitch. */
    method Rotate(deltaX: real, deltaY: real)
      modifies this
      ensures yaw == old(yaw) - deltaX
      ensures pitch == ClampPitch(old(pitch) - deltaY)
      ensures -PitchLimit <= pitch <= PitchLimit
    {
      yaw := yaw + -deltaX;
      pitch := pitch + -deltaY;
      if pitch > PitchLimit {
        pitch := PitchLimit;
      }
      if pitch < -PitchLimit {
        pitch := -PitchLimit;
      }
    }

    /** `scale`: the tangent of half the field of view. */
    function Scale(m: Maths): (r: real) {
      m.tan(fov / 2.0)
    }

    /** The direction through a screen point, in camera space, before normalizing. */
    function CameraSpaceDirection(m: Maths, pixel: Vec2): (r: Vec3) {
      Vec3(pixel.x * aspectRatio * Scale(m), pixel.y * Scale(m), -1.0)
    }

    /** `get_ray`: from the eye, through the screen point, turned by the orientation. */
    function GetRay(m: Maths, pixel: Vec2): (r: Ray)
      reads this, movement
      ensures r.origin == movement.position
      ensures r.direction.Get() == Normalize(m, m.rotate(yaw, pitch, Normalize(m, CameraSpaceDirection(m, pixel))))
    {
      var dirWorldSpace := m.rotate(yaw, pitch, Normalize(m, CameraSpaceDirection(m, pixel)));
      NewRay(m, movement.position, dirWorldSpace)
    }

    /** `direction_to_movement`: the key's vector turned by the current orientation. */
    function DirectionToMovement(m: Maths, direction: MoveDirection): (v: Vec3)
      reads this
    {
      m.rotate(yaw, pitch, BaseMovement(direction))
    }

    /**
     * `tick`: run the actions in order, then set the velocity to the summed movement
     * vector times the top speed (the previous velocity is discarded) and let the
     * movement component integrate over dt.
     */
    method Tick(m: Maths, actions: seq<SceneAction>, dt: Duration)
      modifies this, movement
      ensures var s := SteerAll(m, Scale(m), Steering(old(yaw), old(pitch), Zero), actions);
              yaw == s.yaw && pitch == s.pitch &&
              movement.velocity == ClampSpeed(m, s.vel.Scale(old(movement.maxSpeed)), old(movement.maxSpeed))
      ensures movement.position == old(movement.position).Add(movement.velocity.Scale(dt))
      ensures movement.maxSpeed == old(movement.maxSpeed)
    {
      var vel := Zero;
      for i := 0 to |actions|
        invariant Steering(yaw, pitch, vel)
               == SteerAll(m, Scale(m), Steering(old(yaw), old(pitch), Zero), actions[..i])
        invariant movement.position == old(movement.position)
        invariant movement.maxSpeed == old(movement.maxSpeed)
      {
        SteerAllStep(m, Scale(m), Steering(old(yaw), old(pitch), Zero), actions, i);
        ghost var before := Steering(yaw, pitch, vel);
        match actions[i] {
          case RotateCamera(dx, dy) =>
            var deltaInScreenSpaceX := dx as real / 1000.0;
            var deltaInScreenSpaceY := dy as real / 1000.0;
            var sensitivity := 2.0;
            var yawChange := deltaInScreenSpaceY * sensitivity * Scale(m);
            var pitchChange := -deltaInScreenSpaceX * sensitivity;
            RotateStep(m, Scale(m), before, dx, dy, yawChange, pitchChange);
            Rotate(yawChange, pitchChange);
          case Move(direction) =>
            vel := vel.Add(DirectionToMovement(m, direction));
            assert Steering(yaw, pitch, vel) == Steer(m, Scale(m), before, actions[i]);
        }
      }
      assert actions[..|actions|] == actions;
      movement.SetVelocity(vel.Scale(movement.maxSpeed));
      movement.Tick(m, dt);
    }
  }

  /** Every primary ray has a unit direction. */
  lemma GetRayDirectionIsUnit(m: Maths, camera: Camera, pixel: Vec2)
    requires SqrtLaw(m) && RotationLaw(m)
    ensures camera.GetRay(m, pixel).direction.Get().Magnitude2() == 1.0
  {
    var v := camera.CameraSpaceDirection(m, pixel);
    assert v.z == -1.0;
    NormalizeIsUnit(m, v);
    var w := m.rotate(camera.yaw, camera.pitch, Normalize(m, v));
    RotationKeepsLength(m, camera.yaw, camera.pitch, Normalize(m, v));
    SquaresNonNegative(w);
    NormalizeIsUnit(m, w);
  }

  /**
   * A tick without any move leaves the camera where it was, at rest: the velocity
   * is overwritten with zero rather than keeping the previous frame's.
   */
  lemma NoMovesMeansRest(m: Maths, scale: real, yaw: real, pitch: real, maxSpeed: real, actions: seq<SceneAction>)
    requires SqrtLaw(m) && 0.0 <= maxSpeed
    requires forall i :: 0 <= i < |actions| ==> actions[i].RotateCamera?
    ensures ClampSpeed(m, SteerAll(m, scale, Steering(yaw, pitch, Zero), actions).vel.Scale(maxSpeed), maxSpeed) == Zero
  {
    SteerWithoutMoves(m, scale, Steering(yaw, pitch, Zero), actions);
    assert Zero.Scale(maxSpeed) == Zero;
    ClampSpeedZero(m, maxSpeed);
  }
}

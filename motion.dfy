/** The movement half of the fish's frame: capping the desired velocity at the cruising
    speed and easing the current velocity toward it. */
module Motion {
  import opened Vectors

  /** Below this magnitude a velocity counts as standing still. */
  const MoveThreshold := 0.01

  /** Below this speed the fish does not turn. */
  const RotateThreshold := 0.05

  /** The desired velocity capped at `speed`: longer vectors are cut to that length and keep
      their direction; shorter ones pass unchanged. */
  function ClampToSpeed(v: Vec3, speed: real, sqrt: real -> real): (r: Vec3)
    requires IsSqrt(sqrt)
    ensures 0.0 <= speed ==> SqrMag(r) <= Sq(speed)
    ensures !MagnitudeAbove(v, speed) ==> r == v
    ensures MagnitudeAbove(v, speed) && 0.0 <= speed ==> SqrMag(r) == Sq(speed)
    ensures MagnitudeAbove(v, speed) && 0.0 < speed ==> Cross(r, v) == Zero && Dot(r, v) > 0.0
  {
    if MagnitudeAbove(v, speed) then
      var u := Normalized(v, sqrt);
      if 0.0 <= speed then
        ClampedLength(v, speed, sqrt);
        Scale(u, speed)
      else
        Scale(u, speed)
    else
      v
  }

  lemma ClampedLength(v: Vec3, speed: real, sqrt: real -> real)
    requires IsSqrt(sqrt)
    requires 0.0 <= speed && MagnitudeAbove(v, speed)
    ensures SqrMag(Scale(Normalized(v, sqrt), speed)) == Sq(speed)
    ensures 0.0 < speed ==> Cross(Scale(Normalized(v, sqrt), speed), v) == Zero
    ensures 0.0 < speed ==> Dot(Scale(Normalized(v, sqrt), speed), v) > 0.0
  {
    SqNonneg(speed);
    assert v != Zero by { assert SqrMag(Zero) == 0.0; }
    var u := Normalized(v, sqrt);
    ScaleSqrMag(u, speed);
    ScaleCross(u, v, speed);
    assert Scale(Zero, speed) == Zero;
    DotScaleLeft(u, v, speed);
    if 0.0 < speed {
      MulPos(speed, Dot(u, v));
    }
  }

  /** The velocity after one frame: toward the desired velocity at `acceleration`, or toward
      rest at `deceleration` when nothing is desired, and unchanged when both the desired
      and the current velocity are below the standing-still threshold. */
  function NextVelocity(current: Vec3, desired: Vec3, acceleration: real, deceleration: real, dt: real,
                        sqrt: real -> real): Vec3
    requires IsSqrt(sqrt)
  {
    if MagnitudeAbove(desired, MoveThreshold) || MagnitudeAbove(current, MoveThreshold) then
      if MagnitudeAbove(desired, MoveThreshold) then
        MoveTowards(current, desired, acceleration * dt, sqrt)
      else
        MoveTowards(current, Zero, deceleration * dt, sqrt)
    else
      current
  }

  /** Standing still with nothing desired: the velocity is left exactly as it is. */
  lemma NextVelocityIdle(current: Vec3, desired: Vec3, acceleration: real, deceleration: real, dt: real,
                         sqrt: real -> real)
    requires IsSqrt(sqrt)
    requires !MagnitudeAbove(desired, MoveThreshold) && !MagnitudeAbove(current, MoveThreshold)
    ensures NextVelocity(current, desired, acceleration, deceleration, dt, sqrt) == current
  {
  }

  /** Accelerating: the velocity changes by at most acceleration * dt, and reaches the
      desired velocity exactly once it is that close. */
  lemma NextVelocityAccelerates(current: Vec3, desired: Vec3, acceleration: real, deceleration: real, dt: real,
                                sqrt: real -> real)
    requires IsSqrt(sqrt)
    requires 0.0 <= acceleration && 0.0 <= dt
    requires MagnitudeAbove(desired, MoveThreshold)
    ensures SqrDist(NextVelocity(current, desired, acceleration, deceleration, dt, sqrt), current)
         <= Sq(acceleration * dt)
    ensures SqrDist(desired, current) <= Sq(acceleration * dt) ==>
              NextVelocity(current, desired, acceleration, deceleration, dt, sqrt) == desired
  {
    var step := acceleration * dt;
    assert 0.0 <= step by { MulMono(0.0, acceleration, dt); }
    AcceleratingStep(current, desired, acceleration, deceleration, dt, sqrt);
    var r := MoveTowards(current, desired, step, sqrt);
    assert SqrDist(r, current) <= Sq(step);
  }

  /** With a desired speed above the threshold, the step is a MoveTowards toward it. */
  lemma AcceleratingStep(current: Vec3, desired: Vec3, acceleration: real, deceleration: real, dt: real,
                         sqrt: real -> real)
    requires IsSqrt(sqrt)
    requires MagnitudeAbove(desired, MoveThreshold)
    ensures NextVelocity(current, desired, acceleration, deceleration, dt, sqrt)
         == MoveTowards(current, desired, acceleration * dt, sqrt)
  {
  }

  /** Braking: the velocity changes by at most deceleration * dt, never grows in magnitude,
      and comes exactly to rest once it is that slow. */
  lemma NextVelocityBrakes(current: Vec3, desired: Vec3, acceleration: real, deceleration: real, dt: real,
                           sqrt: real -> real)
    requires IsSqrt(sqrt)
    requires 0.0 <= deceleration && 0.0 <= dt
    requires !MagnitudeAbove(desired, MoveThreshold) && MagnitudeAbove(current, MoveThreshold)
    ensures SqrDist(NextVelocity(current, desired, acceleration, deceleration, dt, sqrt), current)
         <= Sq(deceleration * dt)
    ensures SqrMag(NextVelocity(current, desired, acceleration, deceleration, dt, sqrt)) <= SqrMag(current)
    ensures SqrMag(current) <= Sq(deceleration * dt) ==>
              NextVelocity(current, desired, acceleration, deceleration, dt, sqrt) == Zero
  {
    var step := deceleration * dt;
    assert 0.0 <= step by { MulMono(0.0, deceleration, dt); }
    BrakingStep(current, desired, acceleration, deceleration, dt, sqrt);
    SqrMagOfNegation(current);
    BrakingNeverSpeedsUp(current, step, sqrt);
  }

  /** With nothing desired while still moving, the step is a MoveTowards toward rest. */
  lemma BrakingStep(current: Vec3, desired: Vec3, acceleration: real, deceleration: real, dt: real,
                    sqrt: real -> real)
    requires IsSqrt(sqrt)
    requires !MagnitudeAbove(desired, MoveThreshold) && MagnitudeAbove(current, MoveThreshold)
    ensures NextVelocity(current, desired, acceleration, deceleration, dt, sqrt)
         == MoveTowards(current, Zero, deceleration * dt, sqrt)
  {
  }

  /** Moving toward rest never increases the speed. */
  lemma BrakingNeverSpeedsUp(current: Vec3, maxDelta: real, sqrt: real -> real)
    requires IsSqrt(sqrt)
    requires 0.0 <= maxDelta
    ensures SqrMag(MoveTowards(current, Zero, maxDelta, sqrt)) <= SqrMag(current)
  {
    MoveTowardsOnSegment(current, Zero, maxDelta, sqrt);
    TowardRest(current, StepFraction(current, Zero, maxDelta, sqrt));
  }

  lemma TowardRest(v: Vec3, t: real)
    requires 0.0 <= t <= 1.0
    ensures SqrMag(Add(v, Scale(Sub(Zero, v), t))) <= SqrMag(v)
  {
    var u := 1.0 - t;
    assert Add(v, Scale(Sub(Zero, v), t)) == Scale(v, u);
    ScaleSqrMag(v, u);
    SqrMagNonneg(v);
    SqAtMostOne(u);
    MulMono(Sq(u), 1.0, SqrMag(v));
  }

  /** A velocity and a desired velocity within the speed ball give a next velocity within it. */
  lemma NextVelocityWithinSpeed(current: Vec3, desired: Vec3, acceleration: real, deceleration: real, dt: real,
                                sqrt: real -> real, s2: real)
    requires IsSqrt(sqrt)
    requires 0.0 <= acceleration && 0.0 <= deceleration && 0.0 <= dt
    requires SqrMag(current) <= s2 && SqrMag(desired) <= s2
    ensures SqrMag(NextVelocity(current, desired, acceleration, deceleration, dt, sqrt)) <= s2
  {
    if MagnitudeAbove(desired, MoveThreshold) {
      MulMono(0.0, acceleration, dt);
      MoveTowardsOnSegment(current, desired, acceleration * dt, sqrt);
      SegmentInBall(current, desired, StepFraction(current, desired, acceleration * dt, sqrt), s2);
    } else if MagnitudeAbove(current, MoveThreshold) {
      NextVelocityBrakes(current, desired, acceleration, deceleration, dt, sqrt);
    }
  }
}

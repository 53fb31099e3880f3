/**
  The shot-input mapping: which presses may start a drag, and how a released
  slingshot drag becomes a velocity impulse.
*/
module ShotInput {
  import opened Vector2D

  /** A drag of this length or more launches at full power. */
  const MaxDragDistance: real := 200.0
  /** Velocity gained per pixel of (power-scaled) drag. */
  const LaunchGain: real := 0.15
  /** A press starts a drag only strictly closer than this to the ball centre. */
  const GrabRadius: real := 20.0
  /** The ball counts as stopped while its squared speed is below this. */
  const StoppedSpeedSqr: real := 0.1

  predicate BallStopped(velocity: Vec) {
    LengthSqr(velocity) < StoppedSpeedSqr
  }

  /**
    A press at `pointer` may start a drag: the pointer is near the ball and
    the ball has stopped.
  */
  function CanGrab(sqrt: real -> real, ball: Vec, velocity: Vec, pointer: Vec): (b: bool)
    requires IsSqrt(sqrt)
    ensures b <==> DistanceSqr(pointer, ball) < 400.0 && LengthSqr(velocity) < 0.1
  {
    LengthBelow(sqrt, Sub(pointer, ball), GrabRadius);
    Distance(sqrt, pointer, ball) < GrabRadius && BallStopped(velocity)
  }

  function Min(a: real, b: real): real { if a < b then a else b }

  /**
    The power of a shot: the drag length as a fraction of MaxDragDistance,
    clamped to 1.
  */
  function PowerScalar(sqrt: real -> real, shoot: Vec): (p: real)
    requires IsSqrt(sqrt)
    ensures 0.0 <= p <= 1.0
    ensures LengthSqr(shoot) >= 40000.0 ==> p == 1.0
    ensures LengthSqr(shoot) < 40000.0 ==> p * p * 40000.0 == LengthSqr(shoot)
    ensures shoot == Zero ==> p == 0.0
  {
    var dragDistance := Length(sqrt, shoot);
    LengthBelow(sqrt, shoot, MaxDragDistance);
    PowerRatio(dragDistance);
    Min(dragDistance / MaxDragDistance, 1.0)
  }

  lemma PowerRatio(d: real)
    requires 0.0 <= d
    ensures d < 200.0 ==> 0.0 <= d / 200.0 < 1.0
    ensures d >= 200.0 ==> d / 200.0 >= 1.0
    ensures (d / 200.0) * (d / 200.0) * 40000.0 == d * d
  {
    var q := d / 200.0;
    assert d == q * 200.0;
    calc {
      q * q * 40000.0;
      (q * 200.0) * (q * 200.0);
      d * d;
    }
  }

  /**
    The velocity added by releasing a drag that started at `dragStart` and
    ended at `dragEnd`: slingshot semantics, so it points from the end back
    to the start.
  */
  function ShotImpulse(sqrt: real -> real, dragStart: Vec, dragEnd: Vec): (dv: Vec)
    requires IsSqrt(sqrt)
    ensures var shoot := Sub(dragStart, dragEnd);
      && Cross(dv, shoot) == 0.0
      && Dot(dv, shoot) >= 0.0
      && LengthSqr(dv) == (LaunchGain * PowerScalar(sqrt, shoot)) * (LaunchGain * PowerScalar(sqrt, shoot)) * LengthSqr(shoot)
      && (LengthSqr(shoot) >= 40000.0 ==> dv == Scale(shoot, LaunchGain))
    ensures dragStart == dragEnd ==> dv == Zero
  {
    var shoot := Sub(dragStart, dragEnd);
    var k := LaunchGain * PowerScalar(sqrt, shoot);
    ScaleLengthSqr(shoot, k);
    LengthSqrNonnegative(shoot);
    MulNonnegative(k, LengthSqr(shoot));
    Scale(shoot, k)
  }

  /** The stages ShotImpulse runs, in order. */
  lemma ImpulseStages(sqrt: real -> real, dragStart: Vec, dragEnd: Vec)
    requires IsSqrt(sqrt)
    ensures var shoot := Sub(dragStart, dragEnd);
      ShotImpulse(sqrt, dragStart, dragEnd) == Scale(shoot, LaunchGain * Min(Length(sqrt, shoot) / MaxDragDistance, 1.0))
  {
  }
}

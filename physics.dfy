/**
  The per-frame physics of the ball, stage by stage: the gravity well around
  the hole with its win snap, the speed cap, the Euler move, friction and the
  wall bounce. Each stage is a function of the values it reads; `Step`
  composes them in the order the frame runs them.
*/
module Physics {
  import opened Vector2D

  const BallRadius: real := 10.0
  /** The hole pulls the ball while their distance is below this. */
  const SinkDistance: real := 30.0
  /** Magnitude of the per-frame pull toward the hole. */
  const SinkPull: real := 0.5
  /** The ball drops in only strictly closer than this to the hole... */
  const SnapDistance: real := 5.0
  /** ...and only while its squared speed, after the pull, is below this. */
  const SnapSpeedSqr: real := 1.0
  const MaxVelocity: real := 15.0
  /** Velocity kept after one frame of rolling. */
  const Friction: real := 0.95
  /** Factor applied to one velocity component when the ball hits a wall. */
  const Restitution: real := -0.8

  /** The ball centre lies between the walls of a `w` by `h` screen. */
  predicate Inside(p: Vec, w: real, h: real) {
    BallRadius <= p.x <= w - BallRadius && BallRadius <= p.y <= h - BallRadius
  }

  /**
    Stage 1, the gravity well: within SinkDistance of the hole the velocity
    gains SinkPull times the unit vector from the ball toward the hole.
  */
  function Pull(sqrt: real -> real, ball: Vec, hole: Vec, velocity: Vec): Vec
    requires IsSqrt(sqrt)
  {
    var distToHole := Distance(sqrt, ball, hole);
    if distToHole < SinkDistance then
      var direction := Normalize(sqrt, Sub(hole, ball));
      Add(velocity, Scale(direction, SinkPull))
    else velocity
  }

  /** At SinkDistance or farther from the hole the pull leaves the velocity alone. */
  lemma PullOutsideWell(sqrt: real -> real, ball: Vec, hole: Vec, velocity: Vec)
    requires IsSqrt(sqrt)
    requires DistanceSqr(ball, hole) >= 900.0
    ensures Pull(sqrt, ball, hole, velocity) == velocity
  {
    LengthBelow(sqrt, Sub(ball, hole), SinkDistance);
  }

  /** On the hole centre the direction is the zero vector, so nothing is added. */
  lemma PullAtCentre(sqrt: real -> real, ball: Vec, hole: Vec, velocity: Vec)
    requires IsSqrt(sqrt)
    requires ball == hole
    ensures Pull(sqrt, ball, hole, velocity) == velocity
  {
    var direction := Normalize(sqrt, Sub(hole, ball));
    assert Sub(hole, ball) == Zero;
    ScaleZero(SinkPull);
    AddZero(velocity);
  }

  /**
    Inside the well, off the centre, the velocity gains a vector of length
    SinkPull that points from the ball toward the hole.
  */
  lemma PullTowardHole(sqrt: real -> real, ball: Vec, hole: Vec, velocity: Vec)
    requires IsSqrt(sqrt)
    requires 0.0 < DistanceSqr(ball, hole) < 900.0
    ensures var gained := Sub(Pull(sqrt, ball, hole, velocity), velocity);
      var toHole := Sub(hole, ball);
      LengthSqr(gained) == 0.25 && Cross(gained, toHole) == 0.0 && Dot(gained, toHole) > 0.0
  {
    var toHole := Sub(hole, ball);
    LengthBelow(sqrt, Sub(ball, hole), SinkDistance);
    LengthSqrNonnegative(Sub(ball, hole));
    assert toHole != Zero;
    var direction := Normalize(sqrt, toHole);
    assert Sub(Pull(sqrt, ball, hole, velocity), velocity) == Scale(direction, SinkPull);
    UnitScaled(direction, toHole, SinkPull);
  }

  /** A unit vector pointing along `target`, scaled by a positive `k`. */
  lemma UnitScaled(unit: Vec, target: Vec, k: real)
    requires 0.0 < k
    requires LengthSqr(unit) == 1.0 && Cross(unit, target) == 0.0 && Dot(unit, target) > 0.0
    ensures LengthSqr(Scale(unit, k)) == k * k
    ensures Cross(Scale(unit, k), target) == 0.0
    ensures Dot(Scale(unit, k), target) > 0.0
  {
    ScaleLengthSqr(unit, k);
    ScaleProducts(unit, target, k);
    PosMul(k, Dot(unit, target));
  }

  datatype Motion = Motion(ball: Vec, velocity: Vec, sunk: bool)

  /**
    Stages 1 and 2: the pull, then the win snap. The snap test sits inside
    the pull's distance test; since SnapDistance < SinkDistance it needs no
    separate guard here.
  */
  function GravityWell(sqrt: real -> real, ball: Vec, hole: Vec, velocity: Vec): Motion
    requires IsSqrt(sqrt)
  {
    var distToHole := Distance(sqrt, ball, hole);
    var pulled := Pull(sqrt, ball, hole, velocity);
    if distToHole < SnapDistance && LengthSqr(pulled) < SnapSpeedSqr then
      Motion(hole, Zero, true)
    else
      Motion(ball, pulled, false)
  }

  /**
    The ball drops in exactly when it is within SnapDistance of the hole and
    its pulled velocity is slow; it then sits exactly on the hole, at rest.
    Otherwise it keeps its place and carries the pulled velocity on.
  */
  lemma GravityWellSnap(sqrt: real -> real, ball: Vec, hole: Vec, velocity: Vec)
    requires IsSqrt(sqrt)
    ensures var m := GravityWell(sqrt, ball, hole, velocity);
      && (m.sunk <==> DistanceSqr(ball, hole) < 25.0 && LengthSqr(Pull(sqrt, ball, hole, velocity)) < 1.0)
      && (m.sunk ==> m.ball == hole && m.velocity == Zero)
      && (!m.sunk ==> m.ball == ball && m.velocity == Pull(sqrt, ball, hole, velocity))
  {
    LengthBelow(sqrt, Sub(ball, hole), SnapDistance);
  }

  /** Stage 3, the hard velocity cap. */
  function CapSpeed(sqrt: real -> real, velocity: Vec): Vec
    requires IsSqrt(sqrt)
  {
    var currentSpeed := Length(sqrt, velocity);
    if currentSpeed > MaxVelocity then
      Scale(Normalize(sqrt, velocity), MaxVelocity)
    else velocity
  }

  /**
    After the cap the speed is at most MaxVelocity; a slower velocity is
    left alone, and a faster one is rescaled to exactly MaxVelocity in the
    same direction.
  */
  lemma CapSpeedBound(sqrt: real -> real, velocity: Vec)
    requires IsSqrt(sqrt)
    ensures var r := CapSpeed(sqrt, velocity);
      && LengthSqr(r) <= 225.0
      && (LengthSqr(velocity) <= 225.0 ==> r == velocity)
      && (LengthSqr(velocity) > 225.0 ==>
            LengthSqr(r) == 225.0 && Cross(r, velocity) == 0.0 && Dot(r, velocity) > 0.0)
  {
    var currentSpeed := Length(sqrt, velocity);
    SquareMonotone(MaxVelocity, currentSpeed);
    if currentSpeed > MaxVelocity {
      var unit := Normalize(sqrt, velocity);
      LengthSqrNonnegative(velocity);
      ScaleLengthSqr(unit, MaxVelocity);
      ScaleProducts(unit, velocity, MaxVelocity);
      PosMul(MaxVelocity, Dot(unit, velocity));
    }
  }

  /**
    Stage 6 on one axis: a centre past a wall is put back exactly on it and
    that velocity component is reversed and damped. The low wall is tested
    first and the high wall only otherwise.
  */
  function BounceAxis(pos: real, vel: real, extent: real): (real, real)
  {
    if pos < BallRadius then (BallRadius, vel * Restitution)
    else if pos > extent - BallRadius then (extent - BallRadius, vel * Restitution)
    else (pos, vel)
  }

  /**
    Each wall snaps the centre exactly onto it and reverses and damps the
    velocity component; in between nothing changes. On an axis at least
    two radii long the centre ends between the walls, and the component
    never speeds up.
  */
  lemma BounceAxisClamp(pos: real, vel: real, extent: real)
    ensures var r := BounceAxis(pos, vel, extent);
      && (pos < BallRadius ==> r == (BallRadius, vel * Restitution))
      && (BallRadius <= pos <= extent - BallRadius ==> r == (pos, vel))
      && (BallRadius <= pos && extent - BallRadius < pos ==> r == (extent - BallRadius, vel * Restitution))
      && (2.0 * BallRadius <= extent ==> BallRadius <= r.0 <= extent - BallRadius)
      && r.1 * r.1 <= vel * vel
  {
    RestitutionShrinks(vel);
  }

  lemma RestitutionShrinks(vel: real)
    ensures (vel * Restitution) * (vel * Restitution) <= vel * vel
  {
    SquarePositive(vel);
    calc {
      (vel * Restitution) * (vel * Restitution);
      0.64 * (vel * vel);
      <= vel * vel;
    }
  }

  /** Stage 6 on both axes: the moved centre and the slowed velocity after the walls. */
  function Bounce(moved: Vec, slowed: Vec, w: real, h: real): (Vec, Vec)
  {
    var bounceX := BounceAxis(moved.x, slowed.x, w);
    var bounceY := BounceAxis(moved.y, slowed.y, h);
    (Vec(bounceX.0, bounceY.0), Vec(bounceX.1, bounceY.1))
  }

  /** After the bounce the centre is between the walls and neither component sped up. */
  lemma BounceContains(moved: Vec, slowed: Vec, w: real, h: real)
    ensures var r := Bounce(moved, slowed, w, h);
      && (2.0 * BallRadius <= w && 2.0 * BallRadius <= h ==> Inside(r.0, w, h))
      && r.1.x * r.1.x <= slowed.x * slowed.x && r.1.y * r.1.y <= slowed.y * slowed.y
  {
    BounceAxisClamp(moved.x, slowed.x, w);
    BounceAxisClamp(moved.y, slowed.y, h);
  }

  /**
    Stages 3 to 6 on the outcome of the gravity well: the speed cap, the
    Euler move, friction, and the wall bounce on each axis.
  */
  function Roll(sqrt: real -> real, well: Motion, w: real, h: real): Motion
    requires IsSqrt(sqrt)
  {
    var capped := CapSpeed(sqrt, well.velocity);
    var bounced := Bounce(Add(well.ball, capped), Scale(capped, Friction), w, h);
    Motion(bounced.0, bounced.1, well.sunk)
  }

  /** Rolling keeps the ball between the walls and within the speed cap. */
  lemma RollContains(sqrt: real -> real, well: Motion, w: real, h: real)
    requires IsSqrt(sqrt)
    ensures var m := Roll(sqrt, well, w, h);
      && (2.0 * BallRadius <= w && 2.0 * BallRadius <= h ==> Inside(m.ball, w, h))
      && m.sunk == well.sunk
      && LengthSqr(m.velocity) <= 225.0
  {
    var capped := CapSpeed(sqrt, well.velocity);
    var slowed := Scale(capped, Friction);
    CapSpeedBound(sqrt, well.velocity);
    BounceContains(Add(well.ball, capped), slowed, w, h);
    StepSlows(capped, slowed, Bounce(Add(well.ball, capped), slowed, w, h).1);
  }

  /** The stages Roll runs, in order. */
  lemma RollStages(sqrt: real -> real, well: Motion, w: real, h: real)
    requires IsSqrt(sqrt)
    ensures var capped := CapSpeed(sqrt, well.velocity);
      var bounced := Bounce(Add(well.ball, capped), Scale(capped, Friction), w, h);
      Roll(sqrt, well, w, h) == Motion(bounced.0, bounced.1, well.sunk)
  {
  }

  /**
    A ball at rest between the walls stays where it is through the cap, the
    move, friction and the bounce.
  */
  lemma RollAtRest(sqrt: real -> real, p: Vec, sunk: bool, w: real, h: real)
    requires IsSqrt(sqrt)
    requires Inside(p, w, h)
    ensures Roll(sqrt, Motion(p, Zero, sunk), w, h) == Motion(p, Zero, sunk)
  {
    CapAtRest(sqrt);
    assert Roll(sqrt, Motion(p, Zero, sunk), w, h)
      == Motion(Bounce(Add(p, Zero), Scale(Zero, Friction), w, h).0, Bounce(Add(p, Zero), Scale(Zero, Friction), w, h).1, sunk);
    AddZero(p);
    ScaleZero(Friction);
    BounceInside(p, w, h);
  }

  lemma CapAtRest(sqrt: real -> real)
    requires IsSqrt(sqrt)
    ensures CapSpeed(sqrt, Zero) == Zero
  {
    LengthSqrNonnegative(Zero);
    CapSpeedBound(sqrt, Zero);
  }

  lemma BounceInside(p: Vec, w: real, h: real)
    requires Inside(p, w, h)
    ensures Bounce(p, Zero, w, h) == (p, Zero)
  {
  }

  /**
    One frame of physics for a ball that has not yet dropped in, on a `w` by
    `h` screen: the gravity well and win snap, then the roll.
  */
  function Step(sqrt: real -> real, ball: Vec, hole: Vec, velocity: Vec, w: real, h: real): Motion
    requires IsSqrt(sqrt)
  {
    Roll(sqrt, GravityWell(sqrt, ball, hole, velocity), w, h)
  }

  /** After a step the ball is between the walls and within the speed cap. */
  lemma StepContains(sqrt: real -> real, ball: Vec, hole: Vec, velocity: Vec, w: real, h: real)
    requires IsSqrt(sqrt)
    ensures var m := Step(sqrt, ball, hole, velocity, w, h);
      && (2.0 * BallRadius <= w && 2.0 * BallRadius <= h ==> Inside(m.ball, w, h))
      && LengthSqr(m.velocity) <= 225.0
  {
    RollContains(sqrt, GravityWell(sqrt, ball, hole, velocity), w, h);
  }

  /**
    The ball drops in during a frame exactly when the win snap fires, and a
    ball that drops into a hole between the walls ends the frame on the hole,
    at rest.
  */
  lemma StepSinks(sqrt: real -> real, ball: Vec, hole: Vec, velocity: Vec, w: real, h: real)
    requires IsSqrt(sqrt)
    ensures var m := Step(sqrt, ball, hole, velocity, w, h);
      && (m.sunk <==> DistanceSqr(ball, hole) < 25.0 && LengthSqr(Pull(sqrt, ball, hole, velocity)) < 1.0)
      && (m.sunk && Inside(hole, w, h) ==> m.ball == hole && m.velocity == Zero)
  {
    var well := GravityWell(sqrt, ball, hole, velocity);
    GravityWellSnap(sqrt, ball, hole, velocity);
    RollContains(sqrt, well, w, h);
    if well.sunk && Inside(hole, w, h) {
      RollAtRest(sqrt, hole, true, w, h);
    }
  }

  /**
    A ball at rest within SnapDistance of a hole between the walls, off its
    centre, drops in: the pull alone leaves it slow enough for the snap.
  */
  lemma RestNearHoleSinks(sqrt: real -> real, ball: Vec, hole: Vec, w: real, h: real)
    requires IsSqrt(sqrt)
    requires 0.0 < DistanceSqr(ball, hole) < 25.0
    requires Inside(hole, w, h)
    ensures Step(sqrt, ball, hole, Zero, w, h) == Motion(hole, Zero, true)
  {
    PullTowardHole(sqrt, ball, hole, Zero);
    assert Sub(Pull(sqrt, ball, hole, Zero), Zero) == Pull(sqrt, ball, hole, Zero);
    StepSinks(sqrt, ball, hole, Zero, w, h);
  }

  /** Friction and the bounce only shrink a capped velocity. */
  lemma StepSlows(capped: Vec, slowed: Vec, bounced: Vec)
    requires LengthSqr(capped) <= 225.0
    requires slowed == Scale(capped, Friction)
    requires bounced.x * bounced.x <= slowed.x * slowed.x
    requires bounced.y * bounced.y <= slowed.y * slowed.y
    ensures LengthSqr(bounced) <= 225.0
  {
    ScaleLengthSqr(capped, Friction);
    LengthSqrNonnegative(capped);
    calc {
      LengthSqr(bounced);
      <= LengthSqr(slowed);
      == Friction * Friction * LengthSqr(capped);
      <= LengthSqr(capped);
      <= 225.0;
    }
  }

  /** Far from the hole the gravity well changes nothing and the ball cannot drop in. */
  lemma GravityWellFar(sqrt: real -> real, ball: Vec, hole: Vec, velocity: Vec)
    requires IsSqrt(sqrt)
    requires DistanceSqr(ball, hole) >= 900.0
    ensures GravityWell(sqrt, ball, hole, velocity) == Motion(ball, velocity, false)
  {
    PullOutsideWell(sqrt, ball, hole, velocity);
    GravityWellSnap(sqrt, ball, hole, velocity);
  }

  /** Friction strictly slows a moving ball, so rolling freely it only ever loses speed. */
  lemma FrictionSlows(v: Vec)
    requires v != Zero
    ensures LengthSqr(Scale(v, Friction)) < LengthSqr(v)
  {
    ScaleLengthSqr(v, Friction);
    LengthSqrNonnegative(v);
    calc {
      LengthSqr(Scale(v, Friction));
      == Friction * Friction * LengthSqr(v);
      == 0.9025 * LengthSqr(v);
      < LengthSqr(v);
    }
  }

  /**
    A ball one pixel past the left wall, moving left at speed 5, ends the
    frame on the wall moving right at 3.8: friction scales the speed to 4.75
    before the bounce reverses and damps it.
  */
  lemma WallBounceScenario(sqrt: real -> real)
    requires IsSqrt(sqrt)
    ensures Step(sqrt, Vec(9.0, 300.0), Vec(700.0, 100.0), Vec(-5.0, 0.0), 800.0, 600.0)
      == Motion(Vec(10.0, 300.0), Vec(3.8, 0.0), false)
  {
    var ball, hole, velocity := Vec(9.0, 300.0), Vec(700.0, 100.0), Vec(-5.0, 0.0);
    GravityWellFar(sqrt, ball, hole, velocity);
    assert LengthSqr(velocity) == 25.0;
    CapSpeedBound(sqrt, velocity);
    RollStages(sqrt, Motion(ball, velocity, false), 800.0, 600.0);
    LeftWallBounce();
  }

  lemma LeftWallBounce()
    ensures Bounce(Add(Vec(9.0, 300.0), Vec(-5.0, 0.0)), Scale(Vec(-5.0, 0.0), Friction), 800.0, 600.0)
      == (Vec(10.0, 300.0), Vec(3.8, 0.0))
  {
    assert Add(Vec(9.0, 300.0), Vec(-5.0, 0.0)) == Vec(4.0, 300.0);
    assert Scale(Vec(-5.0, 0.0), Friction) == Vec(-4.75, 0.0);
    assert BounceAxis(4.0, -4.75, 800.0) == (10.0, 3.8);
    assert BounceAxis(300.0, 0.0, 600.0) == (300.0, 0.0);
  }

  /**
    The win snap tests the speed after the pull: a ball 3 pixels from the
    hole, rolling toward it at 0.9, is sped past the snap threshold and does
    not drop in this frame.
  */
  lemma SnapTestsPulledSpeed(sqrt: real -> real)
    requires IsSqrt(sqrt)
    ensures var ball, hole, velocity := Vec(697.0, 100.0), Vec(700.0, 100.0), Vec(0.9, 0.0);
      DistanceSqr(ball, hole) < 25.0 && LengthSqr(velocity) < 1.0
      && !GravityWell(sqrt, ball, hole, velocity).sunk
  {
    var ball, hole, velocity := Vec(697.0, 100.0), Vec(700.0, 100.0), Vec(0.9, 0.0);
    PullTowardHole(sqrt, ball, hole, velocity);
    GravityWellSnap(sqrt, ball, hole, velocity);
    var pulled := Pull(sqrt, ball, hole, velocity);
    var gained := Sub(pulled, velocity);
    assert Sub(hole, ball) == Vec(3.0, 0.0);
    assert gained.y == 0.0;
    assert gained.x > 0.0;
    SquareMonotone(gained.x, 0.5);
    SquareMonotone(1.0, pulled.x);
    assert LengthSqr(pulled) >= pulled.x * pulled.x;
  }

  /**
    A ball 4 pixels left of the hole, creeping toward it at 0.3, is pulled
    to 0.8: slow enough for the snap.
  */
  lemma CreepingBallPulled(sqrt: real -> real)
    requires IsSqrt(sqrt)
    ensures Pull(sqrt, Vec(696.0, 100.0), Vec(700.0, 100.0), Vec(0.3, 0.0)) == Vec(0.8, 0.0)
  {
    var ball, hole, velocity := Vec(696.0, 100.0), Vec(700.0, 100.0), Vec(0.3, 0.0);
    PullTowardHole(sqrt, ball, hole, velocity);
    var gained := Sub(Pull(sqrt, ball, hole, velocity), velocity);
    assert Sub(hole, ball) == Vec(4.0, 0.0);
    assert gained.y == 0.0;
    assert gained.x > 0.0;
    assert gained.x * gained.x == 0.25;
    SquareMonotone(gained.x, 0.5);
    SquareMonotone(0.5, gained.x);
    assert gained.x == 0.5;
  }
}

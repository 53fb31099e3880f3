/**
  The game's global state as one object, updated in place by the routines
  the main loop runs each frame. Every method is specified by the function
  of the `Round` state machine that it implements.
*/
module Game {
  import opened Vector2D
  import opened ShotInput
  import opened Physics
  import opened HolePlacement
  import opened Round

  class RoundState {
    var ball: Vec
    var hole: Vec
    var velocity: Vec
    var strokes: nat
    var holeInOne: bool
    var dragging: bool
    var dragStart: Vec

    function State(): Snapshot
      reads this
    {
      Snapshot(ball, hole, velocity, strokes, holeInOne, dragging, dragStart)
    }

    /** The globals as the program starts, before the first hole placement. */
    constructor ()
      ensures State() == Initial()
      ensures Valid(State())
    {
      ball := StartPos;
      hole := InitialHole;
      velocity := Zero;
      strokes := 0;
      holeInOne := false;
      dragging := false;
      dragStart := Zero;
      InitialValid();
    }

    /**
      Moves the hole to the first accepted draw on a `w` by `h` screen and
      reports how many draws were consumed. Nothing else changes.
    */
    method GenerateNewHolePosition(sqrt: real -> real, w: int, h: int, draws: seq<Draw>) returns (used: nat)
      requires IsSqrt(sqrt)
      requires ValidDraws(draws, w, h)
      modifies this`hole
      ensures hole == PlacedHole(draws)
      ensures Placed(hole, w as real, h as real)
      ensures used == FirstAccepted(draws) + 1
    {
      var newHolePos;
      newHolePos, used := SampleHole(sqrt, w, h, draws);
      hole := newHolePos;
    }

    /** A new hole, then the ball back at the start and the round's counters cleared. */
    method ResetGame(sqrt: real -> real, draws: seq<Draw>) returns (used: nat)
      requires IsSqrt(sqrt)
      requires ValidDraws(draws, ScreenWidth as int, ScreenHeight as int)
      modifies this
      ensures State() == Reset(PlacedHole(draws))
      ensures used == FirstAccepted(draws) + 1
    {
      used := GenerateNewHolePosition(sqrt, ScreenWidth as int, ScreenHeight as int, draws);
      ball := StartPos;
      velocity := Zero;
      strokes := 0;
      holeInOne := false;
      dragging := false;
      dragStart := Zero;
    }

    /** The input stage of a frame: Play Again after a win, otherwise grab and shoot. */
    method HandleInput(sqrt: real -> real, f: FrameInput)
      requires IsSqrt(sqrt)
      requires FrameReady(State(), f)
      modifies this
      ensures State() == AfterInput(sqrt, old(State()), f)
    {
      if holeInOne && f.pressed {
        if f.onPlayAgain {
          var _ := ResetGame(sqrt, f.draws);
        }
      } else if !holeInOne {
        StartDrag(sqrt, f);
        CommitShot(sqrt, f);
      }
    }

    /** A press within reach of a stopped ball starts a drag at the press point. */
    method StartDrag(sqrt: real -> real, f: FrameInput)
      requires IsSqrt(sqrt)
      modifies this`dragging, this`dragStart
      ensures State() == Grab(sqrt, old(State()), f)
    {
      var ballStopped := LengthSqr(velocity) < StoppedSpeedSqr;
      if f.pressed && Distance(sqrt, f.pointer, ball) < GrabRadius && ballStopped {
        dragging := true;
        dragStart := f.pointer;
      }
    }

    /** A release during a drag adds the shot impulse, ends the drag and counts a stroke. */
    method CommitShot(sqrt: real -> real, f: FrameInput)
      requires IsSqrt(sqrt)
      modifies this`velocity, this`dragging, this`strokes
      ensures State() == Shoot(sqrt, old(State()), f)
    {
      if f.released && dragging {
        velocity := Launch(sqrt, velocity, dragStart, f.pointer);
        dragging := false;
        strokes := strokes + 1;
      }
    }

    /** The physics stage of a frame, run only while the ball has not dropped in. */
    method UpdatePhysics(sqrt: real -> real)
      requires IsSqrt(sqrt)
      modifies this
      ensures State() == AfterPhysics(sqrt, old(State()))
    {
      if !holeInOne {
        var newBall, newVelocity, sunk := SinkStage(sqrt, ball, hole, velocity);
        ghost var well := Motion(newBall, newVelocity, sunk);
        newVelocity := CapStage(sqrt, newVelocity);
        ghost var capped := newVelocity;
        newBall, newVelocity := MoveStage(newBall, newVelocity, ScreenWidth, ScreenHeight);
        PhysicsStages(sqrt, State(), well, capped, (newBall, newVelocity));
        ball, velocity, holeInOne := newBall, newVelocity, sunk;
      }
    }

    /** One pass of the main loop: input, then physics. */
    method RunFrame(sqrt: real -> real, f: FrameInput)
      requires IsSqrt(sqrt)
      requires FrameReady(State(), f)
      modifies this
      ensures State() == Frame(sqrt, old(State()), f)
      ensures old(Valid(State())) ==> Valid(State())
    {
      ghost var before := State();
      HandleInput(sqrt, f);
      UpdatePhysics(sqrt);
      if Valid(before) {
        FramePreservesValid(sqrt, before, f);
      }
    }
  }

  /** Physics stages 1 and 2 on the given values: the gravity well and the win snap. */
  method SinkStage(sqrt: real -> real, ball: Vec, hole: Vec, velocity: Vec)
    returns (newBall: Vec, newVelocity: Vec, sunk: bool)
    requires IsSqrt(sqrt)
    ensures Motion(newBall, newVelocity, sunk) == GravityWell(sqrt, ball, hole, velocity)
  {
    newBall, newVelocity, sunk := ball, velocity, false;
    var distToHole := Distance(sqrt, ball, hole);
    if distToHole < SinkDistance {
      var direction := Normalize(sqrt, Sub(hole, ball));
      newVelocity := Add(newVelocity, Scale(direction, SinkPull));
      assert newVelocity == Pull(sqrt, ball, hole, velocity);
      if distToHole < SnapDistance && LengthSqr(newVelocity) < SnapSpeedSqr {
        sunk := true;
        newBall := hole;
        newVelocity := Zero;
      }
    } else {
      assert newVelocity == Pull(sqrt, ball, hole, velocity);
    }
  }

  /** Physics stage 3 on the given velocity: the hard velocity cap. */
  method CapStage(sqrt: real -> real, velocity: Vec) returns (capped: Vec)
    requires IsSqrt(sqrt)
    ensures capped == CapSpeed(sqrt, velocity)
  {
    capped := velocity;
    var currentSpeed := Length(sqrt, capped);
    if currentSpeed > MaxVelocity {
      capped := Scale(Normalize(sqrt, capped), MaxVelocity);
    }
  }

  /** Physics stages 4 to 6 on the given values: the move, friction, and the bounce off each pair of walls. */
  method MoveStage(ball: Vec, velocity: Vec, w: real, h: real) returns (newBall: Vec, newVelocity: Vec)
    ensures (newBall, newVelocity) == Bounce(Add(ball, velocity), Scale(velocity, Friction), w, h)
  {
    newBall := Add(ball, velocity);
    newVelocity := Scale(velocity, Friction);

    if newBall.x < BallRadius {
      newVelocity := newVelocity.(x := newVelocity.x * Restitution);
      newBall := newBall.(x := BallRadius);
    } else if newBall.x > w - BallRadius {
      newVelocity := newVelocity.(x := newVelocity.x * Restitution);
      newBall := newBall.(x := w - BallRadius);
    }

    if newBall.y < BallRadius {
      newVelocity := newVelocity.(y := newVelocity.y * Restitution);
      newBall := newBall.(y := BallRadius);
    } else if newBall.y > h - BallRadius {
      newVelocity := newVelocity.(y := newVelocity.y * Restitution);
      newBall := newBall.(y := h - BallRadius);
    }
  }

  /**
    The velocity after releasing a drag from `dragStart` at `dragEnd`: the
    per-axis update of main.c, which adds the shot impulse.
  */
  method Launch(sqrt: real -> real, velocity: Vec, dragStart: Vec, dragEnd: Vec) returns (launched: Vec)
    requires IsSqrt(sqrt)
    ensures launched == Add(velocity, ShotImpulse(sqrt, dragStart, dragEnd))
  {
    var shootVector := Sub(dragStart, dragEnd);
    var dragDistance := Length(sqrt, shootVector);
    var powerScalar := Min(dragDistance / MaxDragDistance, 1.0);
    launched := velocity;
    launched := launched.(x := launched.x + shootVector.x * LaunchGain * powerScalar);
    launched := launched.(y := launched.y + shootVector.y * LaunchGain * powerScalar);
    AddScaled(velocity, shootVector, LaunchGain, powerScalar);
    ImpulseStages(sqrt, dragStart, dragEnd);
  }

  /**
    The physics stage of a frame, for a ball not yet in, is the gravity
    well, the cap, and the move with friction and bounce.
  */
  lemma PhysicsStages(sqrt: real -> real, s: Snapshot, well: Motion, capped: Vec, bounced: (Vec, Vec))
    requires IsSqrt(sqrt)
    requires !s.holeInOne
    requires well == GravityWell(sqrt, s.ball, s.hole, s.velocity)
    requires capped == CapSpeed(sqrt, well.velocity)
    requires bounced == Bounce(Add(well.ball, capped), Scale(capped, Friction), ScreenWidth, ScreenHeight)
    ensures AfterPhysics(sqrt, s) == s.(ball := bounced.0, velocity := bounced.1, holeInOne := well.sunk)
  {
    RollStages(sqrt, well, ScreenWidth, ScreenHeight);
  }
}

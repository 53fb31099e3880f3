/**
  The round as a state machine over snapshots of the game state: one frame
  reads the pointer, then runs the physics unless the ball has dropped in.
  The screen is the game's fixed 800 by 600 window.
*/
module Round {
  import opened Vector2D
  import opened ShotInput
  import opened Physics
  import opened HolePlacement

  const ScreenWidth: real := 800.0
  const ScreenHeight: real := 600.0
  /** Where the hole sits before the first placement. */
  const InitialHole: Vec := Vec(700.0, 100.0)

  /** The game's global state. */
  datatype Snapshot = Snapshot(
    ball: Vec,
    hole: Vec,
    velocity: Vec,
    strokes: nat,
    holeInOne: bool,
    dragging: bool,
    dragStart: Vec)

  /**
    What one frame reads from the outside world: the pointer position, the
    button edges, whether the pointer is on the Play Again button, and the
    random draws a hole placement would consume.
  */
  datatype FrameInput = FrameInput(
    pointer: Vec,
    pressed: bool,
    released: bool,
    onPlayAgain: bool,
    draws: seq<Draw>)

  /** The state before the first frame; the hole is then placed by the caller. */
  function Initial(): Snapshot
  {
    Snapshot(StartPos, InitialHole, Zero, 0, false, false, Zero)
  }

  /** A fresh round around the newly placed hole `hole`. */
  function Reset(hole: Vec): Snapshot
  {
    Snapshot(StartPos, hole, Zero, 0, false, false, Zero)
  }

  /** The hole placed from the given draws, as the rejection loop picks it. */
  function PlacedHole(draws: seq<Draw>): (p: Vec)
    requires exists k :: 0 <= k < |draws| && Accepted(draws[k])
    ensures FarFromStart(p)
  {
    HoleVec(draws[FirstAccepted(draws)])
  }

  /** A frame that restarts the round: a press on Play Again after a win. */
  predicate Restarts(s: Snapshot, f: FrameInput) {
    s.holeInOne && f.pressed && f.onPlayAgain
  }

  /** The draws a frame consumes are usable when it restarts the round. */
  predicate FrameReady(s: Snapshot, f: FrameInput) {
    Restarts(s, f) ==> ValidDraws(f.draws, ScreenWidth as int, ScreenHeight as int)
  }

  /** Starting a drag: a press near a stopped ball records the press point. */
  function Grab(sqrt: real -> real, s: Snapshot, f: FrameInput): Snapshot
    requires IsSqrt(sqrt)
  {
    if f.pressed && CanGrab(sqrt, s.ball, s.velocity, f.pointer) then
      s.(dragging := true, dragStart := f.pointer)
    else s
  }

  /** Releasing a drag: the slingshot impulse is added and a stroke counted. */
  function Shoot(sqrt: real -> real, s: Snapshot, f: FrameInput): Snapshot
    requires IsSqrt(sqrt)
  {
    if f.released && s.dragging then
      s.(velocity := Add(s.velocity, ShotImpulse(sqrt, s.dragStart, f.pointer)),
         dragging := false,
         strokes := s.strokes + 1)
    else s
  }

  /** The input stage of a frame. */
  function AfterInput(sqrt: real -> real, s: Snapshot, f: FrameInput): Snapshot
    requires IsSqrt(sqrt)
    requires FrameReady(s, f)
  {
    if s.holeInOne then
      if f.pressed && f.onPlayAgain then Reset(PlacedHole(f.draws)) else s
    else Shoot(sqrt, Grab(sqrt, s, f), f)
  }

  /** The physics stage of a frame: nothing moves once the ball is in. */
  function AfterPhysics(sqrt: real -> real, s: Snapshot): Snapshot
    requires IsSqrt(sqrt)
  {
    if s.holeInOne then s
    else
      var m := Step(sqrt, s.ball, s.hole, s.velocity, ScreenWidth, ScreenHeight);
      s.(ball := m.ball, velocity := m.velocity, holeInOne := m.sunk)
  }

  function Frame(sqrt: real -> real, s: Snapshot, f: FrameInput): Snapshot
    requires IsSqrt(sqrt)
    requires FrameReady(s, f)
  {
    AfterPhysics(sqrt, AfterInput(sqrt, s, f))
  }

  /** The state a round is in after the given frames, when each restart has usable draws. */
  function Run(sqrt: real -> real, s: Snapshot, frames: seq<FrameInput>): Snapshot
    requires IsSqrt(sqrt)
    requires forall i :: 0 <= i < |frames| ==> ValidDraws(frames[i].draws, ScreenWidth as int, ScreenHeight as int)
    decreases |frames|
  {
    if |frames| == 0 then s
    else Run(sqrt, Frame(sqrt, s, frames[0]), frames[1..])
  }

  /**
    What holds between frames: the ball is between the walls, the hole is a
    legal placement, the speed is within the cap, and a ball that has dropped
    in sits on the hole at rest.
  */
  predicate Valid(s: Snapshot) {
    && Inside(s.ball, ScreenWidth, ScreenHeight)
    && Placed(s.hole, ScreenWidth, ScreenHeight)
    && LengthSqr(s.velocity) <= MaxVelocity * MaxVelocity
    && (s.holeInOne ==> s.ball == s.hole && s.velocity == Zero)
  }

  lemma InitialValid()
    ensures Valid(Initial())
  {
    var s := Initial();
    assert Inside(s.ball, ScreenWidth, ScreenHeight);
    assert DistanceSqr(s.hole, StartPos) == 520000.0;
    assert Placed(s.hole, ScreenWidth, ScreenHeight);
    assert LengthSqr(Zero) == 0.0;
  }

  /** A legal hole lies between the walls, since the margin exceeds the ball radius. */
  lemma PlacedInside(p: Vec)
    requires Placed(p, ScreenWidth, ScreenHeight)
    ensures Inside(p, ScreenWidth, ScreenHeight)
  {
  }

  /** The hole chosen from usable draws is a legal placement. */
  lemma PlacedHoleIsPlaced(draws: seq<Draw>)
    requires ValidDraws(draws, ScreenWidth as int, ScreenHeight as int)
    ensures Placed(PlacedHole(draws), ScreenWidth, ScreenHeight)
  {
    assert InMargins(draws[FirstAccepted(draws)], 800, 600);
  }

  /**
    A freshly reset round is at rest far from the hole, so the physics that
    runs in the same frame leaves it exactly as it is.
  */
  lemma ResetAtRest(sqrt: real -> real, hole: Vec)
    requires IsSqrt(sqrt)
    requires Placed(hole, ScreenWidth, ScreenHeight)
    ensures AfterPhysics(sqrt, Reset(hole)) == Reset(hole)
  {
    DistanceSymmetric(StartPos, hole);
    GravityWellFar(sqrt, StartPos, hole, Zero);
    RollAtRest(sqrt, StartPos, false, ScreenWidth, ScreenHeight);
  }

  /** Pressing Play Again after a win starts a fresh round around the newly placed hole. */
  lemma PlayAgainRestarts(sqrt: real -> real, s: Snapshot, f: FrameInput)
    requires IsSqrt(sqrt)
    requires Restarts(s, f) && ValidDraws(f.draws, ScreenWidth as int, ScreenHeight as int)
    ensures Frame(sqrt, s, f) == Reset(PlacedHole(f.draws))
    ensures Valid(Frame(sqrt, s, f))
  {
    var hole := PlacedHole(f.draws);
    assert AfterInput(sqrt, s, f) == Reset(hole);
    PlacedHoleIsPlaced(f.draws);
    ResetAtRest(sqrt, hole);
    ResetValid(hole);
  }

  lemma ResetValid(hole: Vec)
    requires Placed(hole, ScreenWidth, ScreenHeight)
    ensures Valid(Reset(hole))
  {
    assert LengthSqr(Zero) == 0.0;
  }

  /** After a win, every frame that is not a press on Play Again changes nothing. */
  lemma SunkIsFrozen(sqrt: real -> real, s: Snapshot, f: FrameInput)
    requires IsSqrt(sqrt)
    requires s.holeInOne && !(f.pressed && f.onPlayAgain)
    ensures Frame(sqrt, s, f) == s
  {
  }

  /**
    After a win the round stays won exactly until Play Again is pressed: the
    reset round starts far from the hole and cannot drop in that frame.
  */
  lemma SunkUntilPlayAgain(sqrt: real -> real, s: Snapshot, f: FrameInput)
    requires IsSqrt(sqrt)
    requires s.holeInOne && FrameReady(s, f)
    ensures Frame(sqrt, s, f).holeInOne <==> !(f.pressed && f.onPlayAgain)
  {
    if f.pressed && f.onPlayAgain {
      PlayAgainRestarts(sqrt, s, f);
    }
  }

  /** Over any run of frames without a press on Play Again, a won round stays as it is. */
  lemma {:induction false} StaysSunk(sqrt: real -> real, s: Snapshot, frames: seq<FrameInput>)
    requires IsSqrt(sqrt)
    requires forall i :: 0 <= i < |frames| ==> ValidDraws(frames[i].draws, ScreenWidth as int, ScreenHeight as int)
    requires s.holeInOne
    requires forall i :: 0 <= i < |frames| ==> !(frames[i].pressed && frames[i].onPlayAgain)
    ensures Run(sqrt, s, frames) == s
    decreases |frames|
  {
    if |frames| > 0 {
      SunkIsFrozen(sqrt, s, frames[0]);
      StaysSunk(sqrt, s, frames[1..]);
    }
  }

  /** Every frame keeps the between-frames invariant. */
  lemma FramePreservesValid(sqrt: real -> real, s: Snapshot, f: FrameInput)
    requires IsSqrt(sqrt)
    requires Valid(s) && FrameReady(s, f)
    ensures Valid(Frame(sqrt, s, f))
  {
    if s.holeInOne {
      if f.pressed && f.onPlayAgain {
        PlayAgainRestarts(sqrt, s, f);
      }
    } else {
      var t := AfterInput(sqrt, s, f);
      assert t.ball == s.ball && t.hole == s.hole && !t.holeInOne;
      PlacedInside(s.hole);
      StepContains(sqrt, t.ball, t.hole, t.velocity, ScreenWidth, ScreenHeight);
      StepSinks(sqrt, t.ball, t.hole, t.velocity, ScreenWidth, ScreenHeight);
    }
  }

  /** The invariant holds after any run of frames from a valid state. */
  lemma {:induction false} RunPreservesValid(sqrt: real -> real, s: Snapshot, frames: seq<FrameInput>)
    requires IsSqrt(sqrt)
    requires forall i :: 0 <= i < |frames| ==> ValidDraws(frames[i].draws, ScreenWidth as int, ScreenHeight as int)
    requires Valid(s)
    ensures Valid(Run(sqrt, s, frames))
    decreases |frames|
  {
    if |frames| > 0 {
      FramePreservesValid(sqrt, s, frames[0]);
      RunPreservesValid(sqrt, Frame(sqrt, s, frames[0]), frames[1..]);
    }
  }

  /**
    Outside a win, a drag is in progress after the input stage exactly when
    the button was not released and either a drag was already in progress or
    the press landed within the grab radius of a stopped ball.
  */
  lemma DragGate(sqrt: real -> real, s: Snapshot, f: FrameInput)
    requires IsSqrt(sqrt)
    requires !s.holeInOne
    ensures AfterInput(sqrt, s, f).dragging <==>
      !f.released && (s.dragging || (f.pressed && DistanceSqr(f.pointer, s.ball) < 400.0 && LengthSqr(s.velocity) < 0.1))
    ensures f.pressed && !s.dragging && AfterInput(sqrt, s, f).dragging ==> AfterInput(sqrt, s, f).dragStart == f.pointer
  {
  }

  /**
    Outside a win a frame adds one stroke exactly when it commits a shot (a
    release while a drag is in progress, possibly started the same frame),
    and the strokes survive the physics.
  */
  lemma StrokeCounting(sqrt: real -> real, s: Snapshot, f: FrameInput)
    requires IsSqrt(sqrt)
    requires !s.holeInOne
    ensures var grabbing := f.pressed && DistanceSqr(f.pointer, s.ball) < 400.0 && LengthSqr(s.velocity) < 0.1;
      Frame(sqrt, s, f).strokes == if f.released && (s.dragging || grabbing) then s.strokes + 1 else s.strokes
  {
    var g := Grab(sqrt, s, f);
    assert g.dragging == (s.dragging || (f.pressed && CanGrab(sqrt, s.ball, s.velocity, f.pointer)));
    assert g.strokes == s.strokes;
    var t := AfterInput(sqrt, s, f);
    assert t.strokes == if f.released && g.dragging then s.strokes + 1 else s.strokes;
    PhysicsKeepsCounters(sqrt, t);
  }

  /** The physics stage touches only the ball, its velocity and the win flag. */
  lemma PhysicsKeepsCounters(sqrt: real -> real, t: Snapshot)
    requires IsSqrt(sqrt)
    ensures var u := AfterPhysics(sqrt, t);
      u.hole == t.hole && u.strokes == t.strokes && u.dragging == t.dragging && u.dragStart == t.dragStart
  {
  }

  /**
    A committed shot adds the slingshot impulse of the recorded drag to the
    velocity and ends the drag.
  */
  lemma ShotCommits(sqrt: real -> real, s: Snapshot, f: FrameInput)
    requires IsSqrt(sqrt)
    requires !s.holeInOne && s.dragging && f.released
    ensures var t := AfterInput(sqrt, s, f);
      && t.velocity == Add(s.velocity, ShotImpulse(sqrt, if f.pressed && CanGrab(sqrt, s.ball, s.velocity, f.pointer) then f.pointer else s.dragStart, f.pointer))
      && !t.dragging && t.strokes == s.strokes + 1
  {
  }

  /**
    A press and release on a stopped ball within one frame counts a stroke
    but adds no velocity: the drag starts and ends at the same point.
  */
  lemma TapWastesStroke(sqrt: real -> real, s: Snapshot, f: FrameInput)
    requires IsSqrt(sqrt)
    requires !s.holeInOne && !s.dragging
    requires f.pressed && f.released && DistanceSqr(f.pointer, s.ball) < 400.0 && LengthSqr(s.velocity) < 0.1
    ensures AfterInput(sqrt, s, f).velocity == s.velocity
    ensures AfterInput(sqrt, s, f).strokes == s.strokes + 1
  {
    AddZero(s.velocity);
  }

  /** Outside a win, a press within reach of a stopped ball with no release starts a drag there. */
  lemma GrabStarts(sqrt: real -> real, s: Snapshot, f: FrameInput)
    requires IsSqrt(sqrt)
    requires !s.holeInOne && f.pressed && !f.released
    requires DistanceSqr(f.pointer, s.ball) < 400.0 && LengthSqr(s.velocity) < 0.1
    ensures AfterInput(sqrt, s, f) == s.(dragging := true, dragStart := f.pointer)
  {
  }

  /**
    A drag started on a stopped ball (squared speed below 0.1) that the
    win snap catches in the same frame is still in progress after the snap:
    nothing clears it.
  */
  lemma DragOutlivesWin(sqrt: real -> real, s: Snapshot, f: FrameInput)
    requires IsSqrt(sqrt)
    requires Valid(s) && !s.holeInOne
    requires LengthSqr(s.velocity) < 0.1
    requires GravityWell(sqrt, s.ball, s.hole, s.velocity).sunk
    requires f.pressed && !f.released && f.pointer == s.ball
    ensures Frame(sqrt, s, f) == s.(ball := s.hole, velocity := Zero, holeInOne := true, dragging := true, dragStart := f.pointer)
  {
    var t := s.(dragging := true, dragStart := f.pointer);
    assert AfterInput(sqrt, s, f) == t by {
      assert DistanceSqr(f.pointer, s.ball) == 0.0;
      GrabStarts(sqrt, s, f);
    }
    assert Step(sqrt, s.ball, s.hole, s.velocity, ScreenWidth, ScreenHeight) == Motion(s.hole, Zero, true) by {
      PlacedInside(s.hole);
      GravityWellSnap(sqrt, s.ball, s.hole, s.velocity);
      StepSinks(sqrt, s.ball, s.hole, s.velocity, ScreenWidth, ScreenHeight);
    }
    assert Frame(sqrt, s, f) == AfterPhysics(sqrt, t);
  }

  /**
    A valid round with the ball 4 pixels short of the hole, creeping toward
    it at 0.3, meets the conditions of DragOutlivesWin.
  */
  lemma CreepingBallMeetsDragOutlivesWin(sqrt: real -> real)
    requires IsSqrt(sqrt)
    ensures var s := Snapshot(Vec(696.0, 100.0), InitialHole, Vec(0.3, 0.0), 1, false, false, Zero);
      && Valid(s) && !s.holeInOne && LengthSqr(s.velocity) < 0.1
      && GravityWell(sqrt, s.ball, s.hole, s.velocity).sunk
  {
    var s := Snapshot(Vec(696.0, 100.0), InitialHole, Vec(0.3, 0.0), 1, false, false, Zero);
    assert Valid(s) by {
      InitialValid();
      assert s == Initial().(ball := Vec(696.0, 100.0), velocity := Vec(0.3, 0.0), strokes := 1);
      assert LengthSqr(Vec(0.3, 0.0)) == 0.09;
    }
    assert DistanceSqr(s.ball, s.hole) == 16.0 by {
      assert Sub(s.ball, s.hole) == Vec(-4.0, 0.0);
    }
    CreepingBallPulled(sqrt);
    assert LengthSqr(Vec(0.8, 0.0)) == 0.64;
    GravityWellSnap(sqrt, s.ball, s.hole, s.velocity);
  }
}

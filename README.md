# Mini golf round logic in Dafny

This project models one round of the mini golf game in
`app/src/main/cpp/main.c`. A round works like this:

- The ball starts at (100, 500). The hole is placed at random, at least 300
  pixels away.
- The player drags a slingshot away from a stopped ball. Releasing it adds a
  velocity impulse and counts a stroke.
- Each frame the ball is pulled toward the hole inside a gravity well. It is
  capped to a top speed, moved, slowed by friction and bounced off the walls.
- The ball drops in when it is close to the hole and slow. The round is then
  frozen until the player presses Play Again, which places a new hole and
  resets everything else.

The model is organised as follows:

- `vector.dfy` (`Vector2D`): the raylib vector operations the round uses.
  The square root is not part of Dafny's real arithmetic. Every operation
  that needs one takes a square-root function as a parameter, and `IsSqrt`
  constrains it to return the exact nonnegative root.
- `shot.dfy` (`ShotInput`): the pure parts of shot input. These are the grab
  test, the power scalar and the slingshot impulse.
- `physics.dfy` (`Physics`): the physics block, one function per stage in the
  order the frame runs them, and `Step`, their composition:
  1. the gravity well and the win snap (`GravityWell`);
  2. the speed cap (`CapSpeed`);
  3. the Euler move, friction and the per-axis bounce (`Roll`, `Bounce`,
     `BounceAxis`).
- `placement.dfy` (`HolePlacement`): the rejection loop of
  `GenerateNewHolePosition`, written as an imperative `while` loop.
- `round.dfy` (`Round`): the round as a state machine over a `Snapshot` of
  the globals, with the frame input as a value. It also holds the
  between-frames invariant `Valid` and the lemmas about runs of frames.
- `round_state.dfy` (`Game`): the globals as the class `RoundState`. Its
  methods update the fields in place, as the C code does:
  - `GenerateNewHolePosition`, `ResetGame`;
  - the input block, as `HandleInput`, `StartDrag` and `CommitShot`;
  - the physics block, as `UpdatePhysics`;
  - one pass of the main loop, as `RunFrame`.

  Each method is proved to implement the matching function of `Round`. The
  physics stages run as value-level methods (`SinkStage`, `CapStage`,
  `MoveStage`) written statement by statement like the C code. `Launch`
  performs the per-axis velocity update of a shot.

Inputs from outside the program are parameters:

- The mouse becomes a `FrameInput`. It carries the pointer position, the
  pressed and released edges of the button, and whether the pointer lies on
  the Play Again button.
- `GetRandomValue` becomes a finite sequence of `Draw`s. Each draw lies in
  the range the generator is asked for.
- The square root becomes the parameter `sqrt`.

Some consequences of `main.c` as written:

- A drag starts only when the press is strictly within 20 pixels of the
  ball centre (`main.c:171-173`).
- Friction is applied before the wall bounce (`main.c:223-229`). A ball at
  (9, 300) moving at (-5, 0) therefore leaves the wall at 0.95 × 5 × 0.8 =
  3.8 (`Physics.WallBounceScenario`).
- The win snap tests the speed after the gravity-well pull has been added
  (`main.c:203-206`), not the speed the ball arrived with
  (`Physics.SnapTestsPulledSpeed`).
- The win snap never clears `dragging` (`main.c:174`, `main.c:206-210`). A
  drag started on a stopped but still creeping ball just short of the hole
  is still in progress after that frame's snap (`Round.DragOutlivesWin`). Once the round
  is won, no input handling reads the flag again until the reset clears it.

## Model

| member | source | states |
|---|---|---|
| Game.RoundState.constructor | app/src/main/cpp/main.c:22-30 | The globals start as the program declares them: ball at (100, 500), hole at (700, 100), at rest, no strokes, not won, not dragging; that state satisfies the round invariant |
| Round.InitialValid | app/src/main/cpp/main.c:22-30 | The initial globals satisfy the invariant: ball between the walls, hole a legal placement, speed within the cap |
| HolePlacement.FirstAccepted | app/src/main/cpp/main.c:74-80 | The index where the rejection loop stops is an accepted draw and every earlier draw is rejected |
| HolePlacement.RejectedIffNear | app/src/main/cpp/main.c:80 | The loop's distance test (distance below 300) holds exactly when the squared distance to (100, 500) is below 90000 |
| HolePlacement.SampleHole | app/src/main/cpp/main.c:66-80 | The loop consumes draws up to and including the first accepted one, rejects all earlier ones, and returns that draw's integer point, inside the 50-pixel margins and at least 300 from the start |
| Game.RoundState.GenerateNewHolePosition | app/src/main/cpp/main.c:65-83 | Only `hole` changes; it becomes the first accepted draw, which lies inside the margins and at least 300 from the start |
| Round.PlacedHoleIsPlaced | app/src/main/cpp/main.c:65-83 | On the 800 by 600 screen the chosen hole is a legal placement |
| Game.RoundState.ResetGame | app/src/main/cpp/main.c:87-98 | A new hole is placed, then the ball is back at (100, 500), at rest, with no strokes, not won and not dragging, with the drag start at the origin |
| Round.ResetValid | app/src/main/cpp/main.c:87-98 | A reset around a legal hole satisfies the round invariant |
| ShotInput.CanGrab | app/src/main/cpp/main.c:171-173 | A press may start a drag exactly when the pointer is strictly within 20 of the ball (squared distance below 400) and the squared speed is below 0.1 |
| Game.RoundState.StartDrag | app/src/main/cpp/main.c:171-176 | Only `dragging` and `dragStart` may change: a qualifying press starts a drag at the press point, anything else leaves the state alone |
| ShotInput.PowerScalar | app/src/main/cpp/main.c:181-184 | The power lies in [0, 1]; it is 1 for drags of 200 or more, 0 for a zero-length drag, and otherwise the drag length over 200 |
| ShotInput.ShotImpulse | app/src/main/cpp/main.c:181-187 | The impulse is parallel to and in the direction of dragStart - dragEnd (slingshot), its length is 0.15 × power × the drag length, it is exactly 0.15 × the drag vector at full power, and zero for a zero-length drag |
| Game.Launch | app/src/main/cpp/main.c:181-187 | The per-axis update of the velocity adds exactly the shot impulse |
| Game.RoundState.CommitShot | app/src/main/cpp/main.c:178-191 | A release during a drag adds the impulse, ends the drag and adds exactly one stroke; otherwise nothing changes |
| Game.RoundState.HandleInput | app/src/main/cpp/main.c:154-192 | After a win only a press on Play Again does anything, and it resets the round; before a win, the grab and then the release are handled |
| Round.DragGate | app/src/main/cpp/main.c:169-191 | Before a win, a drag is in progress after the input stage exactly when the button was not released and either a drag was already in progress or the press qualifies; a new drag starts at the pointer |
| Round.StrokeCounting | app/src/main/cpp/main.c:178-190 | Before a win, a frame adds exactly one stroke when it commits a shot and none otherwise |
| Round.ShotCommits | app/src/main/cpp/main.c:178-191 | A committed shot adds the impulse of the recorded drag (or of one started this frame) to the velocity, ends the drag and adds one stroke |
| Round.TapWastesStroke | app/src/main/cpp/main.c:171-191 | A press and release in one frame on a stopped ball counts a stroke but adds no velocity |
| Round.GrabStarts | app/src/main/cpp/main.c:171-176 | Before a win, a qualifying press without a release changes only `dragging` (to true) and `dragStart` (to the pointer) |
| Physics.PullOutsideWell | app/src/main/cpp/main.c:197-198 | At distance 30 or more from the hole the gravity well leaves the velocity unchanged |
| Physics.PullAtCentre | app/src/main/cpp/main.c:198-203 | On the hole centre the normalised direction is zero and the pull adds nothing |
| Physics.PullTowardHole | app/src/main/cpp/main.c:197-203 | Within distance 30 and off the centre the velocity gains a vector of length 0.5 pointing from the ball toward the hole |
| Physics.GravityWellSnap | app/src/main/cpp/main.c:197-211 | The ball drops in exactly when it is within 5 of the hole and its pulled velocity has squared length below 1; it then sits exactly on the hole at rest, and otherwise keeps its place and carries the pulled velocity |
| Physics.GravityWellFar | app/src/main/cpp/main.c:197-211 | Far from the hole (30 or more) the well changes nothing and the ball cannot drop in |
| Game.SinkStage | app/src/main/cpp/main.c:197-211 | The statement-by-statement gravity well and win snap compute the well's result |
| Physics.CapSpeedBound | app/src/main/cpp/main.c:213-217 | After the cap the speed is at most 15; a slower velocity is untouched, a faster one is rescaled to exactly 15 in the same direction |
| Game.CapStage | app/src/main/cpp/main.c:213-217 | The statement-by-statement cap computes the cap function |
| Physics.BounceAxisClamp | app/src/main/cpp/main.c:227-246 | On one axis: past the low wall the centre is put exactly on it and the component is multiplied by -0.8; past the high wall (tested only otherwise) likewise; in between nothing changes; on an axis at least 20 long the centre ends between the walls, and the component never gains magnitude |
| Physics.BounceContains | app/src/main/cpp/main.c:225-246 | After both axes bounce the centre is between the walls and neither velocity component sped up |
| Game.MoveStage | app/src/main/cpp/main.c:219-246 | The move, friction and the two per-axis bounces, statement by statement, compute the bounce of the moved ball with the slowed velocity |
| Physics.FrictionSlows | app/src/main/cpp/main.c:222-223 | Friction strictly reduces the speed of a moving ball |
| Physics.RollContains | app/src/main/cpp/main.c:213-246 | Capping, moving, friction and bouncing keep the ball between the walls of a screen at least 20 by 20, keep the win flag, and keep the speed within 15 |
| Physics.RollAtRest | app/src/main/cpp/main.c:213-246 | A ball at rest between the walls stays exactly where it is, at rest |
| Physics.StepContains | app/src/main/cpp/main.c:195-247 | After a physics step the ball is between the walls and the speed is at most 15 |
| Physics.RestNearHoleSinks | app/src/main/cpp/main.c:195-247 | A ball at rest within 5 of a hole between the walls, off its centre, drops in that frame and ends exactly on the hole at rest |
| Physics.StepSinks | app/src/main/cpp/main.c:195-247 | A step drops the ball in exactly when the win snap fires; a ball that drops into a hole between the walls ends the frame exactly on the hole, at rest |
| Physics.WallBounceScenario | app/src/main/cpp/main.c:220-229 | A ball at (9, 300) moving at (-5, 0), far from the hole, ends the frame at (10, 300) moving at (3.8, 0) |
| Physics.CreepingBallPulled | app/src/main/cpp/main.c:197-203 | A ball 4 short of the hole moving toward it at 0.3 is pulled to exactly 0.8 along the same line |
| Physics.SnapTestsPulledSpeed | app/src/main/cpp/main.c:203-206 | A ball 3 from the hole rolling toward it at 0.9 is not sunk: the pull lifts its speed past the threshold |
| Game.RoundState.UpdatePhysics | app/src/main/cpp/main.c:195-247 | The in-place physics block yields the model's physics step, and nothing moves once the ball is in |
| Round.PhysicsKeepsCounters | app/src/main/cpp/main.c:195-247 | The physics stage never changes the hole, the strokes or the drag |
| Game.RoundState.RunFrame | app/src/main/cpp/main.c:148-247 | One pass of the main loop is the input stage followed by the physics stage, and it keeps the round invariant |
| Round.FramePreservesValid | app/src/main/cpp/main.c:154-247 | Every frame keeps the invariant: ball between the walls, hole legal, speed within 15, a won ball on the hole at rest |
| Round.RunPreservesValid | app/src/main/cpp/main.c:148-247 | Any run of frames from a valid state ends in a valid state |
| Round.SunkIsFrozen | app/src/main/cpp/main.c:154-195 | After a win every frame that is not a press on Play Again leaves the whole state unchanged |
| Round.StaysSunk | app/src/main/cpp/main.c:154-195 | Over any run of frames without a press on Play Again a won round stays exactly as it is |
| Round.SunkUntilPlayAgain | app/src/main/cpp/main.c:154-195 | After a win the round stays won exactly until Play Again is pressed |
| Round.PlayAgainRestarts | app/src/main/cpp/main.c:154-168 | Pressing Play Again after a win yields the reset round around the new hole, and its physics in the same frame changes nothing |
| Round.ResetAtRest | app/src/main/cpp/main.c:87-98 | A freshly reset ball is at rest far from any legal hole, so the physics leaves it in place |
| Round.DragOutlivesWin | app/src/main/cpp/main.c:171-210 | From a valid round not yet won, a press without release on a stopped ball (squared speed below 0.1) that the win snap catches in the same frame gives exactly the won state: ball on the hole at rest, with the drag still in progress from the press point |
| Round.CreepingBallMeetsDragOutlivesWin | app/src/main/cpp/main.c:171-210 | A valid round with the ball 4 short of the hole creeping toward it at 0.3 is stopped for the grab test and is caught by the snap, so the conditions of `Round.DragOutlivesWin` hold for a moving ball |
| Round.PlacedHole | app/src/main/cpp/main.c:74-82 | The placed hole is at least 300 from the start |

## Left out

- Drawing, textures, fonts, the power meter and the aim arrow
  (`main.c:253-430`), `DrawWiiSportsText`, `GetCenteredPosition` and
  `IsPowerMeterReady` only draw and never change the round state.
- The Play Again button's hit test (`main.c:156-165`) is screen geometry. It
  is the boolean `FrameInput.onPlayAgain`.
- Window, timing and frame-rate calls (`InitWindow`, `SetTargetFPS`,
  `WindowShouldClose`) are left out. One call of `RunFrame` is one frame.
- `SetRandomSeed` and `GetRandomValue` are foreign calls. The draws are a
  caller-supplied sequence, and each draw must lie in the requested range.
  GetRandomValue's swapping of reversed bounds is not modelled, because on
  the 800 by 600 screen the bounds are never reversed.
- HolePlacement.SampleHole: it requires that the draws contain an accepted
  one. The C loop never ends when the generator yields no accepted point,
  and that non-termination is not modelled.
- IEEE single-precision rounding is not modelled. Vectors are exact reals,
  and `sqrtf` is an exact square root given as a parameter. The scenario
  values (for example 3.8) are exact real results, not float results.
- `strokes` is an unbounded `nat`. The 32-bit `int` overflow of `strokes++`
  after 2^31 - 1 shots is not modelled.
- The frame-level lemmas fix the screen at 800 by 600, as `main` does
  (`main.c:102-103`). The physics lemmas hold for any screen at least
  2 × BallRadius wide and tall.
- The ball-stopped flag is computed once per frame before the input
  (`main.c:151`). The model computes it at the grab test. Nothing changes
  the velocity in between, so the two agree.
- Round.TapWastesStroke: `FrameInput` admits a press and a release in the
  same frame. raylib derives both edges from one current and one previous
  button state, so it never reports both for one frame. The lemma states
  what `main.c` would do with such input, which raylib does not deliver.

/**
  Placing the hole: draw integer coordinates inside the margins until the
  candidate lies at least MinDistance from the ball's starting point.

  The random generator is replaced by a finite stream of draws supplied by
  the caller, each one a value the generator may return. The rejection loop
  ends only when a draw is accepted, so the stream is required to hold one.
*/
module HolePlacement {
  import opened Vector2D

  /** The hole is never placed closer than this to the start position. */
  const MinDistance: real := 300.0
  /** The hole keeps this many pixels away from every screen edge. */
  const Margin: int := 50
  /** Where the ball starts a round. */
  const StartPos: Vec := Vec(100.0, 500.0)

  /** One pair of values returned by the random generator. */
  datatype Draw = Draw(x: int, y: int)

  /** The range the generator is asked for on each axis. */
  predicate InMargins(d: Draw, w: int, h: int) {
    Margin <= d.x <= w - Margin && Margin <= d.y <= h - Margin
  }

  /** A draw converted to a position (the integer-to-float conversion is exact here). */
  function HoleVec(d: Draw): Vec {
    Vec(d.x as real, d.y as real)
  }

  /** Far enough from the start position, stated on squared distances. */
  predicate FarFromStart(p: Vec) {
    DistanceSqr(p, StartPos) >= MinDistance * MinDistance
  }

  predicate Accepted(d: Draw) {
    FarFromStart(HoleVec(d))
  }

  /** Every draw lies in the margins and at least one of them is accepted. */
  predicate ValidDraws(draws: seq<Draw>, w: int, h: int) {
    && (forall i :: 0 <= i < |draws| ==> InMargins(draws[i], w, h))
    && (exists i :: 0 <= i < |draws| && Accepted(draws[i]))
  }

  /** A legal hole position: inside the margins and far from the start. */
  predicate Placed(p: Vec, w: real, h: real) {
    && Margin as real <= p.x <= w - Margin as real
    && Margin as real <= p.y <= h - Margin as real
    && FarFromStart(p)
  }

  /** The index of the draw the rejection loop stops at. */
  function FirstAccepted(draws: seq<Draw>): (i: nat)
    requires exists k :: 0 <= k < |draws| && Accepted(draws[k])
    ensures i < |draws| && Accepted(draws[i])
    ensures forall j :: 0 <= j < i ==> !Accepted(draws[j])
  {
    if Accepted(draws[0]) then 0
    else
      AcceptedInTail(draws);
      1 + FirstAccepted(draws[1..])
  }

  lemma AcceptedInTail(draws: seq<Draw>)
    requires exists k :: 0 <= k < |draws| && Accepted(draws[k])
    requires !Accepted(draws[0])
    ensures exists k :: 0 <= k < |draws[1..]| && Accepted(draws[1..][k])
  {
    var k :| 0 <= k < |draws| && Accepted(draws[k]);
    assert k != 0;
    assert draws[1..][k - 1] == draws[k];
  }

  /** The distance test of the loop, in lengths, agrees with FarFromStart. */
  lemma RejectedIffNear(sqrt: real -> real, p: Vec)
    requires IsSqrt(sqrt)
    ensures Distance(sqrt, p, StartPos) < MinDistance <==> !FarFromStart(p)
  {
    LengthBelow(sqrt, Sub(p, StartPos), MinDistance);
  }

  /**
    The rejection loop: the position of the first accepted draw and the
    number of draws it consumed. The result is a legal hole position.
  */
  method SampleHole(sqrt: real -> real, w: int, h: int, draws: seq<Draw>) returns (pos: Vec, used: nat)
    requires IsSqrt(sqrt)
    requires ValidDraws(draws, w, h)
    ensures used == FirstAccepted(draws) + 1
    ensures pos == HoleVec(draws[used - 1])
    ensures forall j :: 0 <= j < used - 1 ==> !Accepted(draws[j])
    ensures Placed(pos, w as real, h as real)
  {
    ghost var first := FirstAccepted(draws);
    pos := HoleVec(draws[0]);
    used := 1;
    RejectedIffNear(sqrt, pos);
    while Distance(sqrt, pos, StartPos) < MinDistance
      invariant 1 <= used <= first + 1
      invariant pos == HoleVec(draws[used - 1])
      invariant forall j :: 0 <= j < used - 1 ==> !Accepted(draws[j])
      invariant Distance(sqrt, pos, StartPos) < MinDistance <==> !Accepted(draws[used - 1])
      decreases first + 1 - used
    {
      pos := HoleVec(draws[used]);
      used := used + 1;
      RejectedIffNear(sqrt, pos);
    }
    assert InMargins(draws[used - 1], w, h);
  }
}
